/** Facts about finite maps, sets and sequences that the engines' loops rest on. */
module Collections {

  datatype Option<+T> = None | Some(value: T)

  function Lookup<K, V>(st: map<K, V>, key: K): Option<V>
  {
    if key in st then Some(st[key]) else None
  }

  function Elements<T(==)>(s: seq<T>): set<T>
  {
    set x | x in s
  }

  lemma ElementsGrow<T>(s: seq<T>, i: nat)
    requires i < |s|
    ensures Elements(s[..i + 1]) == Elements(s[..i]) + {s[i]}
  {
    assert s[..i + 1] == s[..i] + [s[i]];
  }

  lemma MinusOneMore<K, V>(m: map<K, V>, gone: set<K>, k: K)
    ensures m - (gone + {k}) == m - gone - {k}
  {
  }

  lemma MinusSize<K, V>(m: map<K, V>, k: K)
    ensures |m| == |m - {k}| + if k in m then 1 else 0
  {
    if k in m {
      assert m.Keys == (m - {k}).Keys + {k};
    } else {
      assert m - {k} == m;
    }
  }

  lemma MinusAbsent<K, V>(m: map<K, V>, k: K)
    ensures k !in m ==> m - {k} == m
    ensures m - {} == m
  {
  }

  /** Taking names out one by one. */
  lemma MinusNext<K, V>(m: map<K, V>, names: seq<K>, i: nat)
    requires i < |names|
    ensures var d, d' := m - Elements(names[..i]), m - Elements(names[..i + 1]);
      d' == (if names[i] in d then d - {names[i]} else d) && |d| == |d'| + if names[i] in d then 1 else 0
  {
    hide Elements;
    ElementsGrow(names, i);
    MinusOneMore(m, Elements(names[..i]), names[i]);
    MinusSize(m - Elements(names[..i]), names[i]);
    MinusAbsent(m - Elements(names[..i]), names[i]);
  }

  lemma MinusNone<K, V>(m: map<K, V>, names: seq<K>)
    ensures m - Elements(names[..0]) == m
  {
  }

  lemma MinusCount<K, V>(m: map<K, V>, gone: set<K>)
    ensures |m| == |m - gone| + |m.Keys * gone|
    ensures |m - gone| <= |m|
  {
    assert m.Keys == (m - gone).Keys + m.Keys * gone;
  }

  lemma MinusNothing<K, V>(m: map<K, V>, gone: set<K>)
    ensures m.Keys * gone == {} ==> m - gone == m
  {
    if m.Keys * gone == {} {
      forall k | k in m ensures k in m - gone {
        assert k !in m.Keys * gone;
      }
    }
  }

  lemma MinusDisjoint<T>(s: set<T>, t: set<T>)
    ensures s * t == {} ==> s - t == s
  {
    if s * t == {} {
      forall x | x in s ensures x !in t {
        assert x !in s * t;
      }
    }
  }

  lemma SameLookups<K, V>(a: map<K, V>, b: map<K, V>)
    requires forall k :: Lookup(a, k) == Lookup(b, k)
    ensures a == b
  {
    forall k ensures (k in a <==> k in b) && (k in a ==> a[k] == b[k]) {
      assert Lookup(a, k) == Lookup(b, k);
    }
  }

  lemma PutBack<K, V>(m: map<K, V>, k: K)
    requires k in m
    ensures m[k := m[k]] == m
  {
  }

  lemma SamePut<K, V>(m: map<K, V>, k: K, v: V)
    requires k in m
    ensures m[k := v] == m <==> v == m[k]
  {
    assert m[k := v][k] == v;
    PutBack(m, k);
  }

  lemma UpdateTwice<K, V>(m: map<K, V>, k: K, v: V, w: V)
    ensures m[k := v][k := w] == m[k := w]
  {
  }

  lemma Snoc<T>(s: seq<T>)
    requires s != []
    ensures s[..|s| - 1] + [s[|s| - 1]] == s
  {
  }

  lemma Concat<T>(a: seq<T>, b: seq<T>, c: seq<T>)
    ensures a + (b + c) == a + b + c
  {
  }

  lemma TakeConcat<T>(a: seq<T>, b: seq<T>, n: nat)
    requires n <= |a + b|
    ensures (a + b)[..n] == if n <= |a| then a[..n] else a + b[..n - |a|]
  {
  }

  lemma SliceGrows<T>(s: seq<T>, lo: nat, i: nat)
    requires lo <= i < |s|
    ensures s[lo..i] + [s[i]] == s[lo..i + 1]
  {
  }

  function Reversed<T>(s: seq<T>): (r: seq<T>)
    ensures |r| == |s|
    ensures forall i :: 0 <= i < |s| ==> r[i] == s[|s| - 1 - i]
  {
    seq(|s|, i requires 0 <= i < |s| => s[|s| - 1 - i])
  }

  lemma ReversedTail<T>(s: seq<T>, n: nat)
    requires n <= |s|
    ensures s == s[..|s| - n] + s[|s|..] + Reversed(Reversed(s)[..n])
  {
    assert Reversed(Reversed(s)[..n]) == s[|s| - n..];
  }

  /** Both ends inclusive, negative indices counted from the end, clamped to the sequence. */
  ghost function Slice<T>(s: seq<T>, start: int, stop: int): seq<T>
  {
    var lo := if start < 0 then |s| + start else start;
    var hi := if stop < 0 then |s| + stop else stop;
    var lo' := if lo < 0 then 0 else lo;
    var hi' := if hi >= |s| then |s| - 1 else hi;
    if lo' <= hi' then s[lo'..hi' + 1] else []
  }

  /** The slice has just the positions from the one end to the other, in order. */
  lemma SliceMeans<T>(s: seq<T>, start: int, stop: int) returns (lo: nat, hi: nat)
    ensures lo <= hi <= |s| && Slice(s, start, stop) == s[lo..hi]
    ensures forall p {:trigger s[p]} :: 0 <= p < |s| ==> (
      lo <= p < hi <==> (if start < 0 then |s| + start else start) <= p <= (if stop < 0 then |s| + stop else stop))
  {
    var a, b := if start < 0 then |s| + start else start, if stop < 0 then |s| + stop else stop;
    lo, hi := if a < 0 then 0 else a, if b >= |s| then |s| else if b < 0 then 0 else b + 1;
    if lo >= hi {
      lo, hi := 0, 0;
    }
  }

  lemma SliceAt<T>(s: seq<T>, start: int, stop: int, lo: nat, hi: int)
    requires var from := if start < 0 then |s| + start else start; lo == if from < 0 then 0 else from
    requires var to := if stop < 0 then |s| + stop else stop; hi == if to >= |s| then |s| - 1 else to
    ensures Slice(s, start, stop) == if lo <= hi then s[lo..hi + 1] else []
  {
  }
}
