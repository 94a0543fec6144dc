/** The order the sorted sets are kept in: by score, then by member compared byte by byte. */
module Ordering {

  type Byte = x: int | 0 <= x < 256
  type Bytes = seq<Byte>

  /** Scores are taken from a total order with an addition; NaN and rounding are left out. */
  type Score = real

  datatype Pair = Pair(score: Score, ele: Bytes)

  /** Go's `<` on strings. */
  predicate LexLess(a: Bytes, b: Bytes)
  {
    b != [] && (a == [] || a[0] < b[0] || (a[0] == b[0] && LexLess(a[1..], b[1..])))
  }

  predicate Less(p: Pair, q: Pair)
  {
    p.score < q.score || (p.score == q.score && LexLess(p.ele, q.ele))
  }

  /** `a` is below `b` just when it is a proper prefix of it, or has the smaller byte where they first differ. */
  lemma {:induction false} LexLessMeans(a: Bytes, b: Bytes)
    ensures LexLess(a, b) <==>
      exists i :: 0 <= i <= |a| && i < |b| && a[..i] == b[..i] && (i == |a| || a[i] < b[i])
  {
    if a != [] && b != [] && a[0] == b[0] {
      var s, t := a[1..], b[1..];
      LexLessMeans(s, t);
      if LexLess(s, t) {
        var j :| 0 <= j <= |s| && j < |t| && s[..j] == t[..j] && (j == |s| || s[j] < t[j]);
        assert a[..j + 1] == [a[0]] + s[..j] && b[..j + 1] == [b[0]] + t[..j];
      }
      if i :| 0 <= i <= |a| && i < |b| && a[..i] == b[..i] && (i == |a| || a[i] < b[i]) {
        assert s[..i - 1] == a[..i][1..] && t[..i - 1] == b[..i][1..];
      }
    } else if LexLess(a, b) {
      assert a[..0] == b[..0];
    } else if i :| 0 <= i <= |a| && i < |b| && a[..i] == b[..i] && (i == |a| || a[i] < b[i]) {
      assert a[..i][0] == b[..i][0];
    }
  }

  /** Lower scores come first, and equal ones in the order of their members. */
  lemma LessMeans(p: Pair, q: Pair)
    ensures Less(p, q) <==> (
      || p.score < q.score
      || (p.score == q.score && exists i ::
            0 <= i <= |p.ele| && i < |q.ele| && p.ele[..i] == q.ele[..i] && (i == |p.ele| || p.ele[i] < q.ele[i])))
  {
    LexLessMeans(p.ele, q.ele);
  }

  lemma {:induction false} LexIrreflexive(a: Bytes)
    ensures !LexLess(a, a)
  {
    if a != [] {
      LexIrreflexive(a[1..]);
    }
  }

  lemma {:induction false} LexTransitive(a: Bytes, b: Bytes, c: Bytes)
    requires LexLess(a, b) && LexLess(b, c)
    ensures LexLess(a, c)
  {
    if a != [] && a[0] == b[0] == c[0] {
      LexTransitive(a[1..], b[1..], c[1..]);
    }
  }

  lemma {:induction false} LexTotal(a: Bytes, b: Bytes)
    ensures LexLess(a, b) || a == b || LexLess(b, a)
  {
    if a != [] && b != [] && a[0] == b[0] {
      LexTotal(a[1..], b[1..]);
      assert a == [a[0]] + a[1..] && b == [b[0]] + b[1..];
    }
  }

  lemma LessTransitive(p: Pair, q: Pair, r: Pair)
    requires Less(p, q) && Less(q, r)
    ensures Less(p, r)
  {
    if p.score == q.score == r.score {
      LexTransitive(p.ele, q.ele, r.ele);
    }
  }

  /** `Less` is a strict total order: exactly one of the three holds. */
  lemma Trichotomy(p: Pair, q: Pair)
    ensures Less(p, q) || p == q || Less(q, p)
    ensures !(Less(p, q) && Less(q, p)) && !Less(p, p)
  {
    LexTotal(p.ele, q.ele);
    LexIrreflexive(p.ele);
    if Less(p, q) && Less(q, p) {
      LexTransitive(p.ele, q.ele, p.ele);
    }
  }

  ghost predicate Sorted(s: seq<Pair>)
  {
    forall i, j :: 0 <= i < j < |s| ==> Less(s[i], s[j])
  }

  /** No member twice. */
  ghost predicate Distinct(s: seq<Pair>)
  {
    forall i, j :: 0 <= i < j < |s| ==> s[i].ele != s[j].ele
  }

  /** The comparisons the walks down the skip list advance on. */
  datatype Cut =
    | Before(p: Pair)          // insert, delete
    | Upto(p: Pair)            // getRank
    | BelowScore(min: Score)   // first in a score range
    | ThroughScore(max: Score) // last in a score range

  predicate Passes(c: Cut, p: Pair)
  {
    match c
    case Before(q) => Less(p, q)
    case Upto(q) => p.score < q.score || (p.score == q.score && (LexLess(p.ele, q.ele) || p.ele == q.ele))
    case BelowScore(min) => p.score < min
    case ThroughScore(max) => p.score <= max
  }

  lemma PassesDownwards(c: Cut, p: Pair, q: Pair)
    requires Less(p, q) && Passes(c, q)
    ensures Passes(c, p)
  {
    if c.Before? || (c.Upto? && q != c.p) {
      LessTransitive(p, q, c.p);
    }
  }

  /** How many pairs of `s` are on the near side of the cut. */
  function Passing(s: seq<Pair>, c: Cut): (n: nat)
    ensures n <= |s|
  {
    if s == [] then 0 else (if Passes(c, s[0]) then 1 else 0) + Passing(s[1..], c)
  }

  /** In a sorted sequence the pairs on the near side are exactly the first `Passing(s, c)`. */
  lemma {:induction false} PassingSplits(s: seq<Pair>, c: Cut, k: nat)
    requires k <= |s|
    requires forall i :: 0 <= i < k ==> Passes(c, s[i])
    requires forall i :: k <= i < |s| ==> !Passes(c, s[i])
    ensures Passing(s, c) == k
  {
    if s != [] {
      PassingSplits(s[1..], c, if k == 0 then 0 else k - 1);
    }
  }

  /** `s` with `p` put in front of the first pair that is not below it. */
  function Inserted(s: seq<Pair>, p: Pair): seq<Pair>
  {
    var k := Passing(s, Before(p));
    s[..k] + [p] + s[k..]
  }

  lemma PassingSorted(s: seq<Pair>, c: Cut)
    requires Sorted(s)
    ensures forall i :: 0 <= i < Passing(s, c) ==> Passes(c, s[i])
    ensures forall i :: Passing(s, c) <= i < |s| ==> !Passes(c, s[i])
  {
    if s != [] {
      PassingSorted(s[1..], c);
      if !Passes(c, s[0]) {
        forall i | 0 <= i < |s| ensures !Passes(c, s[i]) {
          if i > 0 && Passes(c, s[i]) {
            PassesDownwards(c, s[0], s[i]);
          }
        }
        PassingSplits(s, c, 0);
      }
    }
  }

  /** Insertion keeps the order and adds exactly the new pair. */
  lemma InsertedSorted(s: seq<Pair>, p: Pair)
    requires Sorted(s) && p !in s
    ensures Sorted(Inserted(s, p))
    ensures forall q :: q in Inserted(s, p) <==> q in s || q == p
  {
    var k := Passing(s, Before(p));
    PassingSorted(s, Before(p));
    forall i | k <= i < |s| ensures Less(p, s[i]) {
      Trichotomy(p, s[i]);
    }
    assert s == s[..k] + s[k..];
  }

  /** `s` with `p` taken out, if it is there. */
  ghost function Removed(s: seq<Pair>, p: Pair): seq<Pair>
  {
    var k := Passing(s, Before(p));
    if k < |s| && s[k] == p then s[..k] + s[k + 1..] else s
  }

  /** A present pair stands right behind the pairs below it. */
  lemma PresentAt(s: seq<Pair>, p: Pair)
    requires Sorted(s)
    ensures p in s <==> Passing(s, Before(p)) < |s| && s[Passing(s, Before(p))] == p
  {
    var k := Passing(s, Before(p));
    PassingSorted(s, Before(p));
    if p in s {
      var i :| 0 <= i < |s| && s[i] == p;
      Trichotomy(p, p);
    }
  }

  /** The pairs up to and including a present one end with it. */
  lemma PresentLast(s: seq<Pair>, p: Pair)
    requires Sorted(s) && p in s
    ensures Passing(s, Upto(p)) > 0 && s[Passing(s, Upto(p)) - 1] == p
  {
    var i :| 0 <= i < |s| && s[i] == p;
    PassingSorted(s, Upto(p));
    var k := Passing(s, Upto(p));
    Trichotomy(p, if i < k - 1 then s[k - 1] else p);
  }

  lemma WithoutOne(s: seq<Pair>, k: nat)
    requires Sorted(s) && k < |s|
    ensures Sorted(s[..k] + s[k + 1..])
    ensures forall q :: q in s[..k] + s[k + 1..] <==> q in s && q != s[k]
  {
    hide Less;
    var r := s[..k] + s[k + 1..];
    forall q ensures q in r <==> q in s && q != s[k] {
      Trichotomy(q, q);
      if q in r {
        var j :| 0 <= j < |r| && r[j] == q;
        assert s[if j < k then j else j + 1] == q;
      }
      if q in s && q != s[k] {
        var i :| 0 <= i < |s| && s[i] == q;
        assert r[if i < k then i else i - 1] == q;
      }
    }
  }

  /** Removal keeps the order and takes out exactly the pair. */
  lemma RemovedSorted(s: seq<Pair>, p: Pair)
    requires Sorted(s)
    ensures Sorted(Removed(s, p))
    ensures forall q :: q in Removed(s, p) <==> q in s && q != p
  {
    hide Less, Passing, Sorted;
    PresentAt(s, p);
    if p in s {
      WithoutOne(s, Passing(s, Before(p)));
    }
  }

  /** Removing what was just inserted gives the sequence back. */
  lemma RemoveUndoesInsert(s: seq<Pair>, p: Pair)
    requires Sorted(s) && p !in s
    ensures Removed(Inserted(s, p), p) == s
  {
    InsertedSorted(s, p);
    RemovedSorted(Inserted(s, p), p);
    SortedUnique(Removed(Inserted(s, p), p), s);
  }

  /** Two strictly sorted sequences with the same elements are the same sequence. */
  lemma {:induction false} SortedUnique(s: seq<Pair>, t: seq<Pair>)
    requires Sorted(s) && Sorted(t)
    requires forall p :: p in s <==> p in t
    ensures s == t
  {
    assert |s| > 0 ==> s[0] in t;
    assert |t| > 0 ==> t[0] in s;
    if s != [] {
      SortedHead(s, t[0]);
      SortedHead(t, s[0]);
      Trichotomy(s[0], t[0]);
      forall p ensures p in s[1..] <==> p in t[1..] {
        SortedTail(s, p);
        SortedTail(t, p);
      }
      SortedUnique(s[1..], t[1..]);
      assert s == [s[0]] + s[1..] && t == [t[0]] + t[1..];
    }
  }

  lemma SortedHead(s: seq<Pair>, p: Pair)
    requires Sorted(s) && p in s
    ensures s[0] == p || Less(s[0], p)
  {
    var i :| 0 <= i < |s| && s[i] == p;
  }

  lemma SortedTail(s: seq<Pair>, p: Pair)
    requires Sorted(s) && s != []
    ensures p in s[1..] <==> p in s && p != s[0]
  {
    if p in s && p != s[0] {
      var i :| 0 <= i < |s| && s[i] == p;
      assert s[1..][i - 1] == p;
    }
    if p in s[1..] {
      var i :| 0 <= i < |s[1..]| && s[1..][i] == p;
      Trichotomy(s[0], s[i + 1]);
    }
  }
}
