/** The expiration heap: a binary heap of entries, each caching its own slot, as the library's heap algorithms work it. */
module ExpirationHeaps {
  import opened Ordering

  class Entry {
    const key: Bytes
    const expiresAt: int
    var index: int

    constructor (key: Bytes, expiresAt: int)
      ensures this.key == key && this.expiresAt == expiresAt && index == 0
    {
      this.key, this.expiresAt, index := key, expiresAt, 0;
    }
  }

  function Parent(i: int): int
    requires i >= 1
  {
    (i - 1) / 2
  }

  // ----- heap order on the first `n` slots -----

  ghost predicate InOrder(s: seq<Entry>, i: int)
    requires 1 <= i < |s|
  {
    s[Parent(i)].expiresAt <= s[i].expiresAt
  }

  ghost predicate Ordered(s: seq<Entry>, n: int)
  {
    n <= |s| && forall i :: 1 <= i < n ==> InOrder(s, i)
  }

  /** The parent of `j` is no later than the children of `j`. */
  ghost predicate Bridged(s: seq<Entry>, n: int, j: int)
    requires 0 <= j < n <= |s|
  {
    j >= 1 ==> forall i :: 1 <= i < n && Parent(i) == j ==> s[Parent(j)].expiresAt <= s[i].expiresAt
  }

  /** In order but for slot `j` against its parent: what `up` starts from. */
  ghost predicate OrderedBut(s: seq<Entry>, n: int, j: int)
    requires 0 <= j < n
  {
    n <= |s| && Bridged(s, n, j) && forall i :: 1 <= i < n && i != j ==> InOrder(s, i)
  }

  /** In order but for slot `i` against its children, and slot `i0` against its parent while `i` has not moved:
      what `down`, started at `i0`, keeps. */
  ghost predicate OrderedAround(s: seq<Entry>, n: int, i0: int, i: int)
    requires 0 <= i0 <= i < n
  {
    && n <= |s| && Bridged(s, n, i)
    && forall k :: 1 <= k < n && Parent(k) != i && !(k == i0 == i) ==> InOrder(s, k)
  }

  /** The first entry expires first. */
  lemma {:induction false} RootIsFirst(s: seq<Entry>, n: nat, i: nat)
    requires Ordered(s, n) && i < n
    ensures s[0].expiresAt <= s[i].expiresAt
  {
    if i > 0 {
      assert InOrder(s, i);
      RootIsFirst(s, n, Parent(i));
    }
  }

  ghost function Swapped(s: seq<Entry>, i: int, j: int): seq<Entry>
    requires 0 <= i < |s| && 0 <= j < |s|
  {
    s[i := s[j]][j := s[i]]
  }

  lemma UpStep(s: seq<Entry>, n: int, j: int)
    requires 1 <= j < n && OrderedBut(s, n, j) && s[j].expiresAt < s[Parent(j)].expiresAt
    ensures OrderedBut(Swapped(s, Parent(j), j), n, Parent(j))
  {
    var i := Parent(j);
    var t := Swapped(s, i, j);
    forall k | 1 <= k < n && k != i ensures InOrder(t, k) {
      if k != j {
        assert InOrder(s, k);
      }
      if Parent(k) == j {
        assert s[Parent(j)].expiresAt <= s[k].expiresAt;
      }
    }
    if i >= 1 {
      assert InOrder(s, i);
      forall k | 1 <= k < n && Parent(k) == i ensures t[Parent(i)].expiresAt <= t[k].expiresAt {
        if k != j {
          assert InOrder(s, k);
        }
      }
    }
  }

  lemma DownStep(s: seq<Entry>, n: int, i0: int, i: int, j: int)
    requires 0 <= i0 <= i < j < n && Parent(j) == i && OrderedAround(s, n, i0, i)
    requires s[j].expiresAt < s[i].expiresAt
    requires forall k :: 1 <= k < n && Parent(k) == i ==> s[j].expiresAt <= s[k].expiresAt
    ensures OrderedAround(Swapped(s, i, j), n, i0, j)
  {
    var t := Swapped(s, i, j);
    forall k | 1 <= k < n && Parent(k) != j ensures InOrder(t, k) {
      if Parent(k) != i && k != i {
        assert InOrder(s, k);
      }
    }
    forall k | 1 <= k < n && Parent(k) == j ensures t[Parent(j)].expiresAt <= t[k].expiresAt {
      assert InOrder(s, k);
    }
  }

  ghost predicate ChildrenInOrder(s: seq<Entry>, n: int, i: int)
    requires n <= |s|
  {
    forall k :: 1 <= k < n && Parent(k) == i ==> InOrder(s, k)
  }

  lemma DownEnds(s: seq<Entry>, n: int, i0: int, i: int)
    requires 0 <= i0 <= i < n && OrderedAround(s, n, i0, i) && ChildrenInOrder(s, n, i)
    ensures if i > i0 then Ordered(s, n) else OrderedBut(s, n, i0)
  {
    forall k | 1 <= k < n && !(k == i0 == i) ensures InOrder(s, k) {
    }
  }

  /** With the last entry moved into slot `i`, only that slot can be out of order. */
  lemma LastMoved(s: seq<Entry>, i: int)
    requires 0 <= i < |s| - 1 && Ordered(s, |s|)
    ensures OrderedAround(Swapped(s, i, |s| - 1), |s| - 1, i, i)
  {
    var n, t := |s| - 1, Swapped(s, i, |s| - 1);
    forall k | 1 <= k < n && Parent(k) != i && k != i ensures InOrder(t, k) {
      assert InOrder(s, k);
    }
    if i >= 1 {
      assert InOrder(s, i);
      forall k | 1 <= k < n && Parent(k) == i ensures t[Parent(i)].expiresAt <= t[k].expiresAt {
        assert InOrder(s, k);
      }
    }
  }

  ghost predicate SameEntries(s: seq<Entry>, t: seq<Entry>)
  {
    |s| == |t| && (forall e :: e in s ==> e in t) && forall e :: e in t ==> e in s
  }

  lemma SwapKeepsEntries(s: seq<Entry>, i: int, j: int)
    requires 0 <= i < |s| && 0 <= j < |s|
    ensures SameEntries(Swapped(s, i, j), s)
  {
    var t := Swapped(s, i, j);
    forall e ensures e in t <==> e in s {
      if e in s {
        var k :| 0 <= k < |s| && s[k] == e;
        assert t[if k == i then j else if k == j then i else k] == e;
      }
    }
  }

  lemma OrderedPrefix(s: seq<Entry>, n: nat)
    requires Ordered(s, n)
    ensures Ordered(s[..n], n)
  {
    forall i | 1 <= i < n ensures InOrder(s[..n], i) {
      assert InOrder(s, i);
    }
  }

  lemma OrderedShorter(s: seq<Entry>)
    requires Ordered(s, |s|)
    ensures Ordered(s, |s| - 1)
  {
  }

  lemma SwappedLast(s: seq<Entry>, i: int)
    requires 0 <= i < |s|
    ensures Swapped(s, i, |s| - 1)[|s| - 1] == s[i]
  {
  }

  lemma AllButLast(s: seq<Entry>)
    requires s != [] && forall i :: 0 <= i < |s| - 1 ==> s[i] != s[|s| - 1]
    ensures forall e :: e in s ==> (e in s[..|s| - 1] <==> e != s[|s| - 1])
  {
    forall e | e in s && e != s[|s| - 1] ensures e in s[..|s| - 1] {
      var i :| 0 <= i < |s| && s[i] == e;
      assert s[..|s| - 1][i] == e;
    }
  }

  class ExpirationHeap {
    var items: seq<Entry>

    /** Every entry knows its slot, so no entry is in two slots. */
    ghost predicate Slots()
      reads this, items
    {
      forall i :: 0 <= i < |items| ==> items[i].index == i
    }

    ghost predicate Valid()
      reads this, items
    {
      Slots() && Ordered(items, |items|)
    }

    constructor ()
      ensures Valid() && items == []
    {
      items := [];
    }

    method Less(i: nat, j: nat) returns (less: bool)
      requires i < |items| && j < |items|
      ensures less <==> items[i].expiresAt < items[j].expiresAt
    {
      less := items[i].expiresAt < items[j].expiresAt;
    }

    method Swap(i: nat, j: nat)
      requires Slots() && i < |items| && j < |items|
      modifies this, items
      ensures Slots() && items == Swapped(old(items), i, j)
      ensures SameEntries(items, old(items)) && forall k :: 0 <= k < |items| ==> items[k] in old(items)
    {
      SwapKeepsEntries(items, i, j);
      items := items[i := items[j]][j := items[i]];
      items[i].index := i;
      items[j].index := j;
    }

    /** Appends. */
    method Push(entry: Entry)
      requires Slots() && entry !in items
      modifies this, entry
      ensures Slots() && items == old(items) + [entry]
    {
      entry.index := |items|;
      items := items + [entry];
    }

    /** Removes the last entry. */
    method Pop() returns (entry: Entry)
      requires Slots() && items != []
      modifies this, items
      ensures Slots() && items == old(items)[..|old(items)| - 1] && entry == old(items)[|old(items)| - 1]
    {
      var n := |items|;
      entry := items[n - 1];
      entry.index := -1;
      items := items[..n - 1];
    }

    method Up(start: nat, ghost n: nat)
      requires Slots() && start < n <= |items| && OrderedBut(items, n, start)
      modifies this, items
      ensures Slots() && SameEntries(items, old(items)) && (forall k :: n <= k < |items| ==> items[k] == old(items)[k])
      ensures forall k :: 0 <= k < |items| ==> items[k] in old(items)
      ensures Ordered(items, n)
    {
      var j := start;
      while j > 0
        invariant 0 <= j < n <= |items| && Slots() && SameEntries(items, old(items))
        invariant forall k :: n <= k < |items| ==> items[k] == old(items)[k]
        invariant forall k :: 0 <= k < |items| ==> items[k] in old(items)
        invariant OrderedBut(items, n, j)
      {
        var less := Less(j, (j - 1) / 2);
        if !less {
          assert InOrder(items, j);
          return;
        }
        UpStep(items, n, j);
        Swap((j - 1) / 2, j);
        j := (j - 1) / 2;
      }
    }

    /** `down` goes on with the child that expires first. */
    method EarlierChild(i: nat, n: nat) returns (j: nat)
      requires 2 * i + 1 < n <= |items|
      ensures i < j < n && Parent(j) == i
      ensures forall k :: 1 <= k < n && Parent(k) == i ==> items[j].expiresAt <= items[k].expiresAt
    {
      j := 2 * i + 1;
      if j + 1 < n {
        var right := Less(j + 1, j);
        if right {
          j := j + 1;
        }
      }
    }

    /** Moves the entry at `start` down among the first `n` slots; says whether it moved. */
    method Down(start: nat, n: nat) returns (moved: bool)
      requires Slots() && start < n <= |items| && OrderedAround(items, n, start, start)
      modifies this, items
      ensures Slots() && SameEntries(items, old(items)) && (forall k :: n <= k < |items| ==> items[k] == old(items)[k])
      ensures forall k :: 0 <= k < |items| ==> items[k] in old(items)
      ensures if moved then Ordered(items, n) else OrderedBut(items, n, start)
    {
      var i := start;
      while 2 * i + 1 < n
        invariant start <= i < n <= |items| && Slots() && SameEntries(items, old(items))
        invariant forall k :: n <= k < |items| ==> items[k] == old(items)[k]
        invariant forall k :: 0 <= k < |items| ==> items[k] in old(items)
        invariant OrderedAround(items, n, start, i)
      {
        var j := EarlierChild(i, n);
        var less := Less(j, i);
        if !less {
          assert ChildrenInOrder(items, n, i);
          break;
        }
        DownStep(items, n, start, i, j);
        Swap(i, j);
        i := j;
      }
      DownEnds(items, n, start, i);
      moved := i > start;
    }

    /** The library's `heap.Push`. */
    method HeapPush(entry: Entry)
      requires Valid() && entry !in items
      modifies this, items, entry
      ensures Valid() && SameEntries(items, old(items) + [entry])
      ensures forall k :: 0 <= k < |items| ==> items[k] in old(items) || items[k] == entry
    {
      Push(entry);
      forall i | 1 <= i < |items| - 1 ensures InOrder(items, i) {
        assert InOrder(old(items), i);
      }
      Up(|items| - 1, |items|);
    }

    /** Brings the entry of slot `i` to the end and the rest back in order: `heap.Remove` up to its `Pop`. */
    method MoveToEnd(i: nat)
      requires Valid() && i < |items|
      modifies this, items
      ensures Slots() && SameEntries(items, old(items)) && items[|items| - 1] == old(items)[i]
      ensures forall k :: 0 <= k < |items| ==> items[k] in old(items)
      ensures Ordered(items, |items| - 1)
    {
      hide Ordered, OrderedBut, OrderedAround, Swapped;
      var n := |items| - 1;
      if n == i {
        OrderedShorter(items);
        return;
      }
      LastMoved(items, i);
      SwappedLast(items, i);
      Swap(i, n);
      var moved := Down(i, n);
      if !moved {
        Up(i, n);
      }
    }

    /** The library's `heap.Remove`. */
    method HeapRemove(i: nat) returns (entry: Entry)
      requires Valid() && i < |items|
      modifies this, items
      ensures Valid() && entry == old(items)[i]
      ensures forall e :: e in items <==> e in old(items) && e != entry
      ensures forall k :: 0 <= k < |items| ==> items[k] in old(items)
    {
      MoveToEnd(i);
      AllButLast(items);
      OrderedPrefix(items, |items| - 1);
      entry := Pop();
    }
  }
}
