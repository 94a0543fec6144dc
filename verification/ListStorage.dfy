/** The list engine: lists by key, each command's effect, its log record and its replay. */
module ListStorage {
  import opened Ordering
  import opened Collections
  import Decimal

  // ----- what the operations mean on one list -----

  function Occurrences<T(==)>(s: seq<T>, x: T): nat
  {
    if s == [] then 0 else (if s[0] == x then 1 else 0) + Occurrences(s[1..], x)
  }

  /** `s` without the first `n` occurrences of `x`. */
  function RemoveFirst<T(==)>(s: seq<T>, n: nat, x: T): seq<T>
  {
    if s == [] || n == 0 then s
    else if s[0] == x then RemoveFirst(s[1..], n - 1, x)
    else [s[0]] + RemoveFirst(s[1..], n, x)
  }

  /** `s` without the last `n` occurrences of `x`. */
  function RemoveLast<T(==)>(s: seq<T>, n: nat, x: T): seq<T>
  {
    if s == [] || n == 0 then s
    else
      var front, last := s[..|s| - 1], s[|s| - 1];
      if last == x then RemoveLast(front, n - 1, x) else RemoveLast(front, n, x) + [last]
  }

  /** LREM's count: positive from the left, negative from the right, zero for all. */
  function Remaining<T(==)>(s: seq<T>, count: int, x: T): seq<T>
  {
    if count > 0 then RemoveFirst(s, count, x)
    else if count < 0 then RemoveLast(s, FromRight(count), x)
    else RemoveFirst(s, |s|, x)
  }

  /** How many elements a negative count asks for; its negation is a 64-bit one. */
  function FromRight(count: int): nat
  {
    var limit := Decimal.Wrap64(-count);
    if limit < 0 then 0 else limit
  }

  function Others<T(==)>(s: seq<T>, x: T): seq<T>
  {
    if s == [] then [] else (if s[0] == x then [] else [s[0]]) + Others(s[1..], x)
  }

  function Least(a: int, b: int): int
  {
    if a <= b then a else b
  }

  /** How far from the left a removal of `n` occurrences looks. */
  function Reach<T(==)>(s: seq<T>, n: nat, x: T): (p: nat)
    ensures p <= |s|
  {
    if s == [] || n == 0 then 0 else 1 + Reach(s[1..], if s[0] == x then n - 1 else n, x)
  }

  /** Removal from the left takes exactly min(n, occurrences) elements, all equal to `x`, and keeps the order of
      the others. */
  lemma {:induction false} RemoveFirstIsExact<T>(s: seq<T>, n: nat, x: T)
    ensures var r := RemoveFirst(s, n, x);
      && |s| - |r| == Least(n, Occurrences(s, x))
      && Occurrences(r, x) == Occurrences(s, x) - Least(n, Occurrences(s, x))
      && Others(r, x) == Others(s, x)
  {
    if s != [] && n > 0 {
      RemoveFirstIsExact(s[1..], if s[0] == x then n - 1 else n, x);
      var rest := RemoveFirst(s[1..], n, x);
      assert s[0] != x ==> RemoveFirst(s, n, x) == [s[0]] + rest && ([s[0]] + rest)[1..] == rest;
    }
  }

  /** It takes the first ones: all occurrences up to its reach, and none behind it. */
  lemma {:induction false} RemoveFirstIsFirst<T>(s: seq<T>, n: nat, x: T)
    ensures var p := Reach(s, n, x);
      && RemoveFirst(s, n, x) == Others(s[..p], x) + s[p..]
      && Occurrences(s[..p], x) == Least(n, Occurrences(s, x))
  {
    var p := Reach(s, n, x);
    if s != [] && n > 0 {
      RemoveFirstIsFirst(s[1..], if s[0] == x then n - 1 else n, x);
      assert s[..p][1..] == s[1..][..p - 1] && s[1..][p - 1..] == s[p..];
    }
  }

  /** Removal from the right is removal from the left of the reversed list. */
  lemma {:induction false} RemoveLastMirrors<T>(s: seq<T>, n: nat, x: T)
    ensures RemoveLast(s, n, x) == Reversed(RemoveFirst(Reversed(s), n, x))
  {
    if s == [] || n == 0 {
      assert Reversed(Reversed(s)) == s;
    } else {
      var front, last := s[..|s| - 1], s[|s| - 1];
      assert Reversed(s)[0] == last && Reversed(s)[1..] == Reversed(front);
      RemoveLastMirrors(front, if last == x then n - 1 else n, x);
      if last != x {
        var r := RemoveFirst(Reversed(front), n, x);
        assert Reversed([last] + r) == Reversed(r) + [last];
      }
    }
  }

  /** What is meant by the others: they keep their order. */
  lemma {:induction false} OthersMean<T>(s: seq<T>, t: seq<T>, x: T)
    ensures Others(s + t, x) == Others(s, x) + Others(t, x)
    ensures forall y :: Others([y], x) == if y == x then [] else [y]
  {
    if s == [] {
      assert s + t == t && Others(s, x) + Others(t, x) == Others(t, x);
    } else {
      var first := if s[0] == x then [] else [s[0]];
      OthersMean(s[1..], t, x);
      assert (s + t)[1..] == s[1..] + t;
      Concat(first, Others(s[1..], x), Others(t, x));
    }
    forall y ensures Others([y], x) == if y == x then [] else [y] {
      assert [y][1..] == [];
    }
  }

  /** What is meant by the occurrences. */
  lemma {:induction false} OccurrencesMean<T>(s: seq<T>, x: T)
    ensures Occurrences(s, x) == multiset(s)[x]
  {
    if s != [] {
      OccurrencesMean(s[1..], x);
      assert s == [s[0]] + s[1..];
    }
  }

  lemma {:induction false} OthersReversed<T>(s: seq<T>, x: T)
    ensures Others(Reversed(s), x) == Reversed(Others(s, x))
  {
    hide Others;
    NoOthers(x);
    if s == [] {
      assert Reversed(s) == [];
    } else {
      var rest := s[1..];
      OthersReversed(rest, x);
      OthersMean(Reversed(rest), [s[0]], x);
      OthersMean([s[0]], rest, x);
      assert Reversed(s) == Reversed(rest) + [s[0]] && s == [s[0]] + rest;
      var first := Others([s[0]], x);
      assert Reversed(first + Others(rest, x)) == Reversed(Others(rest, x)) + first;
    }
  }

  lemma NoOthers<T>(x: T)
    ensures Others([], x) == [] && Reversed<T>([]) == []
  {
  }

  lemma ReversedMultiset<T>(s: seq<T>)
    ensures multiset(Reversed(s)) == multiset(s)
  {
    if s != [] {
      ReversedMultiset(s[1..]);
      assert Reversed(s) == Reversed(s[1..]) + [s[0]] && s == [s[0]] + s[1..];
    }
  }

  /** Where LREM divides the list: before it, or behind it, no occurrence is left. */
  lemma RemainingSplits<T>(s: seq<T>, count: int, x: T) returns (p: nat)
    requires -Decimal.TWO63 < count
    ensures var rest := Remaining(s, count, x);
      && p <= |s|
      && (count > 0 ==> rest == Others(s[..p], x) + s[p..] && multiset(s[..p])[x] == Least(count, multiset(s)[x]))
      && (count < 0 ==> rest == s[..p] + Others(s[p..], x) && multiset(s[p..])[x] == Least(-count, multiset(s)[x]))
      && (count == 0 ==> rest == Others(s, x))
  {
    hide Others, Occurrences, RemoveFirst, RemoveLast, Reach, FromRight;
    if count >= 0 {
      p := FirstSplits(s, if count > 0 then count else |s|, x);
      if count == 0 {
        AllGone(s, p, x);
      }
    } else {
      MostNegativeCountRemovesNothing(s, x);
      p := LastSplits(s, -count, x);
    }
  }

  lemma FirstSplits<T>(s: seq<T>, n: nat, x: T) returns (p: nat)
    ensures p <= |s| && RemoveFirst(s, n, x) == Others(s[..p], x) + s[p..]
    ensures multiset(s[..p])[x] == Least(n, multiset(s)[x])
  {
    hide Others, Occurrences, RemoveFirst, Reach;
    p := Reach(s, n, x);
    RemoveFirstIsFirst(s, n, x);
    OccurrencesMean(s, x);
    OccurrencesMean(s[..p], x);
  }

  lemma LastSplits<T>(s: seq<T>, n: nat, x: T) returns (p: nat)
    ensures p <= |s| && RemoveLast(s, n, x) == s[..p] + Others(s[p..], x)
    ensures multiset(s[p..])[x] == Least(n, multiset(s)[x])
  {
    hide Others, Occurrences, RemoveFirst, RemoveLast, Reach;
    var t := Reversed(s);
    var q := FirstSplits(t, n, x);
    p := |s| - q;
    RemoveLastMirrors(s, n, x);
    ReversedMultiset(s);
    ReversedMultiset(s[p..]);
    OthersReversed(s[p..], x);
    assert t[..q] == Reversed(s[p..]) && t[q..] == Reversed(s[..p]);
    var gone := Others(s[p..], x);
    assert Reversed(Reversed(gone) + Reversed(s[..p])) == s[..p] + gone;
  }

  lemma AllGone<T>(s: seq<T>, p: nat, x: T)
    requires p <= |s| && multiset(s[..p])[x] == Least(|s|, multiset(s)[x])
    ensures Others(s[..p], x) + s[p..] == Others(s, x)
  {
    assert s == s[..p] + s[p..];
    OthersMean(s[..p], s[p..], x);
    assert multiset(s)[x] <= |s| by { CountAtMost(s, x); }
    assert multiset(s[p..])[x] == 0;
    OthersAbsent(s[p..], x);
  }

  lemma {:induction false} CountAtMost<T>(s: seq<T>, x: T)
    ensures multiset(s)[x] <= |s|
  {
    if s != [] {
      CountAtMost(s[1..], x);
      assert s == [s[0]] + s[1..];
    }
  }

  lemma {:induction false} OthersAbsent<T>(s: seq<T>, x: T)
    requires x !in multiset(s)
    ensures Others(s, x) == s
  {
    if s != [] {
      assert s == [s[0]] + s[1..];
      OthersAbsent(s[1..], x);
    }
  }

  /** The most negative count has no 64-bit negation: it removes nothing. */
  lemma MostNegativeCountRemovesNothing<T>(s: seq<T>, x: T)
    ensures Remaining(s, -Decimal.TWO63, x) == s
    ensures forall count :: -Decimal.TWO63 < count < 0 ==> FromRight(count) == -count
  {
    assert Decimal.Wrap64(Decimal.TWO63) == -Decimal.TWO63;
  }

  function FirstIndex<T(==)>(s: seq<T>, x: T): (i: Option<nat>)
    ensures i.None? <==> x !in s
    ensures i.Some? ==> i.value < |s| && s[i.value] == x && x !in s[..i.value]
  {
    if s == [] then None
    else if s[0] == x then Some(0)
    else
      var rest := FirstIndex(s[1..], x);
      assert s == [s[0]] + s[1..];
      if rest.None? then None else assert s[..rest.value + 1] == [s[0]] + s[1..][..rest.value]; Some(rest.value + 1)
  }

  function Pushed<T>(s: seq<T>, values: seq<T>, left: bool): seq<T>
  {
    if left then Reversed(values) + s else s + values
  }

  // ----- what the commands mean on all lists -----

  type LState = map<Bytes, seq<Bytes>>

  datatype LRecord =
    | PushRecord(left: bool, key: Bytes, values: seq<Bytes>)
    | PopRecord(left: bool, key: Bytes)
    | MoveRecord(from: Bytes, to: Bytes, srcLeft: bool, dstLeft: bool)
    | ReplaceRecord(key: Bytes, index: int, value: Bytes)
    | InsertRecord(key: Bytes, pivot: Bytes, value: Bytes, before: bool)
    | RemoveRecord(key: Bytes, count: int, value: Bytes)
    | ListDeleteRecord(key: Bytes)

  datatype LCommand =
    | LPush(left: bool, key: Bytes, values: seq<Bytes>)
    | LPop(left: bool, key: Bytes)
    | LMove(from: Bytes, to: Bytes, srcLeft: bool, dstLeft: bool)
    | LSet(key: Bytes, index: int, value: Bytes)
    | LInsert(key: Bytes, pivot: Bytes, value: Bytes, before: bool)
    | LRem(key: Bytes, count: int, value: Bytes)
    | LDelete(key: Bytes)

  datatype LReply = Done | Element(value: Bytes) | Length(n: int) | NoSuchKey

  datatype LOutcome = LOutcome(state: LState, log: seq<LRecord>, reply: LReply)

  function Of(st: LState, key: Bytes): seq<Bytes>
  {
    if key in st then st[key] else []
  }

  /** A list that has become empty is dropped with its key. */
  function Put(st: LState, key: Bytes, s: seq<Bytes>): LState
  {
    if s == [] then st - {key} else st[key := s]
  }

  function End(s: seq<Bytes>, left: bool): Bytes
    requires s != []
  {
    if left then s[0] else s[|s| - 1]
  }

  function Popped(s: seq<Bytes>, left: bool): seq<Bytes>
    requires s != []
  {
    if left then s[1..] else s[..|s| - 1]
  }

  /** The element leaves its list before it enters the other, which may be the same list. */
  function Moved(st: LState, from: Bytes, to: Bytes, srcLeft: bool, dstLeft: bool): LState
    requires Of(st, from) != []
  {
    var x := End(Of(st, from), srcLeft);
    var st' := Put(st, from, Popped(Of(st, from), srcLeft));
    st'[to := if dstLeft then [x] + Of(st', to) else Of(st', to) + [x]]
  }

  function InsertedAt(s: seq<Bytes>, pivot: Bytes, value: Bytes, before: bool): seq<Bytes>
  {
    match FirstIndex(s, pivot)
    case None => s
    case Some(i) => if before then s[..i] + [value] + s[i..] else s[..i + 1] + [value] + s[i + 1..]
  }

  function Exec(st: LState, c: LCommand): LOutcome
  {
    match c
    case LPush(left, key, values) =>
      LOutcome(st[key := Pushed(Of(st, key), values, left)], [PushRecord(left, key, values)], Done)
    case LPop(left, key) =>
      if Of(st, key) == [] then LOutcome(st, [], NoSuchKey)
      else LOutcome(Put(st, key, Popped(st[key], left)), [PopRecord(left, key)], Element(End(st[key], left)))
    case LMove(from, to, srcLeft, dstLeft) =>
      if Of(st, from) == [] then LOutcome(st, [], NoSuchKey)
      else LOutcome(Moved(st, from, to, srcLeft, dstLeft), [MoveRecord(from, to, srcLeft, dstLeft)],
                    Element(End(st[from], srcLeft)))
    case LSet(key, index, value) =>
      var i := if index < 0 then |Of(st, key)| + index else index;
      if key !in st || i < 0 || i >= |st[key]| then LOutcome(st, [], NoSuchKey)
      else LOutcome(st[key := st[key][i := value]], [ReplaceRecord(key, index, value)], Done)
    case LInsert(key, pivot, value, before) =>
      if key !in st then LOutcome(st, [], Length(0))
      else if pivot !in st[key] then LOutcome(st, [], Length(-1))
      else LOutcome(st[key := InsertedAt(st[key], pivot, value, before)], [InsertRecord(key, pivot, value, before)],
                    Length(|st[key]| + 1))
    case LRem(key, count, value) =>
      if key !in st then LOutcome(st, [], Length(0))
      else
        var rest := Remaining(st[key], count, value);
        LOutcome(Put(st, key, rest), if |rest| < |st[key]| then [RemoveRecord(key, count, value)] else [],
                 Length(|st[key]| - |rest|))
    case LDelete(key) => LOutcome(st - {key}, [ListDeleteRecord(key)], Done)
  }

  /** What replaying one record does; `None` where the source follows a nil pointer. */
  function Apply(st: LState, r: LRecord): Option<LState>
  {
    match r
    case PushRecord(left, key, values) => Some(st[key := Pushed(Of(st, key), values, left)])
    case PopRecord(left, key) => if Of(st, key) == [] then None else Some(Put(st, key, Popped(st[key], left)))
    case MoveRecord(from, to, srcLeft, dstLeft) =>
      if Of(st, from) == [] then None else Some(Moved(st, from, to, srcLeft, dstLeft))
    case ReplaceRecord(key, index, value) =>
      if key !in st then None
      else Some(if 0 <= index < |st[key]| then st[key := st[key][index := value]] else st)
    case InsertRecord(key, pivot, value, before) =>
      if key !in st then None else Some(st[key := InsertedAt(st[key], pivot, value, before)])
    case RemoveRecord(key, count, value) =>
      if key !in st then None else Some(Put(st, key, Remaining(st[key], count, value)))
    case ListDeleteRecord(key) => Some(st - {key})
  }

  function Replay(st: LState, log: seq<LRecord>): Option<LState>
  {
    if log == [] then Some(st)
    else
      var before := Replay(st, log[..|log| - 1]);
      if before.None? then None else Apply(before.value, log[|log| - 1])
  }

  ghost predicate NoEmpty(st: LState)
  {
    forall key :: key in st ==> st[key] != []
  }

  /** A move between two lists keeps every element, and the other lists. */
  lemma MoveConserves(st: LState, from: Bytes, to: Bytes, srcLeft: bool, dstLeft: bool)
    requires Of(st, from) != [] && from != to
    ensures var st' := Moved(st, from, to, srcLeft, dstLeft);
      && (forall k :: k != from && k != to ==> Of(st', k) == Of(st, k))
      && multiset(Of(st', from)) + multiset(Of(st', to)) == multiset(Of(st, from)) + multiset(Of(st, to))
  {
    hide Moved, Popped, End, Put;
    var s, st' := st[from], Moved(st, from, to, srcLeft, dstLeft);
    MovedLists(st, from, to, srcLeft, dstLeft);
    MultisetOfMove(s, Popped(s, srcLeft), End(s, srcLeft), Of(st, to), srcLeft, dstLeft);
  }

  lemma MovedLists(st: LState, from: Bytes, to: Bytes, srcLeft: bool, dstLeft: bool)
    requires Of(st, from) != [] && from != to
    ensures var s, st' := st[from], Moved(st, from, to, srcLeft, dstLeft);
      && (forall k :: k != from && k != to ==> Of(st', k) == Of(st, k))
      && Of(st', from) == Popped(s, srcLeft)
      && Of(st', to) == (if dstLeft then [End(s, srcLeft)] + Of(st, to) else Of(st, to) + [End(s, srcLeft)])
      && s == (if srcLeft then [End(s, srcLeft)] + Popped(s, srcLeft) else Popped(s, srcLeft) + [End(s, srcLeft)])
  {
    assert Of(Put(st, from, Popped(st[from], srcLeft)), to) == Of(st, to);
  }

  /** A move within one list rotates it when it goes from one end to the other, and otherwise changes nothing. */
  lemma MoveRotates(st: LState, key: Bytes, srcLeft: bool, dstLeft: bool)
    requires Of(st, key) != []
    ensures var s, st' := st[key], Moved(st, key, key, srcLeft, dstLeft);
      && (forall k :: k != key ==> Of(st', k) == Of(st, k))
      && Of(st', key) == if srcLeft == dstLeft then s else if srcLeft then s[1..] + s[..1]
                         else s[|s| - 1..] + s[..|s| - 1]
  {
    var s := st[key];
    assert Of(Put(st, key, Popped(s, srcLeft)), key) == Popped(s, srcLeft);
  }

  lemma MultisetOfMove<T>(s: seq<T>, rest: seq<T>, x: T, other: seq<T>, srcLeft: bool, dstLeft: bool)
    requires s == if srcLeft then [x] + rest else rest + [x]
    ensures multiset(rest) + multiset(if dstLeft then [x] + other else other + [x]) == multiset(s) + multiset(other)
  {
    assert multiset(s) == multiset(rest) + multiset{x};
  }

  lemma {:induction false} ReplayOne(st: LState, r: LRecord)
    ensures Replay(st, [r]) == Apply(st, r)
  {
    assert Replay(st, []) == Some(st);
  }

  lemma {:induction false} RemovedNothing<T>(s: seq<T>, count: int, x: T)
    ensures |Remaining(s, count, x)| <= |s|
    ensures |Remaining(s, count, x)| == |s| ==> Remaining(s, count, x) == s
  {
    var n := if count > 0 then count else if count < 0 then FromRight(count) else |s|;
    var t := if count < 0 then Reversed(s) else s;
    RemoveFirstShrinks(t, n, x);
    if count < 0 {
      RemoveLastMirrors(s, n, x);
      assert Reversed(Reversed(s)) == s;
    }
  }

  lemma {:induction false} RemoveFirstShrinks<T>(s: seq<T>, n: nat, x: T)
    ensures |RemoveFirst(s, n, x)| <= |s|
    ensures |RemoveFirst(s, n, x)| == |s| ==> RemoveFirst(s, n, x) == s
  {
    if s != [] && n > 0 {
      RemoveFirstShrinks(s[1..], if s[0] == x then n - 1 else n, x);
    }
  }

  /** Replaying what a command logged gives the state the command left, and meets no nil pointer,
      when no list is empty and LSET is given an index counted from the left. */
  lemma {:induction false} ReplayMatches(st: LState, c: LCommand)
    requires NoEmpty(st) && (c.LSet? ==> c.index >= 0)
    ensures Replay(st, Exec(st, c).log) == Some(Exec(st, c).state)
  {
    var o := Exec(st, c);
    if |o.log| == 1 {
      ReplayOne(st, o.log[0]);
    } else {
      assert Replay(st, []) == Some(st);
      if c.LRem? && c.key in st {
        RemovedNothing(st[c.key], c.count, c.value);
        PutBack(st, c.key);
      }
    }
  }

  /** LSET logs the index it was given, and replay never resolves it: the replay is exact just when the index
      counts from the left, or LSET failed, or it wrote what was there. */
  lemma LSetReplayExactly(st: LState, key: Bytes, index: int, value: Bytes)
    ensures var o := Exec(st, LSet(key, index, value));
      Replay(st, o.log) == Some(o.state) <==>
        index >= 0 || key !in st || |st[key]| + index < 0 || st[key][|st[key]| + index] == value
  {
    var o := Exec(st, LSet(key, index, value));
    if o.log == [] {
      assert Replay(st, []) == Some(st);
    } else {
      ReplayOne(st, o.log[0]);
      if index < 0 {
        var i := |st[key]| + index;
        assert o.state[key][i] == value;
        if st[key][i] == value {
          assert st[key][i := value] == st[key];
          PutBack(st, key);
        }
      }
    }
  }

  lemma LSetReplayLosesNegativeIndex()
    ensures var st := map[[1] := [[5], [6]]];
      var o := Exec(st, LSet([1], -1, [7]));
      o.state == map[[1] := [[5], [7]]] && Replay(st, o.log) == Some(st)
  {
    var st: LState := map[[1] := [[5], [6]]];
    ReplayOne(st, ReplaceRecord([1], -1, [7]));
    assert st[[1]][1 := [7]] == [[5], [7]];
  }

  lemma LogsOneAtMost(st: LState, c: LCommand)
    ensures |Exec(st, c).log| <= 1
  {
  }

  /** Only a push of no values to an absent key makes an empty list. */
  lemma NoEmptyKept(st: LState, c: LCommand)
    requires NoEmpty(st)
    ensures NoEmpty(Exec(st, c).state) <==> !(c.LPush? && c.values == [] && c.key !in st)
  {
    if c.LPush? {
      assert c.key in Exec(st, c).state;
    }
  }

  class ListStorage {
    var data: LState
    var log: seq<LRecord>

    constructor ()
      ensures data == map[] && log == []
    {
      data, log := map[], [];
    }

    /** The state, the log and the reply are those of the command's meaning. */
    ghost predicate Did(before: LState, logged: seq<LRecord>, c: LCommand, reply: LReply)
      reads this
    {
      LOutcome(data, log, reply) == var o := Exec(before, c); o.(log := logged + o.log)
    }

    /** A list is kept as the sequence of its elements; `PushFront` and `PushBack` one value at a time. */
    method PushNoWal(left: bool, key: Bytes, values: seq<Bytes>)
      modifies this`data
      ensures data == old(data)[key := Pushed(Of(old(data), key), values, left)]
    {
      var lst := Of(data, key);
      ghost var s := lst;
      ghost var before := data;
      var i := 0;
      while i < |values|
        invariant 0 <= i <= |values| && lst == Pushed(s, values[..i], left)
        invariant data == before
      {
        PushedOneMore(s, values, left, i);
        lst := if left then [values[i]] + lst else lst + [values[i]];
        i := i + 1;
      }
      assert values[..i] == values;
      data := data[key := lst];
    }

    method Push(left: bool, key: Bytes, values: seq<Bytes>)
      modifies this
      ensures Did(old(data), old(log), LPush(left, key, values), Done)
    {
      PushNoWal(left, key, values);
      log := log + [PushRecord(left, key, values)];
    }

    method PopNoWal(left: bool, key: Bytes) returns (x: Bytes)
      requires Of(data, key) != []
      modifies this`data
      ensures x == End(old(data)[key], left) && data == Put(old(data), key, Popped(old(data)[key], left))
    {
      var lst := data[key];
      x := if left then lst[0] else lst[|lst| - 1];
      lst := if left then lst[1..] else lst[..|lst| - 1];
      data := if |lst| == 0 then data - {key} else data[key := lst];
    }

    method Pop(left: bool, key: Bytes) returns (reply: LReply)
      modifies this
      ensures Did(old(data), old(log), LPop(left, key), reply)
    {
      if key !in data || |data[key]| == 0 {
        return NoSuchKey;
      }
      var x := PopNoWal(left, key);
      log := log + [PopRecord(left, key)];
      reply := Element(x);
    }

    method MoveNoWal(from: Bytes, to: Bytes, srcLeft: bool, dstLeft: bool) returns (x: Bytes)
      requires Of(data, from) != []
      modifies this`data
      ensures x == End(old(data)[from], srcLeft) && data == Moved(old(data), from, to, srcLeft, dstLeft)
    {
      x := PopNoWal(srcLeft, from);
      var lst := if to in data then data[to] else [];
      lst := if dstLeft then [x] + lst else lst + [x];
      data := data[to := lst];
    }

    method Move(from: Bytes, to: Bytes, srcLeft: bool, dstLeft: bool) returns (reply: LReply)
      modifies this
      ensures Did(old(data), old(log), LMove(from, to, srcLeft, dstLeft), reply)
    {
      if from !in data || |data[from]| == 0 {
        return NoSuchKey;
      }
      var x := MoveNoWal(from, to, srcLeft, dstLeft);
      log := log + [MoveRecord(from, to, srcLeft, dstLeft)];
      reply := Element(x);
    }

    /** Walks to the index; an index the walk does not reach changes nothing. */
    method ReplaceNoWal(key: Bytes, index: int, value: Bytes)
      requires key in data
      modifies this`data
      ensures data == if 0 <= index < |old(data)[key]| then old(data)[key := old(data)[key][index := value]] else old(data)
    {
      var lst := data[key];
      var idx := 0;
      while idx < |lst|
        invariant 0 <= idx <= |lst| && lst == old(data)[key]
        invariant 0 <= index < |lst| ==> idx <= index
      {
        if idx == index {
          lst := lst[idx := value];
          break;
        }
        idx := idx + 1;
      }
      PutBack(data, key);
      data := data[key := lst];
    }

    method ReplaceAtIndex(key: Bytes, index: int, value: Bytes) returns (reply: LReply)
      modifies this
      ensures Did(old(data), old(log), LSet(key, index, value), reply)
    {
      if key !in data {
        return NoSuchKey;
      }
      var resolved := if index < 0 then |data[key]| + index else index;
      if resolved < 0 || resolved >= |data[key]| {
        return NoSuchKey;
      }
      ReplaceNoWal(key, resolved, value);
      log := log + [ReplaceRecord(key, index, value)];
      reply := Done;
    }

    /** The first element equal to `x`. */
    method Find(lst: seq<Bytes>, x: Bytes) returns (index: Option<nat>)
      ensures index == FirstIndex(lst, x)
    {
      var i := 0;
      while i < |lst|
        invariant 0 <= i <= |lst| && x !in lst[..i]
      {
        if lst[i] == x {
          FirstIndexIs(lst, x, i);
          return Some(i);
        }
        i := i + 1;
      }
      index := None;
    }

    method InsertNoWal(key: Bytes, pivot: Bytes, value: Bytes, before: bool) returns (n: int)
      requires key in data
      modifies this`data
      ensures data == old(data)[key := InsertedAt(old(data)[key], pivot, value, before)]
      ensures n == if pivot in old(data)[key] then |old(data)[key]| + 1 else -1
    {
      var lst := data[key];
      var at := Find(lst, pivot);
      if at.None? {
        PutBack(data, key);
        return -1;
      }
      var i := if before then at.value else at.value + 1;
      lst := lst[..i] + [value] + lst[i..];
      data := data[key := lst];
      n := |lst|;
    }

    method Insert(key: Bytes, pivot: Bytes, value: Bytes, before: bool) returns (reply: LReply)
      modifies this
      ensures Did(old(data), old(log), LInsert(key, pivot, value, before), reply)
    {
      if key !in data {
        return Length(0);
      }
      var n := InsertNoWal(key, pivot, value, before);
      if n < 0 {
        PutBack(old(data), key);
        return Length(-1);
      }
      log := log + [InsertRecord(key, pivot, value, before)];
      reply := Length(n);
    }

    /** The walk from the left that removes up to `limit` elements equal to `x`. */
    method RemoveFromLeft(s: seq<Bytes>, limit: nat, x: Bytes) returns (lst: seq<Bytes>, removed: nat)
      ensures lst == RemoveFirst(s, limit, x) && removed == |s| - |lst|
    {
      lst, removed := s, 0;
      var i := 0;
      while i < |lst| && removed < limit
        invariant 0 <= i <= |lst| && removed <= limit && removed == |s| - |lst|
        invariant RemoveFirst(s, limit, x) == lst[..i] + RemoveFirst(lst[i..], limit - removed, x)
        decreases |lst| - i
      {
        RemoveFirstStep(lst, i, limit - removed, x);
        if lst[i] == x {
          lst := lst[..i] + lst[i + 1..];
          removed := removed + 1;
        } else {
          i := i + 1;
        }
      }
      assert lst[..i] + lst[i..] == lst;
    }

    /** The walk from the right. */
    method RemoveFromRight(s: seq<Bytes>, limit: int, x: Bytes) returns (lst: seq<Bytes>, removed: nat)
      ensures lst == RemoveLast(s, if limit < 0 then 0 else limit, x) && removed == |s| - |lst|
    {
      lst, removed := s, 0;
      ghost var n := if limit < 0 then 0 else limit;
      var i := |lst|;
      assert lst[..i] == lst && lst[i..] == [];
      while i > 0 && removed < limit
        invariant 0 <= i <= |lst| && removed <= n && removed == |s| - |lst|
        invariant RemoveLast(s, n, x) == RemoveLast(lst[..i], n - removed, x) + lst[i..]
      {
        RemoveLastStep(lst, i, n - removed, x);
        if lst[i - 1] == x {
          lst := lst[..i - 1] + lst[i..];
          removed := removed + 1;
        }
        i := i - 1;
      }
      assert lst[..i] + lst[i..] == lst;
    }

    method RemoveNoWal(key: Bytes, count: int, x: Bytes) returns (removed: nat)
      requires key in data
      modifies this`data
      ensures data == Put(old(data), key, Remaining(old(data)[key], count, x))
      ensures removed == |old(data)[key]| - |Remaining(old(data)[key], count, x)|
    {
      var lst := data[key];
      if count > 0 {
        lst, removed := RemoveFromLeft(lst, count, x);
      } else if count < 0 {
        lst, removed := RemoveFromRight(lst, Decimal.Wrap64(-count), x);
      } else {
        lst, removed := RemoveFromLeft(lst, |lst|, x);
      }
      data := if |lst| == 0 then data - {key} else data[key := lst];
    }

    method Remove(key: Bytes, count: int, x: Bytes) returns (reply: LReply)
      modifies this
      ensures Did(old(data), old(log), LRem(key, count, x), reply)
    {
      hide Remaining, Put;
      if key !in data {
        return Length(0);
      }
      var removed := RemoveNoWal(key, count, x);
      if removed > 0 {
        log := log + [RemoveRecord(key, count, x)];
      }
      reply := Length(removed);
    }

    method Delete(key: Bytes)
      modifies this
      ensures Did(old(data), old(log), LDelete(key), Done)
    {
      log := log + [ListDeleteRecord(key)];
      data := data - {key};
    }

    /** Collects the elements whose index lies between the resolved ends. */
    method Range(key: Bytes, start: int, stop: int) returns (res: seq<Bytes>)
      ensures res == Slice(Of(data, key), start, stop)
    {
      hide Slice;
      ghost var s := Of(data, key);
      SliceOfEmpty(s, start, stop);
      if key !in data || |data[key]| == 0 {
        return [];
      }
      var lst := data[key];
      var lo := if start < 0 then |lst| + start else start;
      var hi := if stop < 0 then |lst| + stop else stop;
      lo := if lo < 0 then 0 else lo;
      hi := if hi >= |lst| then |lst| - 1 else hi;
      SliceAt(lst, start, stop, lo, hi);
      if lo > hi {
        return [];
      }
      res := [];
      var idx := 0;
      while idx < |lst|
        invariant 0 <= idx <= hi + 1
        invariant res == if idx <= lo then [] else lst[lo..idx]
      {
        if lo <= idx <= hi {
          SliceGrows(lst, lo, idx);
          res := res + [lst[idx]];
        }
        if idx > hi {
          break;
        }
        idx := idx + 1;
      }
    }

    method ProcessWalEntry(r: LRecord)
      requires Apply(data, r).Some?
      modifies this
      ensures Some(data) == Apply(old(data), r) && log == old(log)
    {
      match r {
        case PushRecord(left, key, values) => PushNoWal(left, key, values);
        case PopRecord(left, key) => var x := PopNoWal(left, key);
        case MoveRecord(from, to, srcLeft, dstLeft) => var x := MoveNoWal(from, to, srcLeft, dstLeft);
        case ReplaceRecord(key, index, value) => ReplaceNoWal(key, index, value);
        case InsertRecord(key, pivot, value, before) => var n := InsertNoWal(key, pivot, value, before);
        case RemoveRecord(key, count, value) => var n := RemoveNoWal(key, count, value);
        case ListDeleteRecord(key) => data := data - {key};
      }
    }
  }

  // ----- steps of the loops -----

  lemma PushedOneMore<T>(s: seq<T>, values: seq<T>, left: bool, i: nat)
    requires i < |values|
    ensures Pushed(s, values[..i + 1], left) ==
      if left then [values[i]] + Pushed(s, values[..i], left) else Pushed(s, values[..i], left) + [values[i]]
  {
    hide Reversed;
    ReversedOneMore(values, i);
    assert values[..i + 1] == values[..i] + [values[i]];
    Concat([values[i]], Reversed(values[..i]), s);
    Concat(s, values[..i], [values[i]]);
  }

  lemma ReversedOneMore<T>(s: seq<T>, i: nat)
    requires i < |s|
    ensures Reversed(s[..i + 1]) == [s[i]] + Reversed(s[..i])
  {
    hide Reversed;
  }

  lemma {:induction false} FirstIndexIs<T>(s: seq<T>, x: T, i: nat)
    requires i < |s| && s[i] == x && x !in s[..i]
    ensures FirstIndex(s, x) == Some(i)
  {
    if i > 0 {
      assert s[0] in s[..i];
      assert s[1..][..i - 1] == s[1..i];
      FirstIndexIs(s[1..], x, i - 1);
    }
  }

  lemma RemoveFirstStep<T>(s: seq<T>, i: nat, n: nat, x: T)
    requires i < |s| && n > 0
    ensures var t := s[..i] + s[i + 1..];
      s[i] == x ==> s[..i] + RemoveFirst(s[i..], n, x) == t[..i] + RemoveFirst(t[i..], n - 1, x)
    ensures s[i] != x ==> s[..i] + RemoveFirst(s[i..], n, x) == s[..i + 1] + RemoveFirst(s[i + 1..], n, x)
  {
    assert s[i..][1..] == s[i + 1..];
    assert (s[..i] + s[i + 1..])[i..] == s[i + 1..];
    assert s[..i + 1] == s[..i] + [s[i]];
  }

  lemma RemoveLastStep<T>(s: seq<T>, i: nat, n: nat, x: T)
    requires 0 < i <= |s| && n > 0
    ensures var t := s[..i - 1] + s[i..];
      s[i - 1] == x ==> RemoveLast(s[..i], n, x) + s[i..] == RemoveLast(t[..i - 1], n - 1, x) + t[i - 1..]
    ensures s[i - 1] != x ==> RemoveLast(s[..i], n, x) + s[i..] == RemoveLast(s[..i - 1], n, x) + s[i - 1..]
  {
    assert s[..i][..i - 1] == s[..i - 1];
    assert (s[..i - 1] + s[i..])[..i - 1] == s[..i - 1] && (s[..i - 1] + s[i..])[i - 1..] == s[i..];
    assert s[i - 1..] == [s[i - 1]] + s[i..];
  }

  lemma SliceOfEmpty<T>(s: seq<T>, start: int, stop: int)
    ensures s == [] ==> Slice(s, start, stop) == []
  {
  }
}
