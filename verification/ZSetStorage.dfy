/** The sorted-set engine: sorted sets by key, each command's effect, its log record and its replay. */
module ZSetStorage {
  import opened Ordering
  import opened Collections
  import opened SkipLists
  import opened SortedSets

  // ----- what the engine's commands mean on the map of maps -----

  type Scores = map<Bytes, Score>
  type ZState = map<Bytes, Scores>

  datatype ZRecord =
    | ZAddRecord(key: Bytes, members: seq<Pair>)
    | ZRemRecord(key: Bytes, names: seq<Bytes>)
    | ZPopRecord(highest: bool, key: Bytes, members: seq<Pair>)
    | ZIncrByRecord(key: Bytes, increment: Score, member: Bytes)
    | ZDeleteRecord(key: Bytes)

  datatype ZCommand =
    | ZAdd(key: Bytes, members: seq<Pair>)
    | ZRem(key: Bytes, names: seq<Bytes>)
    | ZIncrBy(key: Bytes, increment: Score, member: Bytes)
    | ZPopMax(key: Bytes, count: int)
    | ZPopMin(key: Bytes, count: int)
    | ZDelete(key: Bytes)

  datatype ZReply = Changed(n: nat) | NewScore(score: Score) | Popped(members: seq<Pair>) | NoSuchKey | Done

  datatype ZOutcome = ZOutcome(state: ZState, log: seq<ZRecord>, reply: ZReply)

  function Of(st: ZState, key: Bytes): Scores
  {
    if key in st then st[key] else map[]
  }

  /** A sorted set that has become empty is dropped with its key. */
  function Dropped(st: ZState, key: Bytes, names: set<Bytes>): ZState
  {
    var rest := Of(st, key) - names;
    if rest == map[] then st - {key} else st[key := rest]
  }

  function Increased(st: ZState, key: Bytes, increment: Score, member: Bytes): ZState
  {
    var d := Of(st, key);
    st[key := d[member := if member in d then d[member] + increment else increment]]
  }

  predicate IsLeast(names: set<Bytes>, m: Bytes)
  {
    m in names && forall n :: n in names ==> n == m || LexLess(m, n)
  }

  lemma {:induction false} OneLeast(names: set<Bytes>)
    ensures names != {} ==> exists m :: IsLeast(names, m)
    ensures forall m, n :: IsLeast(names, m) && IsLeast(names, n) ==> m == n
  {
    forall m, n | IsLeast(names, m) && IsLeast(names, n) && m != n ensures false {
      LexTransitive(m, n, m);
      LexIrreflexive(m);
    }
    if names != {} {
      var x :| x in names;
      OneLeast(names - {x});
      if names - {x} == {} {
        assert forall n :: n in names ==> n == x || n in names - {x};
        assert IsLeast(names, x);
      } else {
        var m :| IsLeast(names - {x}, m);
        LexTotal(x, m);
        if LexLess(m, x) {
          assert IsLeast(names, m);
        } else {
          forall n | n in names && n != x && n != m ensures LexLess(x, n) {
            LexTransitive(x, m, n);
          }
          assert IsLeast(names, x);
        }
      }
    }
  }

  /** The pairs of a map, strictly sorted. */
  function Ranked(d: Scores): (s: seq<Pair>)
    ensures Sorted(s) && Agree(d, s)
  {
    if d == map[] then [] else
      OneLeast(d.Keys);
      var m :| IsLeast(d.Keys, m);
      AgreeInserted(d - {m}, Ranked(d - {m}), Pair(d[m], m));
      InsertedSorted(Ranked(d - {m}), Pair(d[m], m));
      assert (d - {m})[m := d[m]] == d;
      Inserted(Ranked(d - {m}), Pair(d[m], m))
  }

  /** The highest, or the lowest, `count` pairs in popping order. */
  function Extremes(d: Scores, highest: bool, count: int): seq<Pair>
  {
    var s := if highest then Reversed(Ranked(d)) else Ranked(d);
    s[..if count < 0 then 0 else if count <= |s| then count else |s|]
  }

  function PopOutcome(st: ZState, key: Bytes, highest: bool, count: int): ZOutcome
  {
    if Of(st, key) == map[] then ZOutcome(st, [], NoSuchKey)
    else if count <= 0 then ZOutcome(st, [], Popped([]))
    else
      var popped := Extremes(st[key], highest, count);
      ZOutcome(Dropped(st, key, Elements(Members(popped))), [ZPopRecord(highest, key, popped)], Popped(popped))
  }

  function Exec(st: ZState, c: ZCommand): ZOutcome
  {
    match c
    case ZAdd(key, members) =>
      var d := Added(Of(st, key), members);
      ZOutcome(st[key := d], [ZAddRecord(key, members)], Changed(if |d| >= |Of(st, key)| then |d| - |Of(st, key)| else 0))
    case ZRem(key, names) =>
      if key !in st then ZOutcome(st, [], Changed(0))
      else
        var gone := st[key].Keys * Elements(names);
        ZOutcome(Dropped(st, key, Elements(names)), if gone == {} then [] else [ZRemRecord(key, names)], Changed(|gone|))
    case ZIncrBy(key, increment, member) =>
      var st' := Increased(st, key, increment, member);
      ZOutcome(st', [ZIncrByRecord(key, increment, member)], NewScore(st'[key][member]))
    case ZPopMax(key, count) => PopOutcome(st, key, true, count)
    case ZPopMin(key, count) => PopOutcome(st, key, false, count)
    case ZDelete(key) => ZOutcome(st - {key}, [ZDeleteRecord(key)], Done)
  }

  /** What replaying one record does: pops are replayed as removals of the logged members. */
  function Apply(st: ZState, r: ZRecord): ZState
  {
    match r
    case ZAddRecord(key, members) => st[key := Added(Of(st, key), members)]
    case ZRemRecord(key, names) => Dropped(st, key, Elements(names))
    case ZPopRecord(_, key, members) => Dropped(st, key, Elements(Members(members)))
    case ZIncrByRecord(key, increment, member) => Increased(st, key, increment, member)
    case ZDeleteRecord(key) => st - {key}
  }

  function Replay(st: ZState, log: seq<ZRecord>): ZState
  {
    if log == [] then st else Apply(Replay(st, log[..|log| - 1]), log[|log| - 1])
  }

  ghost predicate NoEmpty(st: ZState)
  {
    forall key :: key in st ==> st[key] != map[]
  }

  lemma ExecAdd(st: ZState, key: Bytes, members: seq<Pair>, added: nat)
    requires added == |Added(Of(st, key), members)| - |Of(st, key)|
    ensures Exec(st, ZAdd(key, members)) ==
      ZOutcome(st[key := Added(Of(st, key), members)], [ZAddRecord(key, members)], Changed(added))
  {
  }

  lemma ExecRem(st: ZState, key: Bytes, names: seq<Bytes>, removed: nat)
    requires key in st && removed == |st[key]| - |st[key] - Elements(names)|
    ensures Exec(st, ZRem(key, names)) ==
      ZOutcome(Dropped(st, key, Elements(names)), if removed > 0 then [ZRemRecord(key, names)] else [], Changed(removed))
  {
    MinusCount(st[key], Elements(names));
  }

  lemma ExecPop(st: ZState, key: Bytes, highest: bool, count: int, popped: seq<Pair>)
    requires Of(st, key) != map[] && count > 0 && popped == Extremes(st[key], highest, count)
    ensures Exec(st, if highest then ZPopMax(key, count) else ZPopMin(key, count)) ==
      ZOutcome(Dropped(st, key, Elements(Members(popped))), [ZPopRecord(highest, key, popped)], Popped(popped))
  {
    hide Extremes, Dropped, Elements, Members;
  }

  lemma ExecPopNothing(st: ZState, key: Bytes, highest: bool, count: int)
    ensures var c := if highest then ZPopMax(key, count) else ZPopMin(key, count);
      && (Of(st, key) == map[] ==> Exec(st, c) == ZOutcome(st, [], NoSuchKey))
      && (Of(st, key) != map[] && count <= 0 ==> Exec(st, c) == ZOutcome(st, [], Popped([])))
  {
  }

  lemma ExecOthers(st: ZState, key: Bytes, increment: Score, member: Bytes, names: seq<Bytes>)
    ensures Exec(st, ZDelete(key)) == ZOutcome(st - {key}, [ZDeleteRecord(key)], Done)
    ensures key !in st ==> Exec(st, ZRem(key, names)) == ZOutcome(st, [], Changed(0))
    ensures var st' := Increased(st, key, increment, member);
      && key in st' && member in st'[key]
      && Exec(st, ZIncrBy(key, increment, member)) ==
           ZOutcome(st', [ZIncrByRecord(key, increment, member)], NewScore(st'[key][member]))
  {
  }

  /** Replaying what a command logged gives the state the command left, when no sorted set is empty. */
  lemma {:induction false} ReplayMatches(st: ZState, c: ZCommand)
    requires NoEmpty(st)
    ensures Replay(st, Exec(st, c).log) == Exec(st, c).state
  {
    hide Apply, Dropped, Added, Increased, Extremes, Elements, Members;
    assert Replay(st, []) == st;
    match c {
      case ZAdd(key, members) => AppliedAlike(st, c, ZAddRecord(key, members));
      case ZRem(key, names) => RemReplays(st, key, names);
      case ZIncrBy(key, increment, member) => AppliedAlike(st, c, ZIncrByRecord(key, increment, member));
      case ZPopMax(key, count) => PopReplays(st, key, true, count);
      case ZPopMin(key, count) => PopReplays(st, key, false, count);
      case ZDelete(key) => AppliedAlike(st, c, ZDeleteRecord(key));
    }
  }

  lemma {:induction false} AppliedAlike(st: ZState, c: ZCommand, r: ZRecord)
    requires c.ZAdd? ==> r == ZAddRecord(c.key, c.members)
    requires c.ZIncrBy? ==> r == ZIncrByRecord(c.key, c.increment, c.member)
    requires c.ZDelete? ==> r == ZDeleteRecord(c.key)
    ensures c.ZAdd? || c.ZIncrBy? || c.ZDelete? ==> Replay(st, [r]) == Exec(st, c).state
  {
    hide Dropped, Added, Increased, PopOutcome;
    ReplayOne(st, r);
  }

  lemma {:induction false} RemReplays(st: ZState, key: Bytes, names: seq<Bytes>)
    requires NoEmpty(st)
    ensures var o := Exec(st, ZRem(key, names)); Replay(st, o.log) == o.state
  {
    hide Elements;
    assert Replay(st, []) == st;
    ReplayOne(st, ZRemRecord(key, names));
    if key in st {
      MinusNothing(st[key], Elements(names));
      PutBack(st, key);
    }
  }

  lemma {:induction false} PopReplays(st: ZState, key: Bytes, highest: bool, count: int)
    ensures var o := PopOutcome(st, key, highest, count); Replay(st, o.log) == o.state
  {
    hide Elements, Members, Dropped, Extremes;
    assert Replay(st, []) == st;
    if Of(st, key) != map[] && count > 0 {
      ReplayOne(st, ZPopRecord(highest, key, Extremes(st[key], highest, count)));
    }
  }

  lemma LogsOneAtMost(st: ZState, c: ZCommand)
    ensures |Exec(st, c).log| <= 1
  {
  }

  /** Only a ZADD of no members to an absent key makes an empty sorted set. */
  lemma NoEmptyKept(st: ZState, c: ZCommand)
    requires NoEmpty(st)
    ensures NoEmpty(Exec(st, c).state) <==> !(c.ZAdd? && c.members == [] && c.key !in st)
  {
    hide Extremes, Elements, Members;
    if c.ZAdd? && c.members == [] {
      assert Exec(st, c).state[c.key] == Of(st, c.key);
    } else if c.ZAdd? {
      var d, n := Of(st, c.key), |c.members| - 1;
      assert c.members[n].ele in Added(d, c.members);
    }
  }

  lemma {:induction false} ReplayOne(st: ZState, r: ZRecord)
    ensures Replay(st, [r]) == Apply(st, r)
  {
    assert Replay(st, []) == st;
  }

  lemma HighestPopped(d: Scores, n: nat)
    requires n <= |Ranked(d)|
    ensures var popped := Reversed(Ranked(d))[..n];
      Ranked(d) == Ranked(d - Elements(Members(popped))) + Reversed(popped)
  {
    hide Ranked, Elements, Members, Sorted, Agree, Reversed;
    var s, popped := Ranked(d), Reversed(Ranked(d))[..n];
    var gone := Elements(Members(popped));
    PoppedFromTail(s, n);
    RunRemoved(d, s, |s| - n, |s|, gone);
    AgreeDetermines(d - gone, Ranked(d - gone), s[..|s| - n] + s[|s|..]);
    ReversedTail(s, n);
  }

  lemma LowestPopped(d: Scores, n: nat)
    requires n <= |Ranked(d)|
    ensures var popped := Ranked(d)[..n];
      Ranked(d) == popped + Ranked(d - Elements(Members(popped)))
  {
    hide Ranked, Elements, Members, Sorted, Agree;
    var s, gone := Ranked(d), Elements(Members(Ranked(d)[..n]));
    PoppedFromHead(s, n);
    RunRemoved(d, s, 0, n, gone);
    AgreeDetermines(d - gone, Ranked(d - gone), s[..0] + s[n..]);
  }

  /** What a pop returns and what it leaves make up the old contents, the popped pairs being the extreme ones. */
  lemma PopConserves(st: ZState, key: Bytes, highest: bool, count: int)
    requires Of(st, key) != map[] && count > 0
    ensures var popped := Extremes(st[key], highest, count);
      var left := Of(Dropped(st, key, Elements(Members(popped))), key);
      && PopOutcome(st, key, highest, count).reply == Popped(popped)
      && |popped| == (if count <= |st[key]| then count else |st[key]|)
      && Ranked(st[key]) == if highest then Ranked(left) + Reversed(popped) else popped + Ranked(left)
  {
    hide Ranked, Elements, Members, Sorted, Agree, Reversed;
    var d, popped := st[key], Extremes(st[key], highest, count);
    AgreeSize(d, Ranked(d));
    if highest { HighestPopped(d, |popped|); } else { LowestPopped(d, |popped|); }
    assert Of(Dropped(st, key, Elements(Members(popped))), key) == d - Elements(Members(popped));
  }

  /** ZRANK and ZREVRANK of a member add up to ZCARD - 1, and the rank counts the pairs below the member. */
  lemma RanksMirror(d: Scores, member: Bytes, rank: nat, revRank: nat)
    requires member in d && rank < |Ranked(d)| && revRank < |Ranked(d)|
    requires Ranked(d)[rank] == Pair(d[member], member) == Reversed(Ranked(d))[revRank]
    ensures rank + revRank == |d| - 1
    ensures rank == Passing(Ranked(d), Before(Pair(d[member], member)))
  {
    hide Ranked, Passing, Sorted;
    var s, p := Ranked(d), Pair(d[member], member);
    AgreeSize(d, s);
    PresentAt(s, p);
    var k := Passing(s, Before(p));
    SortedOnce(s, rank, k);
    SortedOnce(s, |s| - 1 - revRank, k);
  }

  lemma SortedOnce(s: seq<Pair>, i: nat, j: nat)
    requires Sorted(s) && i < |s| && j < |s| && s[i] == s[j]
    ensures i == j
  {
    Trichotomy(s[i], s[j]);
  }

  /** ZCOUNT counts members of the map: as many as have their score in the range. */
  lemma CountIsMembers(d: Scores, min: Score, max: Score)
    ensures |InRange(Ranked(d), min, max)| == |set m | m in d && min <= d[m] <= max|
    ensures forall m :: m in d && min <= d[m] <= max <==> m in d && Pair(d[m], m) in InRange(Ranked(d), min, max)
  {
    var s, t := Ranked(d), InRange(Ranked(d), min, max);
    InRangeElements(s, min, max);
    InRangeSorted(s, min, max);
    var e := map m | m in d && min <= d[m] <= max :: d[m];
    assert Agree(e, t);
    AgreeSize(e, t);
    assert e.Keys == set m | m in d && min <= d[m] <= max;
  }

  lemma InRangeSorted(s: seq<Pair>, min: Score, max: Score)
    requires Sorted(s)
    ensures Sorted(InRange(s, min, max))
  {
    InRangeIsSlice(s, min, max);
  }

  lemma {:induction false} InRangeElements(s: seq<Pair>, min: Score, max: Score)
    ensures forall p :: p in InRange(s, min, max) <==> p in s && min <= p.score <= max
  {
    if s != [] {
      InRangeElements(s[1..], min, max);
      assert s == [s[0]] + s[1..];
    }
  }

  lemma PairsAreRanked(val: SortedSet)
    requires val.Valid()
    ensures val.Pairs() == Ranked(val.dict)
  {
    AgreeDetermines(val.dict, val.Pairs(), Ranked(val.dict));
  }

  class ZSetStorage {
    var data: map<Bytes, SortedSet>
    var log: seq<ZRecord>
    ghost var state: ZState      // the scores of every sorted set
    ghost var Repr: set<object>

    /** What is held of a key depends on its sorted set alone. */
    ghost predicate Sound(val: SortedSet, key: Bytes, scores: Scores)
      reads val, val.zsl, val.zsl.nodes
    {
      this !in val.Repr() && val.Valid() && val.zsl.home == key && val.dict == scores
    }

    ghost predicate Held(key: Bytes)
      requires key in data
      reads this, Repr
    {
      var val := data[key];
      && val in Repr && val.zsl in Repr && val.Repr() <= Repr
      && key in state && Sound(val, key, state[key])
    }

    ghost predicate Valid()
      reads this, Repr
    {
      && this in Repr
      && (forall k :: k in data ==> Held(k))
      && (forall k :: k in state ==> k in data)
    }

    /** `Valid` of all entries but the one under `key`. */
    ghost predicate ValidBut(key: Bytes)
      reads this, Repr
    {
      && this in Repr
      && (forall k :: k in data && k != key ==> Held(k))
      && (forall k :: k in state && k != key ==> k in data)
    }

    constructor ()
      ensures Valid() && fresh(Repr) && state == map[] && log == []
    {
      data, log := map[], [];
      state, Repr := map[], {this};
    }

    ghost predicate Alone(key: Bytes, val: SortedSet)
      reads this, Repr, val, val.zsl
    {
      && val.zsl.home == key && this !in val.Repr()
      && forall k :: k in data && k != key ==> data[k] in Repr && data[k].zsl in Repr && data[k].Repr() !! val.Repr()
    }

    /** `val, exists := zs.data[key]`, with a new sorted set when there is none. */
    method Fetch(key: Bytes) returns (val: SortedSet)
      requires Valid()
      ensures val.Valid() && Alone(key, val) && val.dict == Of(state, key)
      ensures key in data ==> val == data[key] && val.Repr() <= Repr
      ensures key !in data ==> fresh(val.Repr())
    {
      hide SortedSet.Valid, SortedSet.Repr;
      if key in data {
        val := data[key];
        assert Held(key);
      } else {
        val := new SortedSet(key);
      }
      forall k | k in data && k != key ensures data[k].Repr() !! val.Repr() {
        assert Held(k);
        Apart(data[k], val);
      }
    }

    lemma IsSound(val: SortedSet, key: Bytes)
      requires val.Valid() && this !in val.Repr() && val.zsl.home == key
      ensures Sound(val, key, val.dict) && val in val.Repr() && val.zsl in val.Repr()
    {
      hide SortedSet.Valid;
    }

    /** What is noted of one key, and more objects accounted for, change nothing for the others. */
    ghost method Note(key: Bytes, scores: Scores, objects: set<object>)
      requires ValidBut(key)
      modifies this`state, this`Repr
      ensures ValidBut(key) && state == old(state)[key := scores] && Repr == old(Repr) + objects
    {
      hide Sound, SortedSet.Valid, SortedSet.Repr;
      state := state[key := scores];
      Repr := Repr + objects;
    }

    /** Puts in place a sorted set that is noted and accounted for. */
    method Enter(key: Bytes, val: SortedSet)
      requires ValidBut(key) && val in Repr && val.zsl in Repr && val.Repr() <= Repr
      requires key in state && Sound(val, key, state[key])
      modifies this`data
      ensures Valid()
    {
      hide Sound, SortedSet.Valid, SortedSet.Repr;
      data := data[key := val];
      forall k | k in data && k != key ensures Held(k) {
        assert old(Held(k));
      }
    }

    /** `zs.data[key] = val`. */
    method Store(key: Bytes, val: SortedSet)
      requires ValidBut(key) && val.Valid() && this !in val.Repr() && val.zsl.home == key
      modifies this`data, this`state, this`Repr
      ensures Valid() && Repr == old(Repr) + val.Repr()
      ensures state == old(state)[key := val.dict]
    {
      hide Sound, Held, Valid, ValidBut, SortedSet.Valid, SortedSet.Repr;
      IsSound(val, key);
      Note(key, val.dict, val.Repr());
      Enter(key, val);
    }

    /** `zs.deleteNoLock(key)`. */
    method Forget(key: Bytes)
      requires ValidBut(key)
      modifies this`data, this`state
      ensures Valid() && state == old(state) - {key}
    {
      hide SortedSet.Valid, SortedSet.Repr;
      data := data - {key};
      state := state - {key};
    }

    method Log(record: ZRecord)
      requires Valid()
      modifies this`log
      ensures Valid() && log == old(log) + [record]
    {
      hide SortedSet.Valid, SortedSet.Repr;
      log := log + [record];
    }

    // ----- the bodies the commands and the replay share -----

    method AddTo(key: Bytes, val: SortedSet, members: seq<Pair>) returns (added: nat)
      requires Valid() && val.Valid() && Alone(key, val)
      modifies this, val.Repr()
      ensures Valid() && Repr == old(Repr) + val.Repr() && fresh(val.Repr() - old(val.Repr())) && log == old(log)
      ensures state == old(state)[key := Added(old(val.dict), members)]
      ensures added == |Added(old(val.dict), members)| - |old(val.dict)|
    {
      hide SortedSet.Valid, Added;
      added := val.Add(members);
      forall k | k in data && k != key ensures Held(k) {
        assert old(Held(k));
        Undisturbed(data[k]);
      }
      Store(key, val);
    }

    method AddNoWal(key: Bytes, members: seq<Pair>) returns (added: nat)
      requires Valid()
      modifies this, Repr
      ensures Valid() && fresh(Repr - old(Repr)) && log == old(log)
      ensures state == old(state)[key := Added(Of(old(state), key), members)]
      ensures added == |Added(Of(old(state), key), members)| - |Of(old(state), key)|
    {
      hide *;
      var val := Fetch(key);
      added := AddTo(key, val, members);
    }

    /** `if len(val.dict) == 0 { deleteNoLock } else { data[key] = val }` */
    method StoreOrForget(key: Bytes, val: SortedSet)
      requires ValidBut(key) && val.Valid() && this !in val.Repr() && val.zsl.home == key
      modifies this`data, this`state, this`Repr
      ensures Valid() && Repr <= old(Repr) + val.Repr()
      ensures state == if val.dict == map[] then old(state) - {key} else old(state)[key := val.dict]
    {
      hide *;
      if |val.dict| == 0 {
        Forget(key);
      } else {
        Store(key, val);
      }
    }

    method RemFrom(key: Bytes, val: SortedSet, names: seq<Bytes>) returns (removed: nat)
      requires Valid() && val.Valid() && Alone(key, val) && val.dict == Of(state, key)
      modifies this, val.Repr()
      ensures Valid() && Repr <= old(Repr) + old(val.Repr()) && log == old(log)
      ensures state == Dropped(old(state), key, Elements(names))
      ensures removed == |old(val.dict)| - |old(val.dict) - Elements(names)|
    {
      hide SortedSet.Valid, Elements;
      removed := val.Remove(names);
      forall k | k in data && k != key ensures Held(k) {
        assert old(Held(k));
        Undisturbed(data[k]);
      }
      StoreOrForget(key, val);
    }

    method RemNoWal(key: Bytes, names: seq<Bytes>) returns (removed: nat)
      requires Valid()
      modifies this, Repr
      ensures Valid() && fresh(Repr - old(Repr)) && log == old(log)
      ensures state == Dropped(old(state), key, Elements(names))
      ensures removed == |Of(old(state), key)| - |Of(old(state), key) - Elements(names)|
    {
      hide Valid, Alone, Elements, SortedSet.Valid, Of;
      var val := Fetch(key);
      removed := RemFrom(key, val, names);
    }

    method IncrIn(key: Bytes, val: SortedSet, increment: Score, member: Bytes) returns (score: Score)
      requires Valid() && val.Valid() && Alone(key, val)
      modifies this, val.Repr()
      ensures Valid() && Repr == old(Repr) + val.Repr() && fresh(val.Repr() - old(val.Repr())) && log == old(log)
      ensures score == if member in old(val.dict) then old(val.dict)[member] + increment else increment
      ensures state == old(state)[key := old(val.dict)[member := score]]
    {
      hide SortedSet.Valid;
      score := val.IncrBy(increment, member);
      forall k | k in data && k != key ensures Held(k) {
        assert old(Held(k));
        Undisturbed(data[k]);
      }
      Store(key, val);
    }

    method IncrNoWal(key: Bytes, increment: Score, member: Bytes) returns (score: Score)
      requires Valid()
      modifies this, Repr
      ensures Valid() && fresh(Repr - old(Repr)) && log == old(log)
      ensures state == Increased(old(state), key, increment, member)
      ensures key in state && member in state[key] && score == state[key][member]
    {
      hide Valid, Alone, SortedSet.Valid, Of;
      var val := Fetch(key);
      score := IncrIn(key, val, increment, member);
    }

    method PopFrom(key: Bytes, val: SortedSet, highest: bool, limit: nat) returns (popped: seq<Pair>)
      requires Valid() && val.Valid() && Alone(key, val) && limit <= |val.Pairs()| && val.dict == Of(state, key)
      modifies this, val.Repr()
      ensures Valid() && Repr <= old(Repr) + old(val.Repr()) && log == old(log)
      ensures popped == (if highest then Reversed(old(val.Pairs())) else old(val.Pairs()))[..limit]
      ensures state == Dropped(old(state), key, Elements(Members(popped)))
    {
      hide SortedSet.Valid, Elements, Members;
      if highest {
        popped := val.PopMax(limit);
      } else {
        popped := val.PopMin(limit);
      }
      forall k | k in data && k != key ensures Held(k) {
        assert old(Held(k));
        Undisturbed(data[k]);
      }
      StoreOrForget(key, val);
    }

    // ----- the commands -----

    /** The state, the log and the reply are those of the command's meaning. */
    ghost predicate Did(before: ZState, logged: seq<ZRecord>, c: ZCommand, reply: ZReply)
      reads this
    {
      ZOutcome(state, log, reply) == var o := Exec(before, c); o.(log := logged + o.log)
    }

    method Add(key: Bytes, members: seq<Pair>) returns (added: nat)
      requires Valid()
      modifies this, Repr
      ensures Valid() && fresh(Repr - old(Repr))
      ensures Did(old(state), old(log), ZAdd(key, members), Changed(added))
    {
      hide Valid, Exec, Added, Of;
      added := AddNoWal(key, members);
      Log(ZAddRecord(key, members));
      ExecAdd(old(state), key, members, added);
    }

    method Rem(key: Bytes, names: seq<Bytes>) returns (removed: nat)
      requires Valid()
      modifies this, Repr
      ensures Valid() && fresh(Repr - old(Repr))
      ensures Did(old(state), old(log), ZRem(key, names), Changed(removed))
    {
      hide Exec, Dropped, Elements, SortedSet.Valid, SortedSet.Repr;
      if key !in data {
        ExecOthers(state, key, 0.0, [], names);
        return 0;
      }
      assert Held(key);
      removed := RemNoWal(key, names);
      ExecRem(old(state), key, names, removed);
      if removed > 0 {
        Log(ZRemRecord(key, names));
      }
    }

    method IncrBy(key: Bytes, increment: Score, member: Bytes) returns (score: Score)
      requires Valid()
      modifies this, Repr
      ensures Valid() && fresh(Repr - old(Repr))
      ensures Did(old(state), old(log), ZIncrBy(key, increment, member), NewScore(score))
    {
      hide Valid, Exec, Increased, Of;
      score := IncrNoWal(key, increment, member);
      Log(ZIncrByRecord(key, increment, member));
      ExecOthers(old(state), key, increment, member, []);
    }

    /** ZPOPMAX and ZPOPMIN; `None` is the key-not-found error. */
    method Pop(key: Bytes, highest: bool, count: int) returns (popped: Option<seq<Pair>>)
      requires Valid()
      modifies this, Repr
      ensures Valid() && fresh(Repr - old(Repr))
      ensures Did(old(state), old(log), if highest then ZPopMax(key, count) else ZPopMin(key, count),
                  if popped.None? then NoSuchKey else Popped(popped.value))
    {
      hide Exec, Dropped, Elements, Held, Valid, SortedSet.Valid, SortedSet.Pairs, SortedSet.Repr, Members, Alone, Ranked, Reversed, PopOutcome;
      var val := Fetch(key);
      var n := val.Card();
      ExecPopNothing(state, key, highest, count);
      if n == 0 {
        return None;
      }
      if count <= 0 {
        return Some([]);
      }
      PairsAreRanked(val);
      var limit := if count > n then n else count;
      var members := PopFrom(key, val, highest, limit);
      ExecPop(old(state), key, highest, count, members);
      Log(ZPopRecord(highest, key, members));
      popped := Some(members);
    }

    method Delete(key: Bytes)
      requires Valid()
      modifies this
      ensures Valid() && Repr == old(Repr)
      ensures Did(old(state), old(log), ZDelete(key), Done)
    {
      hide Exec, Held;
      ExecOthers(state, key, 0.0, [], []);
      Log(ZDeleteRecord(key));
      Forget(key);
    }

    /** Replay of one record, through the same bodies and without logging. */
    method ProcessWalEntry(r: ZRecord)
      requires Valid()
      modifies this, Repr
      ensures Valid() && fresh(Repr - old(Repr))
      ensures state == Apply(old(state), r) && log == old(log)
    {
      hide Dropped, Elements, Held, Increased, Added, Of;
      match r {
        case ZAddRecord(key, members) => var n := AddNoWal(key, members);
        case ZRemRecord(key, names) => var n := RemNoWal(key, names);
        case ZPopRecord(_, key, members) =>
          var names := seq(|members|, i requires 0 <= i < |members| => members[i].ele);
          assert names == Members(members);
          var n := RemNoWal(key, names);
        case ZIncrByRecord(key, increment, member) => var s := IncrNoWal(key, increment, member);
        case ZDeleteRecord(key) => Forget(key);
      }
    }

    // ----- the queries; a missing key answers as an empty sorted set -----

    lemma InOrder(key: Bytes)
      requires Valid()
      ensures key in data <==> key in state
      ensures key in data ==> data[key].Valid() && data[key].Pairs() == Ranked(Of(state, key)) && data[key].dict == state[key]
    {
      if key in data {
        assert Held(key);
        PairsAreRanked(data[key]);
      }
    }

    method ZScore(key: Bytes, member: Bytes) returns (score: Option<Score>)
      requires Valid()
      ensures score == if member in Of(state, key) then Some(Of(state, key)[member]) else None
    {
      hide Valid, SortedSet.Valid;
      InOrder(key);
      if key !in data { return None; }
      score := data[key].Score(member);
    }

    method ZCard(key: Bytes) returns (n: nat)
      requires Valid()
      ensures n == |Of(state, key)|
    {
      hide Valid, SortedSet.Valid;
      InOrder(key);
      if key !in data { return 0; }
      n := data[key].Card();
    }

    method ZRank(key: Bytes, member: Bytes) returns (rank: Option<nat>)
      requires Valid()
      ensures var d := Of(state, key);
        && (rank.None? <==> member !in d)
        && (rank.Some? ==> rank.value < |Ranked(d)| && Ranked(d)[rank.value] == Pair(d[member], member))
    {
      hide Valid, SortedSet.Valid, Ranked;
      InOrder(key);
      if key !in data { return None; }
      rank := data[key].Rank(member);
    }

    method ZRevRank(key: Bytes, member: Bytes) returns (rank: Option<nat>)
      requires Valid()
      ensures var d := Of(state, key);
        && (rank.None? <==> member !in d)
        && (rank.Some? ==> rank.value < |Ranked(d)| && Reversed(Ranked(d))[rank.value] == Pair(d[member], member))
    {
      hide Valid, SortedSet.Valid, Ranked;
      InOrder(key);
      if key !in data { return None; }
      rank := data[key].RevRank(member);
    }

    method ZCount(key: Bytes, min: Score, max: Score) returns (n: nat)
      requires Valid()
      ensures n == |InRange(Ranked(Of(state, key)), min, max)|
    {
      hide Valid, SortedSet.Valid;
      InOrder(key);
      if key !in data { return 0; }
      n := data[key].Count(min, max);
    }

    method ZRange(key: Bytes, start: int, stop: int) returns (res: seq<Pair>)
      requires Valid()
      ensures res == Slice(Ranked(Of(state, key)), start, stop)
    {
      hide Valid, SortedSet.Valid;
      InOrder(key);
      if key !in data { return []; }
      res := data[key].Range(start, stop);
    }

    method ZRevRange(key: Bytes, start: int, stop: int) returns (res: seq<Pair>)
      requires Valid()
      ensures res == Slice(Reversed(Ranked(Of(state, key))), start, stop)
    {
      hide Valid, SortedSet.Valid;
      InOrder(key);
      if key !in data { return []; }
      res := data[key].RevRange(start, stop);
    }

    method ZRangeByScore(key: Bytes, min: Score, max: Score, offset: int, count: int) returns (res: seq<Pair>)
      requires Valid()
      ensures res == Limit(InRange(Ranked(Of(state, key)), min, max), offset, count)
    {
      hide Valid, SortedSet.Valid;
      InOrder(key);
      if key !in data { return []; }
      res := data[key].RangeByScore(min, max, offset, count);
    }

    method ZRevRangeByScore(key: Bytes, max: Score, min: Score, offset: int, count: int) returns (res: seq<Pair>)
      requires Valid()
      ensures res == Limit(Reversed(InRange(Ranked(Of(state, key)), min, max)), offset, count)
    {
      hide Valid, SortedSet.Valid;
      InOrder(key);
      if key !in data { return []; }
      res := data[key].RevRangeByScore(max, min, offset, count);
    }
  }
}
