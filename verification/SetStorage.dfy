/** The set engine: sets by key, each command's effect, its log record and its replay. */
module SetStorage {
  import opened Ordering
  import opened Collections

  // ----- what the commands mean on all sets -----

  type SState = map<Bytes, set<Bytes>>

  datatype Algebra = Inter | Union | Diff

  datatype SRecord =
    | SAddRecord(key: Bytes, members: seq<Bytes>)
    | SRemRecord(key: Bytes, members: seq<Bytes>)
    | SPopRecord(key: Bytes, members: seq<Bytes>)
    | SMoveRecord(from: Bytes, to: Bytes, member: Bytes)
    | SStoreRecord(op: Algebra, to: Bytes, keys: seq<Bytes>)
    | SDeleteRecord(key: Bytes)

  /** `chosen` is what a pop happens to take: the source iterates over a map, whose order is open. */
  datatype SCommand =
    | SAdd(key: Bytes, members: seq<Bytes>)
    | SRem(key: Bytes, members: seq<Bytes>)
    | SPop(key: Bytes, count: int, chosen: seq<Bytes>)
    | SMove(from: Bytes, to: Bytes, member: Bytes)
    | SStore(op: Algebra, to: Bytes, keys: seq<Bytes>)
    | SDelete(key: Bytes)

  datatype SReply = Done | Changed(n: nat) | Moved(moved: bool) | Popped(members: seq<Bytes>) | NoSuchKey

  datatype SOutcome = SOutcome(state: SState, log: seq<SRecord>, reply: SReply)

  function Of(st: SState, key: Bytes): set<Bytes>
  {
    if key in st then st[key] else {}
  }

  /** A set that has become empty is dropped with its key. */
  function Put(st: SState, key: Bytes, s: set<Bytes>): SState
  {
    if s == {} then st - {key} else st[key := s]
  }

  function Without(st: SState, key: Bytes, members: seq<Bytes>): SState
  {
    Put(st, key, Of(st, key) - Elements(members))
  }

  function AfterMove(st: SState, from: Bytes, to: Bytes, member: Bytes): SState
  {
    var st' := Put(st, from, Of(st, from) - {member});
    st'[to := Of(st', to) + {member}]
  }

  /** The value of a set expression; a missing key is an empty set. */
  function Query(st: SState, op: Algebra, keys: seq<Bytes>): set<Bytes>
  {
    match op
    case Inter => if keys == [] then {} else set x | x in Of(st, keys[0]) && forall k :: k in keys ==> x in Of(st, k)
    case Union => set k, x | k in keys && x in Of(st, k) :: x
    case Diff => if keys == [] then {} else set x | x in Of(st, keys[0]) && forall k :: k in keys[1..] ==> x !in Of(st, k)
  }

  /** The destination is deleted before the sources are read. */
  function Stored(st: SState, op: Algebra, to: Bytes, keys: seq<Bytes>): SState
  {
    Put(st, to, Query(st - {to}, op, keys))
  }

  /** What a pop may take. */
  ghost predicate MayPop(s: set<Bytes>, count: int, chosen: seq<Bytes>)
  {
    && Elements(chosen) <= s
    && |chosen| == |Elements(chosen)| == if count <= 0 then 0 else if count <= |s| then count else |s|
  }

  function Exec(st: SState, c: SCommand): SOutcome
  {
    match c
    case SAdd(key, members) =>
      var s := Of(st, key) + Elements(members);
      SOutcome(st[key := s], [SAddRecord(key, members)], Changed(|s - Of(st, key)|))
    case SRem(key, members) =>
      if key !in st then SOutcome(st, [], Changed(0))
      else
        var gone := st[key] * Elements(members);
        SOutcome(Without(st, key, members), if gone == {} then [] else [SRemRecord(key, members)], Changed(|gone|))
    case SPop(key, count, chosen) =>
      if Of(st, key) == {} then SOutcome(st, [], NoSuchKey)
      else if count <= 0 then SOutcome(st, [], Popped([]))
      else SOutcome(Without(st, key, chosen), [SPopRecord(key, chosen)], Popped(chosen))
    case SMove(from, to, member) =>
      if member !in Of(st, from) then SOutcome(st, [], Moved(false))
      else SOutcome(AfterMove(st, from, to, member), [SMoveRecord(from, to, member)], Moved(true))
    case SStore(op, to, keys) =>
      SOutcome(Stored(st, op, to, keys), [SStoreRecord(op, to, keys)], Changed(|Query(st, op, keys)|))
    case SDelete(key) => SOutcome(st - {key}, [SDeleteRecord(key)], Done)
  }

  /** What replaying one record does: pops are replayed as removals of the logged members. */
  function Apply(st: SState, r: SRecord): SState
  {
    match r
    case SAddRecord(key, members) => st[key := Of(st, key) + Elements(members)]
    case SRemRecord(key, members) => Without(st, key, members)
    case SPopRecord(key, members) => Without(st, key, members)
    case SMoveRecord(from, to, member) => AfterMove(st, from, to, member)
    case SStoreRecord(op, to, keys) => Stored(st, op, to, keys)
    case SDeleteRecord(key) => st - {key}
  }

  function Replay(st: SState, log: seq<SRecord>): SState
  {
    if log == [] then st else Apply(Replay(st, log[..|log| - 1]), log[|log| - 1])
  }

  ghost predicate NoEmpty(st: SState)
  {
    forall key :: key in st ==> st[key] != {}
  }

  lemma {:induction false} ReplayOne(st: SState, r: SRecord)
    ensures Replay(st, [r]) == Apply(st, r)
  {
    assert Replay(st, []) == st;
  }

  /** Replaying what a command logged gives the state the command left, when no set is empty. */
  lemma {:induction false} ReplayMatches(st: SState, c: SCommand)
    requires NoEmpty(st)
    ensures Replay(st, Exec(st, c).log) == Exec(st, c).state
  {
    hide AfterMove, Stored, Without, Elements, Query;
    assert Replay(st, []) == st;
    match c {
      case SAdd(key, members) => ReplayOne(st, SAddRecord(key, members));
      case SRem(key, members) => RemReplays(st, key, members);
      case SPop(key, count, chosen) => ReplayOne(st, SPopRecord(key, chosen));
      case SMove(from, to, member) => ReplayOne(st, SMoveRecord(from, to, member));
      case SStore(op, to, keys) => ReplayOne(st, SStoreRecord(op, to, keys));
      case SDelete(key) => ReplayOne(st, SDeleteRecord(key));
    }
  }

  lemma {:induction false} RemReplays(st: SState, key: Bytes, members: seq<Bytes>)
    requires NoEmpty(st)
    ensures var o := Exec(st, SRem(key, members)); Replay(st, o.log) == o.state
  {
    hide Elements, Without;
    assert Replay(st, []) == st;
    ReplayOne(st, SRemRecord(key, members));
    if key in st {
      NothingRemoved(st, key, members);
    }
  }

  lemma NothingRemoved(st: SState, key: Bytes, members: seq<Bytes>)
    requires key in st && st[key] != {}
    ensures st[key] * Elements(members) == {} ==> Without(st, key, members) == st
  {
    hide Elements;
    MinusDisjoint(st[key], Elements(members));
    PutBack(st, key);
  }

  lemma LogsOneAtMost(st: SState, c: SCommand)
    ensures |Exec(st, c).log| <= 1
  {
  }

  /** Only an SADD of no members to an absent key makes an empty set. */
  lemma NoEmptyKept(st: SState, c: SCommand)
    requires NoEmpty(st)
    ensures NoEmpty(Exec(st, c).state) <==> !(c.SAdd? && c.members == [] && c.key !in st)
  {
    if c.SAdd? {
      assert c.members != [] ==> c.members[0] in Elements(c.members);
      assert Exec(st, c).state[c.key] == Of(st, c.key) + Elements(c.members);
    }
  }

  /** A pop returns as many distinct members as were asked for and were there, and leaves exactly the others. */
  lemma PopConserves(st: SState, key: Bytes, count: int, chosen: seq<Bytes>)
    requires Of(st, key) != {} && count > 0 && MayPop(st[key], count, chosen)
    ensures var left := Of(Exec(st, SPop(key, count, chosen)).state, key);
      && left + Elements(chosen) == st[key] && left !! Elements(chosen)
      && |left| + |chosen| == |st[key]|
  {
    var left := st[key] - Elements(chosen);
    assert left + Elements(chosen) == st[key];
  }

  /** A move takes the member out of one set and puts it in the other; within one set it changes nothing. */
  lemma MoveMeans(st: SState, from: Bytes, to: Bytes, member: Bytes)
    requires member in Of(st, from)
    ensures var st' := AfterMove(st, from, to, member);
      && (forall k :: k != from && k != to ==> Of(st', k) == Of(st, k))
      && (from == to ==> Of(st', to) == Of(st, to))
      && (from != to ==> Of(st', from) == Of(st, from) - {member} && Of(st', to) == Of(st, to) + {member})
  {
  }

  /** Deleting the destination first makes no difference to whether `x`, which it held, is in the value. */
  ghost predicate Unaffected(st: SState, op: Algebra, to: Bytes, keys: seq<Bytes>, x: Bytes)
    requires to in keys
  {
    match op
    case Inter => exists k :: k in keys && x !in Of(st, k)
    case Union => exists k :: k in keys && k != to && x in Of(st, k)
    case Diff =>
      if keys[0] == to then exists k :: k in keys[1..] && x in Of(st, k)
      else x !in Of(st, keys[0]) || exists k :: k in keys[1..] && k != to && x in Of(st, k)
  }

  /** A STORE form stores the value its query form gives, and so replies with the size of what it stored, just when
      the destination is no source or none of its old members matters to the value. */
  lemma StoredIsQueried(st: SState, op: Algebra, to: Bytes, keys: seq<Bytes>)
    ensures Of(Stored(st, op, to, keys), to) == Query(st, op, keys) <==>
      to !in keys || forall x :: x in Of(st, to) ==> Unaffected(st, op, to, keys, x)
    ensures forall k :: k != to ==> Of(Stored(st, op, to, keys), k) == Of(st, k)
  {
    var q, q' := Query(st, op, keys), Query(st - {to}, op, keys);
    forall k ensures Of(st - {to}, k) == if k == to then {} else Of(st, k) {
    }
    forall x ensures (x in q <==> x in q') <==> to !in keys || x !in Of(st, to) || Unaffected(st, op, to, keys, x) {
      QueryAt(st, op, to, keys, x);
    }
    assert Of(Stored(st, op, to, keys), to) == q';
  }

  lemma QueryAt(st: SState, op: Algebra, to: Bytes, keys: seq<Bytes>, x: Bytes)
    ensures (x in Query(st, op, keys) <==> x in Query(st - {to}, op, keys)) <==>
      to !in keys || x !in Of(st, to) || Unaffected(st, op, to, keys, x)
  {
    var st' := st - {to};
    assert keys != [] ==> keys == [keys[0]] + keys[1..];
    forall k ensures Of(st', k) == if k == to then {} else Of(st, k) {
    }
  }

  /** SINTERSTORE of a set into itself empties it and still replies with its size. */
  lemma StoreIntoSourceLosesIt()
    ensures var st: SState := map[[1] := {[5]}];
      Exec(st, SStore(Inter, [1], [[1]])) == SOutcome(map[], [SStoreRecord(Inter, [1], [[1]])], Changed(1))
  {
    var st: SState := map[[1] := {[5]}];
    var keys: seq<Bytes> := [[1]];
    assert keys[0] in keys && Query(st, Inter, keys) == {[5]};
    assert st - {[1]} == map[];
    assert Query(st - {[1]}, Inter, keys) == {};
  }

  // ----- the loops -----

  /** Each member once, in some order. */
  ghost predicate Enumerates(res: seq<Bytes>, s: set<Bytes>)
  {
    Elements(res) == s && |res| == |s|
  }

  /** As many elements as positions just when no two positions hold the same. */
  lemma {:induction false} OnceEach(s: seq<Bytes>)
    ensures |Elements(s)| <= |s|
    ensures |Elements(s)| == |s| <==> forall i, j :: 0 <= i < j < |s| ==> s[i] != s[j]
  {
    if s != [] {
      var n := |s| - 1;
      OnceEach(s[..n]);
      ElementsGrow(s, n);
      assert s[..n + 1] == s;
      if s[n] in s[..n] {
        var i :| 0 <= i < n && s[..n][i] == s[n];
        assert s[i] == s[n] && Elements(s) == Elements(s[..n]);
      } else {
        assert |Elements(s)| == |Elements(s[..n])| + 1;
        assert forall i :: 0 <= i < n ==> s[..n][i] == s[i] && s[i] != s[n];
      }
    }
  }

  lemma EnumeratesMeans(res: seq<Bytes>, s: set<Bytes>)
    ensures Enumerates(res, s) <==>
      (forall x :: x in res <==> x in s) && forall i, j :: 0 <= i < j < |res| ==> res[i] != res[j]
  {
    OnceEach(res);
    assert forall x :: x in Elements(res) <==> x in res;
    if forall x :: x in res <==> x in s {
      assert Elements(res) == s;
    }
  }

  /** A pop may take any members, none twice: as many as asked for and there. */
  lemma MayPopMeans(s: set<Bytes>, count: int, chosen: seq<Bytes>)
    ensures MayPop(s, count, chosen) <==> (
      && (forall x :: x in chosen ==> x in s)
      && (forall i, j :: 0 <= i < j < |chosen| ==> chosen[i] != chosen[j])
      && |chosen| == if count <= 0 then 0 else if count <= |s| then count else |s|)
  {
    OnceEach(chosen);
    assert forall x :: x in Elements(chosen) <==> x in chosen;
  }

  lemma EnumeratesOneMore(res: seq<Bytes>, s: set<Bytes>, x: Bytes)
    requires Enumerates(res, s) && x !in s
    ensures Enumerates(res + [x], s + {x})
  {
    ElementsGrow(res + [x], |res|);
    assert (res + [x])[..|res|] == res && (res + [x])[..|res| + 1] == res + [x];
  }

  method Listed(s: set<Bytes>) returns (res: seq<Bytes>)
    ensures Enumerates(res, s)
  {
    res := [];
    var todo := s;
    while todo != {}
      invariant todo <= s && Enumerates(res, s - todo)
    {
      var item :| item in todo;
      EnumeratesOneMore(res, s - todo, item);
      assert s - (todo - {item}) == s - todo + {item};
      res := res + [item];
      todo := todo - {item};
    }
    assert s - todo == s;
  }

  /** Adds the items one by one. */
  method Poured(items: set<Bytes>, into: set<Bytes>) returns (s: set<Bytes>)
    ensures s == into + items
  {
    s := into;
    var todo := items;
    while todo != {}
      invariant todo <= items && s == into + (items - todo)
    {
      var item :| item in todo;
      s := s + {item};
      todo := todo - {item};
    }
  }

  /** Deletes the items one by one. */
  method Struck(items: set<Bytes>, from: set<Bytes>) returns (s: set<Bytes>)
    ensures s == from - items
  {
    s := from;
    var todo := items;
    while todo != {}
      invariant todo <= items && s == from - (items - todo)
    {
      var item :| item in todo;
      s := s - {item};
      todo := todo - {item};
    }
  }

  /** Adds the members that are not there yet. */
  method Joined(s: set<Bytes>, members: seq<Bytes>) returns (mSet: set<Bytes>, added: nat)
    ensures mSet == s + Elements(members) && added == |mSet - s|
  {
    hide Elements;
    mSet, added := s, 0;
    ElementsOfNone(members);
    var i := 0;
    while i < |members|
      invariant 0 <= i <= |members| && mSet == s + Elements(members[..i]) && added == |mSet - s|
    {
      ElementsGrow(members, i);
      OneMoreAdded(s, Elements(members[..i]), members[i]);
      if members[i] !in mSet {
        mSet := mSet + {members[i]};
        added := added + 1;
      }
      i := i + 1;
    }
    assert members[..i] == members;
  }

  /** Deletes the members that are there. */
  method Parted(s: set<Bytes>, members: seq<Bytes>) returns (left: set<Bytes>, removed: nat)
    ensures left == s - Elements(members) && removed == |s * Elements(members)|
  {
    hide Elements;
    left, removed := s, 0;
    ElementsOfNone(members);
    var i := 0;
    while i < |members|
      invariant 0 <= i <= |members| && left == s - Elements(members[..i]) && removed == |s * Elements(members[..i])|
    {
      ElementsGrow(members, i);
      OneMoreRemoved(s, Elements(members[..i]), members[i]);
      if members[i] in left {
        left := left - {members[i]};
        removed := removed + 1;
      }
      i := i + 1;
    }
    assert members[..i] == members;
  }

  method Smallest(sets: seq<set<Bytes>>) returns (smallest: nat)
    requires sets != []
    ensures smallest < |sets| && forall j :: 0 <= j < |sets| ==> |sets[smallest]| <= |sets[j]|
  {
    smallest := 0;
    var i := 1;
    while i < |sets|
      invariant 1 <= i <= |sets| && smallest < i
      invariant forall j :: 0 <= j < i ==> |sets[smallest]| <= |sets[j]|
    {
      if |sets[i]| < |sets[smallest]| {
        smallest := i;
      }
      i := i + 1;
    }
  }

  /** Whether every set but the one at `skipped` has the item. */
  method InOthers(sets: seq<set<Bytes>>, skipped: nat, item: Bytes) returns (intersect: bool)
    requires skipped < |sets| && item in sets[skipped]
    ensures intersect <==> forall s :: s in sets ==> item in s
  {
    intersect := true;
    var idx := 0;
    while idx < |sets|
      invariant 0 <= idx <= |sets| && intersect
      invariant forall j :: 0 <= j < idx ==> item in sets[j]
    {
      if idx != skipped && item !in sets[idx] {
        intersect := false;
        assert sets[idx] in sets;
        break;
      }
      idx := idx + 1;
    }
  }

  ghost function Common(candidates: set<Bytes>, sets: seq<set<Bytes>>): set<Bytes>
  {
    set x | x in candidates && forall s :: s in sets ==> x in s
  }

  lemma CommonOneMore(seen: set<Bytes>, sets: seq<set<Bytes>>, item: Bytes)
    ensures Common(seen + {item}, sets) == Common(seen, sets) + if forall s :: s in sets ==> item in s then {item} else {}
  {
  }

  /** Tries the members of the smallest set against the other sets. */
  method Intersection(sets: seq<set<Bytes>>) returns (res: seq<Bytes>)
    requires sets != []
    ensures Enumerates(res, Common(sets[0], sets))
  {
    hide Enumerates, Common;
    var smallest := Smallest(sets);
    res := [];
    var candidates := sets[smallest];
    var todo := candidates;
    CommonOfNone(candidates, sets);
    while todo != {}
      invariant todo <= candidates
      invariant Enumerates(res, Common(candidates - todo, sets))
    {
      var item :| item in todo;
      var seen := candidates - todo;
      var intersect := InOthers(sets, smallest, item);
      CommonOneMore(seen, sets, item);
      assert candidates - (todo - {item}) == seen + {item};
      if intersect {
        CommonWithin(seen, sets);
        EnumeratesOneMore(res, Common(seen, sets), item);
        res := res + [item];
      } else {
        assert Common(seen, sets) + {} == Common(seen, sets);
      }
      todo := todo - {item};
    }
    assert candidates - todo == candidates;
    CommonOfAny(sets, smallest);
  }

  lemma CommonOfNone(c: set<Bytes>, sets: seq<set<Bytes>>)
    ensures Enumerates([], Common(c - c, sets))
  {
  }

  lemma CommonWithin(seen: set<Bytes>, sets: seq<set<Bytes>>)
    ensures Common(seen, sets) <= seen
  {
  }

  lemma CommonOfAny(sets: seq<set<Bytes>>, i: nat)
    requires i < |sets|
    ensures Common(sets[i], sets) == Common(sets[0], sets)
  {
    assert sets[i] in sets && sets[0] in sets;
  }

  /** The sets of existing keys make up the intersection the query means. */
  lemma InterIsCommon(st: SState, keys: seq<Bytes>, sets: seq<set<Bytes>>)
    requires keys != [] && |sets| == |keys|
    requires forall j :: 0 <= j < |keys| ==> keys[j] in st && sets[j] == st[keys[j]]
    ensures Query(st, Inter, keys) == Common(sets[0], sets)
  {
    forall x ensures x in Query(st, Inter, keys) <==> x in Common(sets[0], sets) {
      InterAt(st, keys, sets, x);
    }
  }

  lemma InterAt(st: SState, keys: seq<Bytes>, sets: seq<set<Bytes>>, x: Bytes)
    requires keys != [] && |sets| == |keys|
    requires forall j :: 0 <= j < |keys| ==> keys[j] in st && sets[j] == st[keys[j]]
    ensures x in Query(st, Inter, keys) <==> x in Common(sets[0], sets)
  {
    if x in Query(st, Inter, keys) {
      forall s | s in sets ensures x in s {
        var j :| 0 <= j < |sets| && sets[j] == s;
        assert keys[j] in keys;
      }
    }
    if x in Common(sets[0], sets) {
      forall k | k in keys ensures x in Of(st, k) {
        var j :| 0 <= j < |keys| && keys[j] == k;
        assert sets[j] in sets;
      }
    }
  }

  lemma InterOfMissing(st: SState, keys: seq<Bytes>, k: Bytes)
    requires k in keys && k !in st
    ensures Query(st, Inter, keys) == {}
  {
  }

  lemma UnionOneMore(st: SState, keys: seq<Bytes>, i: nat)
    requires i < |keys|
    ensures Query(st, Union, keys[..i + 1]) == Query(st, Union, keys[..i]) + Of(st, keys[i])
  {
    assert keys[..i + 1] == keys[..i] + [keys[i]];
  }

  lemma DiffOneMore(st: SState, keys: seq<Bytes>, i: nat)
    requires 1 <= i < |keys|
    ensures Query(st, Diff, keys[..i + 1]) == Query(st, Diff, keys[..i]) - Of(st, keys[i])
  {
    assert keys[..i + 1][1..] == keys[..i][1..] + [keys[i]];
  }

  lemma DiffOfOne(st: SState, keys: seq<Bytes>)
    requires keys != []
    ensures Query(st, Diff, keys[..1]) == Of(st, keys[0])
    ensures keys[0] !in st ==> Query(st, Diff, keys) == {}
  {
    assert keys[..1][1..] == [];
  }

  class SetStorage {
    var data: SState
    var log: seq<SRecord>

    constructor ()
      ensures data == map[] && log == []
    {
      data, log := map[], [];
    }

    /** The state, the log and the reply are those of the command's meaning. */
    ghost predicate Did(before: SState, logged: seq<SRecord>, c: SCommand, reply: SReply)
      reads this
    {
      SOutcome(data, log, reply) == var o := Exec(before, c); o.(log := logged + o.log)
    }

    method AddNoWal(key: Bytes, members: seq<Bytes>) returns (added: nat)
      modifies this`data
      ensures data == old(data)[key := Of(old(data), key) + Elements(members)]
      ensures added == |Of(old(data), key) + Elements(members) - Of(old(data), key)|
    {
      hide Elements;
      var mSet := if key in data then data[key] else {};
      mSet, added := Joined(mSet, members);
      data := data[key := mSet];
    }

    method RemNoWal(key: Bytes, members: seq<Bytes>) returns (removed: nat)
      modifies this`data
      ensures data == Without(old(data), key, members)
      ensures removed == |Of(old(data), key) * Elements(members)|
    {
      hide Elements;
      var left := if key in data then data[key] else {};
      left, removed := Parted(left, members);
      data := if |left| == 0 then data - {key} else data[key := left];
    }

    method Add(key: Bytes, members: seq<Bytes>) returns (added: nat)
      modifies this
      ensures Did(old(data), old(log), SAdd(key, members), Changed(added))
    {
      added := AddNoWal(key, members);
      log := log + [SAddRecord(key, members)];
    }

    method Rem(key: Bytes, members: seq<Bytes>) returns (removed: nat)
      modifies this
      ensures Did(old(data), old(log), SRem(key, members), Changed(removed))
    {
      hide Elements, Without;
      if key !in data {
        return 0;
      }
      removed := RemNoWal(key, members);
      if removed > 0 {
        log := log + [SRemRecord(key, members)];
      }
    }

    /** Takes members off one by one until there are enough. */
    method Take(s: set<Bytes>, limit: nat) returns (popped: seq<Bytes>, left: set<Bytes>)
      requires 0 < limit <= |s|
      ensures Enumerates(popped, s - left) && left <= s && |popped| == limit
    {
      hide Enumerates;
      popped, left := [], s;
      assert Enumerates(popped, s - left) by { EnumeratesNone(s); }
      while left != {} && |popped| < limit
        invariant left <= s && Enumerates(popped, s - left) && |popped| <= limit
        decreases left
      {
        var m :| m in left;
        EnumeratesOneMore(popped, s - left, m);
        assert s - (left - {m}) == s - left + {m};
        popped := popped + [m];
        left := left - {m};
      }
      EnumeratesSize(popped, s - left);
      assert left == {} ==> s - left == s;
    }

    method Pop(key: Bytes, count: int) returns (reply: SReply, ghost chosen: seq<Bytes>)
      modifies this
      ensures Did(old(data), old(log), SPop(key, count, chosen), reply)
      ensures Of(old(data), key) != {} ==> MayPop(old(data)[key], count, chosen)
    {
      chosen := [];
      if key !in data || |data[key]| == 0 {
        return NoSuchKey, [];
      }
      if count <= 0 {
        return Popped([]), [];
      }
      var val := data[key];
      var limit := if count > |val| then |val| else count;
      var popped, left := Take(val, limit);
      assert left == val - Elements(popped) && Elements(popped) <= val;
      data := if |left| == 0 then data - {key} else data[key := left];
      log := log + [SPopRecord(key, popped)];
      reply, chosen := Popped(popped), popped;
    }

    method MoveNoWal(from: Bytes, to: Bytes, member: Bytes)
      modifies this`data
      ensures data == AfterMove(old(data), from, to, member)
    {
      assert Elements([member]) == {member};
      var n := RemNoWal(from, [member]);
      n := AddNoWal(to, [member]);
    }

    method Move(from: Bytes, to: Bytes, member: Bytes) returns (moved: bool)
      modifies this
      ensures Did(old(data), old(log), SMove(from, to, member), Moved(moved))
    {
      if from !in data || member !in data[from] {
        return false;
      }
      MoveNoWal(from, to, member);
      log := log + [SMoveRecord(from, to, member)];
      moved := true;
    }

    // ----- set algebra -----

    method SInter(keys: seq<Bytes>) returns (res: seq<Bytes>)
      ensures Enumerates(res, Query(data, Inter, keys))
    {
      hide Query;
      if |keys| == 0 {
        QueryOfNone(data);
        return [];
      }
      var sets: seq<set<Bytes>> := [];
      var i := 0;
      while i < |keys|
        invariant 0 <= i <= |keys| && |sets| == i
        invariant forall j :: 0 <= j < i ==> keys[j] in data && sets[j] == data[keys[j]]
      {
        if keys[i] !in data {
          InterOfMissing(data, keys, keys[i]);
          return [];
        }
        sets := sets + [data[keys[i]]];
        i := i + 1;
      }
      InterIsCommon(data, keys, sets);
      res := Intersection(sets);
    }

    /** The union as a set being filled. */
    method Gather(keys: seq<Bytes>) returns (temp: set<Bytes>)
      ensures temp == Query(data, Union, keys)
    {
      hide Query;
      temp := {};
      assert keys[..0] == [] && temp == Query(data, Union, keys[..0]) by { QueryOfNone(data); }
      var i := 0;
      while i < |keys|
        invariant 0 <= i <= |keys| && temp == Query(data, Union, keys[..i])
      {
        UnionOneMore(data, keys, i);
        if keys[i] in data {
          temp := Poured(data[keys[i]], temp);
        }
        i := i + 1;
      }
      assert keys[..i] == keys;
    }

    /** The difference as a set being pruned. */
    method Prune(keys: seq<Bytes>) returns (temp: set<Bytes>)
      ensures temp == Query(data, Diff, keys)
    {
      hide Query;
      if |keys| == 0 {
        QueryOfNone(data);
        return {};
      }
      DiffOfOne(data, keys);
      if keys[0] !in data {
        return {};
      }
      temp := Poured(data[keys[0]], {});
      var i := 1;
      while i < |keys|
        invariant 1 <= i <= |keys| && temp == Query(data, Diff, keys[..i])
      {
        DiffOneMore(data, keys, i);
        if keys[i] in data {
          temp := Struck(data[keys[i]], temp);
        }
        i := i + 1;
      }
      assert keys[..i] == keys;
    }

    method SUnion(keys: seq<Bytes>) returns (res: seq<Bytes>)
      ensures Enumerates(res, Query(data, Union, keys))
    {
      var temp := Gather(keys);
      res := Listed(temp);
    }

    method SDiff(keys: seq<Bytes>) returns (res: seq<Bytes>)
      ensures Enumerates(res, Query(data, Diff, keys))
    {
      var temp := Prune(keys);
      res := Listed(temp);
    }

    method StoreNoWal(op: Algebra, to: Bytes, keys: seq<Bytes>)
      modifies this`data
      ensures data == Stored(old(data), op, to, keys)
    {
      hide Query, Elements;
      data := data - {to};
      var mSet: set<Bytes>;
      match op {
        case Inter =>
          var common := SInter(keys);
          mSet := set x | x in common;
          ElementsAre(common);
        case Union => mSet := Gather(keys);
        case Diff => mSet := Prune(keys);
      }
      if |mSet| > 0 {
        data := data[to := mSet];
      } else {
        assert old(data) - {to} - {to} == old(data) - {to};
      }
    }

    method Store(op: Algebra, to: Bytes, keys: seq<Bytes>) returns (n: nat)
      modifies this
      ensures Did(old(data), old(log), SStore(op, to, keys), Changed(n))
    {
      hide Query;
      var res: seq<Bytes>;
      match op {
        case Inter => res := SInter(keys);
        case Union => res := SUnion(keys);
        case Diff => res := SDiff(keys);
      }
      StoreNoWal(op, to, keys);
      log := log + [SStoreRecord(op, to, keys)];
      n := |res|;
    }

    method Delete(key: Bytes)
      modifies this
      ensures Did(old(data), old(log), SDelete(key), Done)
    {
      log := log + [SDeleteRecord(key)];
      data := data - {key};
    }

    method ProcessWalEntry(r: SRecord)
      modifies this
      ensures data == Apply(old(data), r) && log == old(log)
    {
      hide Without, AfterMove, Stored;
      match r {
        case SAddRecord(key, members) => var n := AddNoWal(key, members);
        case SRemRecord(key, members) => var n := RemNoWal(key, members);
        case SPopRecord(key, members) => var n := RemNoWal(key, members);
        case SMoveRecord(from, to, member) => MoveNoWal(from, to, member);
        case SStoreRecord(op, to, keys) => StoreNoWal(op, to, keys);
        case SDeleteRecord(key) => data := data - {key};
      }
    }
  }

  lemma QueryOfNone(st: SState)
    ensures forall op :: Query(st, op, []) == {}
    ensures Enumerates([], {})
  {
  }

  lemma ElementsOfNone(s: seq<Bytes>)
    ensures Elements(s[..0]) == {}
  {
  }

  lemma OneMoreAdded<T>(s: set<T>, t: set<T>, x: T)
    ensures s + (t + {x}) == if x in s + t then s + t else s + t + {x}
    ensures |s + (t + {x}) - s| == |s + t - s| + if x in s + t then 0 else 1
  {
    assert x !in s + t ==> s + (t + {x}) - s == s + t - s + {x};
    assert x in s + t ==> s + (t + {x}) == s + t;
  }

  lemma OneMoreRemoved<T>(s: set<T>, t: set<T>, x: T)
    ensures s - (t + {x}) == if x in s - t then s - t - {x} else s - t
    ensures |s * (t + {x})| == |s * t| + if x in s - t then 1 else 0
  {
    assert x in s - t ==> s * (t + {x}) == s * t + {x};
    assert x !in s - t ==> s * (t + {x}) == s * t;
  }

  lemma ElementsAre(s: seq<Bytes>)
    ensures Elements(s) == set x | x in s
  {
  }

  lemma EnumeratesNone(s: set<Bytes>)
    ensures s - s == {} && Enumerates([], s - s)
  {
  }

  lemma EnumeratesSize(res: seq<Bytes>, s: set<Bytes>)
    requires Enumerates(res, s)
    ensures |res| == |s|
  {
  }
}
