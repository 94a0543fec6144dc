/** What each command does and answers, said of keys, elements, members and scores alone. */
module Answers {
  import opened Ordering
  import opened Collections
  import SortedSets
  import Decimal
  import K = KvStorage
  import L = ListStorage
  import S = SetStorage
  import Z = ZSetStorage

  /** All keys but one are as they were. */
  ghost predicate Elsewhere<V>(after: map<Bytes, V>, before: map<Bytes, V>, key: Bytes)
  {
    forall k :: k != key ==> (k in after <==> k in before) && (k in before ==> after[k] == before[k])
  }

  // ----- the key-value engine -----

  /** GET answers the value, unless the key is absent or its deadline has passed; then the key goes. */
  lemma GetAnswers(st: K.KState, key: Bytes, now: int)
    ensures var o := K.Exec(st, K.KGet(key), now);
      var late := key in st && st[key].expiresAt.Some? && st[key].expiresAt.value < now;
      && (forall v :: o.reply == K.Got(v) <==> key in st && !late && st[key].value == v)
      && (o.reply == K.NotFound <==> key !in st)
      && (o.reply == K.Expired <==> late)
      && Elsewhere(o.state, st, key)
      && (key in o.state <==> key in st && !late) && (key in o.state ==> o.state[key] == st[key])
      && o.log == if late then [K.DeleteRecord(key)] else []
  {
  }

  /** SET leaves the value with its deadline, which is logged down to the second. */
  lemma SetAnswers(st: K.KState, key: Bytes, value: Bytes, deadline: Option<int>, now: int)
    ensures var o := K.Exec(st, K.KSet(key, value, deadline), now);
      && key in o.state && o.state[key] == K.Payload(value, deadline) && Elsewhere(o.state, st, key)
      && |o.log| == 1 && o.log[0].SetRecord? && o.log[0].key == key && o.log[0].value == value
      && (o.log[0].deadline.Some? <==> deadline.Some?)
      && (deadline.Some? ==>
            var t := o.log[0].deadline.value;
            t % 1_000_000_000 == 0 && t <= deadline.value < t + 1_000_000_000)
  {
  }

  /** MSET leaves under each key the last value given for it, without a deadline, and logs every pair. */
  lemma MsetAnswers(st: K.KState, pairs: seq<(Bytes, Bytes)>, now: int)
    ensures var o := K.Exec(st, K.KMset(pairs), now);
      && (forall i :: 0 <= i < |pairs| && (forall j :: i < j < |pairs| ==> pairs[j].0 != pairs[i].0) ==>
            Lookup(o.state, pairs[i].0) == Some(K.Payload(pairs[i].1, None)))
      && (forall k :: (forall i :: 0 <= i < |pairs| ==> pairs[i].0 != k) ==> Lookup(o.state, k) == Lookup(st, k))
      && |o.log| == |pairs| && forall i :: 0 <= i < |pairs| ==> o.log[i] == K.SetRecord(pairs[i].0, pairs[i].1, None)
  {
    hide K.Mset, Lookup;
    MsetWrites(st, pairs);
  }

  lemma MsetWrites(st: K.KState, pairs: seq<(Bytes, Bytes)>)
    ensures forall i :: 0 <= i < |pairs| && (forall j :: i < j < |pairs| ==> pairs[j].0 != pairs[i].0) ==>
      Lookup(K.Mset(st, pairs), pairs[i].0) == Some(K.Payload(pairs[i].1, None))
    ensures forall k :: (forall i :: 0 <= i < |pairs| ==> pairs[i].0 != k) ==> Lookup(K.Mset(st, pairs), k) == Lookup(st, k)
  {
    hide K.Mset, Lookup;
    forall i | 0 <= i < |pairs| && forall j :: i < j < |pairs| ==> pairs[j].0 != pairs[i].0
      ensures Lookup(K.Mset(st, pairs), pairs[i].0) == Some(K.Payload(pairs[i].1, None))
    {
      MsetLast(st, pairs, i);
    }
    forall k | forall i :: 0 <= i < |pairs| ==> pairs[i].0 != k ensures Lookup(K.Mset(st, pairs), k) == Lookup(st, k) {
      MsetElsewhere(st, pairs, k);
    }
  }

  lemma {:induction false} MsetLast(st: K.KState, pairs: seq<(Bytes, Bytes)>, i: nat)
    requires i < |pairs| && forall j :: i < j < |pairs| ==> pairs[j].0 != pairs[i].0
    ensures Lookup(K.Mset(st, pairs), pairs[i].0) == Some(K.Payload(pairs[i].1, None))
  {
    var n := |pairs| - 1;
    if i < n {
      MsetLast(st, pairs[..n], i);
    }
  }

  lemma {:induction false} MsetElsewhere(st: K.KState, pairs: seq<(Bytes, Bytes)>, k: Bytes)
    requires forall i :: 0 <= i < |pairs| ==> pairs[i].0 != k
    ensures Lookup(K.Mset(st, pairs), k) == Lookup(st, k)
  {
    if pairs != [] {
      MsetElsewhere(st, pairs[..|pairs| - 1], k);
    }
  }

  lemma DeleteAnswers(st: K.KState, key: Bytes, now: int)
    ensures var o := K.Exec(st, K.KDelete(key), now);
      key !in o.state && Elsewhere(o.state, st, key) && o.log == [K.DeleteRecord(key)]
  {
  }

  function Amount(c: K.KCommand): int
    requires c.KIncr? || c.KDecr? || c.KIncrBy? || c.KDecrBy?
  {
    match c
    case KIncr(_) => 1
    case KDecr(_) => -1
    case KIncrBy(_, amount) => amount
    case KDecrBy(_, amount) => -amount
  }

  /** INCR, DECR, INCRBY and DECRBY add their amount, modulo 2^64 and into the 64-bit range, to the number the value
      spells, and keep the deadline. */
  lemma IncrAnswers(st: K.KState, c: K.KCommand, now: int)
    requires c.KIncr? || c.KDecr? || c.KIncrBy? || c.KDecrBy?
    ensures var o, key := K.Exec(st, c, now), c.key;
      var late := key in st && st[key].expiresAt.Some? && st[key].expiresAt.value < now;
      if key !in st then o == K.KOutcome(st, [], K.NotFound)
      else if late then
        o.reply == K.Expired && key !in o.state && Elsewhere(o.state, st, key) && o.log == [K.DeleteRecord(key)]
      else if Decimal.ParseInt(st[key].value).None? then o == K.KOutcome(st, [], K.NotInteger)
      else
        && o.reply.Number? && Decimal.IsInt64(o.reply.n)
        && (o.reply.n - Decimal.ParseInt(st[key].value).value - Amount(c)) % 0x1_0000_0000_0000_0000 == 0
        && key in o.state && o.state[key] == K.Payload(Decimal.FormatInt(o.reply.n), st[key].expiresAt)
        && Elsewhere(o.state, st, key)
        && |o.log| == 1 && o.log[0].SetRecord? && o.log[0].key == key && o.log[0].value == o.state[key].value
        && o.log[0].deadline == K.Logged(st[key].expiresAt)
  {
    hide Decimal.ParseInt, Decimal.FormatInt, Decimal.Wrap64;
    var key := c.key;
    if key in st && Decimal.ParseInt(st[key].value).Some? {
      var n := Decimal.ParseInt(st[key].value).value;
      Decimal.WrapsModulo(n + Amount(c));
      if c.KDecrBy? {
        Decimal.WrapsModulo(-c.amount);
        Decimal.WrapsModulo(n + Decimal.Wrap64(-c.amount));
        Decimal.SameModulo(n, Decimal.Wrap64(-c.amount), -c.amount);
      }
    }
  }

  /** Replay of a record: a SET whose logged deadline is before `now` is skipped. */
  lemma KvReplayAnswers(st: K.KState, r: K.KRecord, now: int)
    ensures var st' := K.Apply(st, r, now);
      && Elsewhere(st', st, r.key)
      && (r.DeleteRecord? ==> r.key !in st')
      && (r.SetRecord? ==>
            if r.deadline.Some? && r.deadline.value < now then st' == st
            else r.key in st' && st'[r.key] == K.Payload(r.value, r.deadline))
  {
  }

  // ----- the list engine -----

  /** LPUSH puts each value in front of the one pushed before it, RPUSH behind it. */
  lemma PushAnswers(st: L.LState, left: bool, key: Bytes, values: seq<Bytes>)
    ensures var o := L.Exec(st, L.LPush(left, key, values));
      var was, n := if key in st then st[key] else [], |values|;
      && key in o.state && |o.state[key]| == |was| + n && Elsewhere(o.state, st, key)
      && (left ==> (forall i :: 0 <= i < n ==> o.state[key][i] == values[n - 1 - i]) && o.state[key][n..] == was)
      && (!left ==> o.state[key][..|was|] == was && o.state[key][|was|..] == values)
      && o.reply == L.Done && o.log == [L.PushRecord(left, key, values)]
  {
  }

  /** LPOP answers and takes the first element, RPOP the last; the key of an emptied list goes. */
  lemma ListPopAnswers(st: L.LState, left: bool, key: Bytes)
    ensures var o := L.Exec(st, L.LPop(left, key));
      if key !in st || st[key] == [] then o == L.LOutcome(st, [], L.NoSuchKey)
      else
        var rest := if key in o.state then o.state[key] else [];
        && o.reply.Element? && st[key] == (if left then [o.reply.value] + rest else rest + [o.reply.value])
        && (key in o.state <==> |st[key]| > 1) && Elsewhere(o.state, st, key)
        && o.log == [L.PopRecord(left, key)]
  {
  }

  /** A move takes from the named end of one list and adds at the named end of another, or of the same. */
  lemma ListMoveAnswers(st: L.LState, from: Bytes, to: Bytes, srcLeft: bool, dstLeft: bool)
    ensures var o := L.Exec(st, L.LMove(from, to, srcLeft, dstLeft));
      if from !in st || st[from] == [] then o == L.LOutcome(st, [], L.NoSuchKey)
      else
        var s := st[from];
        var x, rest := if srcLeft then s[0] else s[|s| - 1], if srcLeft then s[1..] else s[..|s| - 1];
        var was := if to == from then rest else if to in st then st[to] else [];
        && o.reply == L.Element(x) && o.log == [L.MoveRecord(from, to, srcLeft, dstLeft)]
        && to in o.state && o.state[to] == (if dstLeft then [x] + was else was + [x])
        && (from != to ==> (from in o.state <==> rest != []) && (rest != [] ==> o.state[from] == rest))
        && forall k :: k != from && k != to ==> (k in o.state <==> k in st) && (k in st ==> o.state[k] == st[k])
  {
  }

  /** LSET writes at an index counted from the left, or from the right when it is negative, and fails outside the
      list; the index is logged as it was given. */
  lemma LSetAnswers(st: L.LState, key: Bytes, index: int, value: Bytes)
    ensures var o := L.Exec(st, L.LSet(key, index, value));
      var i := if key in st && index < 0 then |st[key]| + index else index;
      if key !in st || i < 0 || i >= |st[key]| then o == L.LOutcome(st, [], L.NoSuchKey)
      else
        && key in o.state && |o.state[key]| == |st[key]| && o.state[key][i] == value && Elsewhere(o.state, st, key)
        && (forall j :: 0 <= j < |st[key]| && j != i ==> o.state[key][j] == st[key][j])
        && o.reply == L.Done && o.log == [L.ReplaceRecord(key, index, value)]
  {
  }

  /** LINSERT puts the value right before, or right behind, the first pivot, and answers the new length; it answers 0
      for an absent key and -1 for an absent pivot. */
  lemma LInsertAnswers(st: L.LState, key: Bytes, pivot: Bytes, value: Bytes, before: bool, i: nat)
    ensures var o := L.Exec(st, L.LInsert(key, pivot, value, before));
      && (key !in st ==> o == L.LOutcome(st, [], L.Length(0)))
      && (key in st && pivot !in st[key] ==> o == L.LOutcome(st, [], L.Length(-1)))
      && (key in st && i < |st[key]| && st[key][i] == pivot && pivot !in st[key][..i] ==>
            var at := if before then i else i + 1;
            && key in o.state && o.state[key] == st[key][..at] + [value] + st[key][at..] && Elsewhere(o.state, st, key)
            && o.reply == L.Length(|st[key]| + 1) && o.log == [L.InsertRecord(key, pivot, value, before)])
  {
    if key in st && i < |st[key]| && st[key][i] == pivot && pivot !in st[key][..i] {
      var j := L.FirstIndex(st[key], pivot).value;
      assert forall m :: 0 <= m < i ==> st[key][m] == st[key][..i][m];
      assert forall m :: 0 <= m < j ==> st[key][m] == st[key][..j][m];
    }
  }

  /** LREM takes the first `count` occurrences, the last `-count`, or with 0 all; fewer when there are fewer. */
  lemma LRemAnswers(st: L.LState, key: Bytes, count: int, value: Bytes) returns (p: nat)
    requires -Decimal.TWO63 < count
    ensures var o := L.Exec(st, L.LRem(key, count, value));
      if key !in st then o == L.LOutcome(st, [], L.Length(0))
      else
        var s, rest := st[key], if key in o.state then o.state[key] else [];
        && p <= |s|
        && (count > 0 ==> rest == L.Others(s[..p], value) + s[p..] && multiset(s[..p])[value] == L.Least(count, multiset(s)[value]))
        && (count < 0 ==> rest == s[..p] + L.Others(s[p..], value) && multiset(s[p..])[value] == L.Least(-count, multiset(s)[value]))
        && (count == 0 ==> rest == L.Others(s, value))
        && (key in o.state <==> rest != []) && Elsewhere(o.state, st, key)
        && o.reply == L.Length(|s| - |rest|)
        && o.log == if |rest| < |s| then [L.RemoveRecord(key, count, value)] else []
  {
    hide L.RemoveFirst, L.RemoveLast, L.Others, L.Occurrences, L.Reach, L.FromRight;
    p := 0;
    if key in st {
      var s := st[key];
      p := L.RemainingSplits(s, count, value);
    }
  }

  lemma ListDeleteAnswers(st: L.LState, key: Bytes)
    ensures var o := L.Exec(st, L.LDelete(key));
      key !in o.state && Elsewhere(o.state, st, key) && o.log == [L.ListDeleteRecord(key)]
  {
  }

  // ----- the set engine -----

  /** SADD adds the members and counts those that were new. */
  lemma SAddAnswers(st: S.SState, key: Bytes, members: seq<Bytes>)
    ensures var o := S.Exec(st, S.SAdd(key, members));
      var was := if key in st then st[key] else {};
      && key in o.state && (forall x :: x in o.state[key] <==> x in was || x in members) && Elsewhere(o.state, st, key)
      && o.reply == S.Changed(|set x | x in members && x !in was|) && o.log == [S.SAddRecord(key, members)]
  {
    var was := if key in st then st[key] else {};
    assert was + Elements(members) - was == set x | x in members && x !in was;
  }

  /** SREM takes the members out and counts those that were there; the key of an emptied set goes, and nothing is logged
      when nothing was removed. */
  lemma SRemAnswers(st: S.SState, key: Bytes, members: seq<Bytes>)
    ensures var o := S.Exec(st, S.SRem(key, members));
      if key !in st then o == S.SOutcome(st, [], S.Changed(0))
      else
        var rest := if key in o.state then o.state[key] else {};
        && (forall x :: x in rest <==> x in st[key] && x !in members) && (key in o.state <==> rest != {})
        && Elsewhere(o.state, st, key)
        && o.reply == S.Changed(|set x | x in st[key] && x in members|)
        && o.log == if exists x :: x in st[key] && x in members then [S.SRemRecord(key, members)] else []
  {
    if key in st {
      var gone := set x | x in st[key] && x in members;
      assert st[key] * Elements(members) == gone;
      assert gone != {} <==> exists x :: x in st[key] && x in members;
    }
  }

  /** SPOP takes what it has chosen; an absent key is an error, and a count that is not positive takes nothing. */
  lemma SetPopAnswers(st: S.SState, key: Bytes, count: int, chosen: seq<Bytes>)
    ensures var o := S.Exec(st, S.SPop(key, count, chosen));
      if key !in st || st[key] == {} then o == S.SOutcome(st, [], S.NoSuchKey)
      else if count <= 0 then o == S.SOutcome(st, [], S.Popped([]))
      else
        var rest := if key in o.state then o.state[key] else {};
        && (forall x :: x in rest <==> x in st[key] && x !in chosen) && (key in o.state <==> rest != {})
        && Elsewhere(o.state, st, key)
        && o.reply == S.Popped(chosen) && o.log == [S.SPopRecord(key, chosen)]
  {
  }

  /** SMOVE takes the member from the one set and adds it to the other, or answers that it was not there. */
  lemma SMoveAnswers(st: S.SState, from: Bytes, to: Bytes, member: Bytes)
    ensures var o := S.Exec(st, S.SMove(from, to, member));
      if from !in st || member !in st[from] then o == S.SOutcome(st, [], S.Moved(false))
      else
        var was, rest := if to in st then st[to] else {}, if from in o.state then o.state[from] else {};
        && to in o.state && (forall x :: x in o.state[to] <==> x in was || x == member)
        && (from != to ==> (forall x :: x in rest <==> x in st[from] && x != member) && (from in o.state <==> rest != {}))
        && (forall k :: k != from && k != to ==> (k in o.state <==> k in st) && (k in st ==> o.state[k] == st[k]))
        && o.reply == S.Moved(true) && o.log == [S.SMoveRecord(from, to, member)]
  {
  }

  /** SINTER, SUNION and SDIFF; a missing key is an empty set. */
  lemma QueryAnswers(st: S.SState, keys: seq<Bytes>, x: Bytes)
    ensures x in S.Query(st, S.Inter, keys) <==> keys != [] && forall k :: k in keys ==> k in st && x in st[k]
    ensures x in S.Query(st, S.Union, keys) <==> exists k :: k in keys && k in st && x in st[k]
    ensures x in S.Query(st, S.Diff, keys) <==>
      keys != [] && keys[0] in st && x in st[keys[0]] && forall i :: 1 <= i < |keys| ==> keys[i] !in st || x !in st[keys[i]]
  {
    forall k ensures x in S.Of(st, k) <==> k in st && x in st[k] {
    }
    if keys != [] {
      assert keys[0] in keys;
      assert forall i :: 1 <= i < |keys| ==> keys[i] == keys[1..][i - 1];
    }
  }

  /** A STORE form stores what its query form gives without the destination, and answers the size of what it gives with
      it; the key of an empty result goes. */
  lemma StoreAnswers(st: S.SState, op: S.Algebra, to: Bytes, keys: seq<Bytes>)
    ensures var o := S.Exec(st, S.SStore(op, to, keys));
      var value := if to in o.state then o.state[to] else {};
      && value == S.Query(st - {to}, op, keys) && (to in o.state <==> value != {}) && Elsewhere(o.state, st, to)
      && o.reply == S.Changed(|S.Query(st, op, keys)|) && o.log == [S.SStoreRecord(op, to, keys)]
  {
    hide S.Query;
  }

  lemma SetDeleteAnswers(st: S.SState, key: Bytes)
    ensures var o := S.Exec(st, S.SDelete(key));
      key !in o.state && Elsewhere(o.state, st, key) && o.log == [S.SDeleteRecord(key)]
  {
  }

  // ----- the sorted-set engine -----

  /** Each member has the last score given for it, and any other what it had. */
  ghost predicate LastGiven(after: Z.Scores, before: Z.Scores, members: seq<Pair>)
  {
    && (forall i :: 0 <= i < |members| && (forall j :: i < j < |members| ==> members[j].ele != members[i].ele) ==>
          Lookup(after, members[i].ele) == Some(members[i].score))
    && (forall m :: (forall i :: 0 <= i < |members| ==> members[i].ele != m) ==> Lookup(after, m) == Lookup(before, m))
  }

  /** ZADD leaves each member with the last score given for it, the others as they were, and counts the new ones. */
  lemma ZAddAnswers(st: Z.ZState, key: Bytes, members: seq<Pair>)
    ensures var o := Z.Exec(st, Z.ZAdd(key, members));
      var was: Z.Scores := if key in st then st[key] else map[];
      && key in o.state && Elsewhere(o.state, st, key)
      && LastGiven(o.state[key], was, members)
      && o.reply == Z.Changed(|set p | p in members && p.ele !in was :: p.ele|)
      && o.log == [Z.ZAddRecord(key, members)]
  {
    hide SortedSets.Added, LastGiven;
    var was: Z.Scores := if key in st then st[key] else map[];
    AddedCount(was, members);
    AddedSays(was, members);
  }

  lemma AddedSays(d: Z.Scores, members: seq<Pair>)
    ensures LastGiven(SortedSets.Added(d, members), d, members)
  {
    hide SortedSets.Added, Lookup;
    forall i | 0 <= i < |members| && forall j :: i < j < |members| ==> members[j].ele != members[i].ele
      ensures Lookup(SortedSets.Added(d, members), members[i].ele) == Some(members[i].score)
    {
      AddedLast(d, members, i);
    }
    forall m | forall i :: 0 <= i < |members| ==> members[i].ele != m
      ensures Lookup(SortedSets.Added(d, members), m) == Lookup(d, m)
    {
      AddedElsewhere(d, members, m);
    }
  }

  lemma {:induction false} AddedLast(d: Z.Scores, members: seq<Pair>, i: nat)
    requires i < |members| && forall j :: i < j < |members| ==> members[j].ele != members[i].ele
    ensures Lookup(SortedSets.Added(d, members), members[i].ele) == Some(members[i].score)
  {
    var n := |members| - 1;
    if i < n {
      AddedLast(d, members[..n], i);
    }
  }

  lemma {:induction false} AddedElsewhere(d: Z.Scores, members: seq<Pair>, m: Bytes)
    requires forall i :: 0 <= i < |members| ==> members[i].ele != m
    ensures Lookup(SortedSets.Added(d, members), m) == Lookup(d, m)
  {
    if members != [] {
      AddedElsewhere(d, members[..|members| - 1], m);
    }
  }

  lemma AddedCount(d: Z.Scores, members: seq<Pair>)
    ensures |SortedSets.Added(d, members)| == |d| + |set p | p in members && p.ele !in d :: p.ele|
  {
    hide SortedSets.Added;
    AddedKeys(d, members);
    var d', added := SortedSets.Added(d, members), set p | p in members && p.ele !in d :: p.ele;
    assert d'.Keys == d.Keys + added && d.Keys !! added;
  }

  lemma {:induction false} AddedKeys(d: Z.Scores, members: seq<Pair>)
    ensures forall m :: m in SortedSets.Added(d, members) <==> m in d || exists p :: p in members && p.ele == m
  {
    if members != [] {
      var n := |members| - 1;
      AddedKeys(d, members[..n]);
      assert members == members[..n] + [members[n]];
      assert forall p :: p in members <==> p in members[..n] || p == members[n];
    }
  }

  /** ZREM takes the members out and counts those that were there; the key of an emptied sorted set goes, and nothing is
      logged when nothing was removed. */
  lemma ZRemAnswers(st: Z.ZState, key: Bytes, names: seq<Bytes>)
    ensures var o := Z.Exec(st, Z.ZRem(key, names));
      if key !in st then o == Z.ZOutcome(st, [], Z.Changed(0))
      else
        var rest: Z.Scores := if key in o.state then o.state[key] else map[];
        && (forall m :: Lookup(rest, m) == if m in names then None else Lookup(st[key], m))
        && (key in o.state <==> rest != map[]) && Elsewhere(o.state, st, key)
        && o.reply == Z.Changed(|set m | m in st[key] && m in names|)
        && o.log == if exists m :: m in st[key] && m in names then [Z.ZRemRecord(key, names)] else []
  {
    if key in st {
      var gone := set m | m in st[key] && m in names;
      assert st[key].Keys * Elements(names) == gone;
      assert gone != {} <==> exists m :: m in st[key] && m in names;
    }
  }

  /** ZINCRBY answers and stores the old score plus the increment, or the increment for a new member. */
  lemma ZIncrByAnswers(st: Z.ZState, key: Bytes, increment: Score, member: Bytes)
    ensures var o := Z.Exec(st, Z.ZIncrBy(key, increment, member));
      var was: Z.Scores := if key in st then st[key] else map[];
      var score := if member in was then was[member] + increment else increment;
      && key in o.state && member in o.state[key] && o.state[key][member] == score && o.reply == Z.NewScore(score)
      && Elsewhere(o.state[key], was, member) && Elsewhere(o.state, st, key)
      && o.log == [Z.ZIncrByRecord(key, increment, member)]
  {
  }

  /** The popped pairs are pairs of the map, in order from its highest or lowest on; what is left is all the others, and
      none of them is beyond a popped one. */
  ghost predicate TakenFromEnd(popped: seq<Pair>, rest: Z.Scores, d: Z.Scores, highest: bool)
  {
    && (forall p :: p in popped ==> p.ele in d && d[p.ele] == p.score)
    && (forall i, j :: 0 <= i < j < |popped| ==> if highest then Less(popped[j], popped[i]) else Less(popped[i], popped[j]))
    && (forall m :: m in rest <==> m in d && Pair(d[m], m) !in popped)
    && (forall m :: m in rest ==> rest[m] == d[m])
    && (forall p, m :: p in popped && m in rest ==> if highest then Less(Pair(rest[m], m), p) else Less(p, Pair(rest[m], m)))
  }

  /** ZPOPMAX takes the highest pairs, highest first, and ZPOPMIN the lowest, lowest first: as many as asked for and
      there. An absent key is an error, and a count that is not positive takes nothing. */
  lemma ZPopAnswers(st: Z.ZState, key: Bytes, highest: bool, count: int)
    ensures var o := Z.Exec(st, if highest then Z.ZPopMax(key, count) else Z.ZPopMin(key, count));
      if key !in st || st[key] == map[] then o == Z.ZOutcome(st, [], Z.NoSuchKey)
      else if count <= 0 then o == Z.ZOutcome(st, [], Z.Popped([]))
      else
        var d: Z.Scores, rest: Z.Scores := st[key], if key in o.state then o.state[key] else map[];
        && o.reply.Popped? && TakenFromEnd(o.reply.members, rest, d, highest)
        && |o.reply.members| == (if count <= |d| then count else |d|)
        && (key in o.state <==> rest != map[]) && Elsewhere(o.state, st, key)
        && o.log == [Z.ZPopRecord(highest, key, o.reply.members)]
  {
    hide TakenFromEnd, Z.Ranked, Elements, SortedSets.Members, Z.Extremes, Z.Dropped;
    if key in st && st[key] != map[] && count > 0 {
      var popped := Z.Extremes(st[key], highest, count);
      Z.PopConserves(st, key, highest, count);
      DroppedSays(st, key, Elements(SortedSets.Members(popped)));
      PoppedIsExtreme(st[key], highest, count);
    }
  }

  lemma DroppedSays(st: Z.ZState, key: Bytes, names: set<Bytes>)
    requires key in st
    ensures var st', rest := Z.Dropped(st, key, names), st[key] - names;
      (key in st' <==> rest != map[]) && (key in st' ==> st'[key] == rest) && Elsewhere(st', st, key)
  {
  }

  lemma PoppedIsExtreme(d: Z.Scores, highest: bool, count: nat)
    ensures var popped := Z.Extremes(d, highest, count);
      TakenFromEnd(popped, d - Elements(SortedSets.Members(popped)), d, highest)
  {
    hide Less, Z.Ranked, Z.Extremes, Elements, SortedSets.Members;
    var popped := Z.Extremes(d, highest, count);
    ExtremesAt(d, highest, count);
    forall m ensures m in Elements(SortedSets.Members(popped)) <==> m in d && Pair(d[m], m) in popped {
      NamesAre(popped, m);
    }
    forall p, m | p in popped && m in d && Pair(d[m], m) !in popped
      ensures if highest then Less(Pair(d[m], m), p) else Less(p, Pair(d[m], m))
    {
      BeyondExtremes(d, highest, count, p, m);
    }
  }

  lemma ExtremesAt(d: Z.Scores, highest: bool, count: nat)
    ensures var s, popped := Z.Ranked(d), Z.Extremes(d, highest, count);
      && |popped| <= |s|
      && (forall i :: 0 <= i < |popped| ==> popped[i] == s[if highest then |s| - 1 - i else i])
      && (forall p :: p in popped ==> p.ele in d && d[p.ele] == p.score)
      && (forall i, j :: 0 <= i < j < |popped| ==> if highest then Less(popped[j], popped[i]) else Less(popped[i], popped[j]))
  {
    hide Less, Z.Ranked, Z.Extremes, SortedSets.Agree;
    var s, popped := Z.Ranked(d), Z.Extremes(d, highest, count);
    ExtremesStand(d, highest, count);
    forall p | p in popped ensures p.ele in d && d[p.ele] == p.score {
      var i :| 0 <= i < |popped| && popped[i] == p;
      RankedHolds(d, if highest then |s| - 1 - i else i);
    }
  }

  lemma ExtremesStand(d: Z.Scores, highest: bool, count: nat)
    ensures var s, popped := Z.Ranked(d), Z.Extremes(d, highest, count);
      |popped| <= |s| && forall i :: 0 <= i < |popped| ==> popped[i] == s[if highest then |s| - 1 - i else i]
  {
    hide Less, Z.Ranked, Sorted, SortedSets.Agree;
  }

  lemma RankedHolds(d: Z.Scores, i: nat)
    requires i < |Z.Ranked(d)|
    ensures var p := Z.Ranked(d)[i]; p.ele in d && d[p.ele] == p.score
  {
    hide Z.Ranked, Sorted;
    assert Z.Ranked(d)[i] in Z.Ranked(d);
  }

  lemma NamesAre(s: seq<Pair>, m: Bytes)
    ensures m in Elements(SortedSets.Members(s)) <==> exists p :: p in s && p.ele == m
  {
    var names := SortedSets.Members(s);
    assert forall i :: 0 <= i < |s| ==> names[i] == s[i].ele;
    if m in names {
      var i :| 0 <= i < |names| && names[i] == m;
      assert s[i] in s;
    }
    if p :| p in s && p.ele == m {
      var i :| 0 <= i < |s| && s[i] == p;
      assert names[i] == m;
    }
  }

  lemma BeyondExtremes(d: Z.Scores, highest: bool, count: nat, p: Pair, m: Bytes)
    requires var popped := Z.Extremes(d, highest, count); p in popped && m in d && Pair(d[m], m) !in popped
    ensures if highest then Less(Pair(d[m], m), p) else Less(p, Pair(d[m], m))
  {
    hide Less, Z.Ranked, Z.Extremes;
    var s, popped := Z.Ranked(d), Z.Extremes(d, highest, count);
    ExtremesAt(d, highest, count);
    var i :| 0 <= i < |popped| && popped[i] == p;
    var j :| 0 <= j < |s| && s[j] == Pair(d[m], m);
    if (if highest then |s| - 1 - j else j) < |popped| {
      AmongExtremes(d, highest, count, j);
    }
  }

  lemma AmongExtremes(d: Z.Scores, highest: bool, count: nat, j: nat)
    requires var s := Z.Ranked(d); j < |s| && (if highest then |s| - 1 - j else j) < |Z.Extremes(d, highest, count)|
    ensures Z.Ranked(d)[j] in Z.Extremes(d, highest, count)
  {
    hide Z.Ranked;
    var s := Z.Ranked(d);
    assert Z.Extremes(d, highest, count)[if highest then |s| - 1 - j else j] == s[j];
  }

  lemma ZDeleteAnswers(st: Z.ZState, key: Bytes)
    ensures var o := Z.Exec(st, Z.ZDelete(key));
      key !in o.state && Elsewhere(o.state, st, key) && o.log == [Z.ZDeleteRecord(key)]
  {
  }
}
