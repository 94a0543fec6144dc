/** The key-value engine: payloads with deadlines, the expiration index, and the log. */
module KvStorage {
  import opened Ordering
  import opened Collections
  import opened Decimal
  import opened ExpirationHeaps

  /** Times are nanoseconds. */
  datatype Payload = Payload(value: Bytes, expiresAt: Option<int>)
  type KState = map<Bytes, Payload>

  datatype KRecord =
    | SetRecord(key: Bytes, value: Bytes, deadline: Option<int>)
    | DeleteRecord(key: Bytes)

  datatype KCommand =
    | KSet(key: Bytes, value: Bytes, expiresAt: Option<int>)
    | KMset(pairs: seq<(Bytes, Bytes)>)
    | KDelete(key: Bytes)
    | KIncr(key: Bytes)
    | KDecr(key: Bytes)
    | KIncrBy(key: Bytes, amount: int)
    | KDecrBy(key: Bytes, amount: int)
    | KGet(key: Bytes)

  datatype KReply = Done | Number(n: int) | Got(value: Bytes) | NotFound | Expired | NotInteger

  datatype KOutcome = KOutcome(state: KState, log: seq<KRecord>, reply: KReply)

  predicate IsExpired(p: Payload, now: int)
  {
    p.expiresAt.Some? && p.expiresAt.value < now
  }

  /** A logged deadline keeps whole seconds only. */
  function Logged(deadline: Option<int>): Option<int>
  {
    if deadline.Some? then Some(deadline.value / 1_000_000_000 * 1_000_000_000) else None
  }

  function Mset(st: KState, pairs: seq<(Bytes, Bytes)>): KState
  {
    if pairs == [] then st
    else Mset(st, pairs[..|pairs| - 1])[pairs[|pairs| - 1].0 := Payload(pairs[|pairs| - 1].1, None)]
  }

  function MsetLog(pairs: seq<(Bytes, Bytes)>): (log: seq<KRecord>)
    ensures |log| == |pairs|
  {
    seq(|pairs|, i requires 0 <= i < |pairs| => SetRecord(pairs[i].0, pairs[i].1, None))
  }

  function Increment(st: KState, key: Bytes, amount: int, now: int): KOutcome
  {
    if key !in st then KOutcome(st, [], NotFound)
    else if IsExpired(st[key], now) then KOutcome(st - {key}, [DeleteRecord(key)], Expired)
    else if ParseInt(st[key].value).None? then KOutcome(st, [], NotInteger)
    else
      var n := Wrap64(ParseInt(st[key].value).value + amount);
      KOutcome(st[key := st[key].(value := FormatInt(n))],
               [SetRecord(key, FormatInt(n), Logged(st[key].expiresAt))], Number(n))
  }

  function Exec(st: KState, c: KCommand, now: int): KOutcome
  {
    match c
    case KSet(key, value, expiresAt) =>
      KOutcome(st[key := Payload(value, expiresAt)], [SetRecord(key, value, Logged(expiresAt))], Done)
    case KMset(pairs) => KOutcome(Mset(st, pairs), MsetLog(pairs), Done)
    case KDelete(key) => KOutcome(st - {key}, [DeleteRecord(key)], Done)
    case KIncr(key) => Increment(st, key, 1, now)
    case KDecr(key) => Increment(st, key, -1, now)
    case KIncrBy(key, amount) => Increment(st, key, amount, now)
    case KDecrBy(key, amount) => Increment(st, key, Wrap64(-amount), now)
    case KGet(key) =>
      if key !in st then KOutcome(st, [], NotFound)
      else if IsExpired(st[key], now) then KOutcome(st - {key}, [DeleteRecord(key)], Expired)
      else KOutcome(st, [], Got(st[key].value))
  }

  /** Replaying one record at time `now`: a SET whose deadline has passed is skipped. */
  function Apply(st: KState, r: KRecord, now: int): KState
  {
    match r
    case SetRecord(key, value, deadline) =>
      if deadline.Some? && deadline.value < now then st else st[key := Payload(value, deadline)]
    case DeleteRecord(key) => st - {key}
  }

  function Replay(st: KState, log: seq<KRecord>, now: int): KState
  {
    if log == [] then st else Apply(Replay(st, log[..|log| - 1], now), log[|log| - 1], now)
  }

  /** Without the keys whose deadline has been reached; nothing is logged of them. */
  function Cleaned(st: KState, now: int): KState
  {
    st - (set k | k in st && st[k].expiresAt.Some? && st[k].expiresAt.value <= now)
  }

  ghost predicate TtlFree(st: KState)
  {
    forall key :: key in st ==> st[key].expiresAt == None
  }

  /** The commands that set no deadline. */
  ghost predicate SetsNoDeadline(c: KCommand)
  {
    c.KSet? ==> c.expiresAt == None
  }

  lemma {:induction false} ReplayOne(st: KState, r: KRecord, now: int)
    ensures Replay(st, [r], now) == Apply(st, r, now)
  {
    assert Replay(st, [], now) == st;
  }

  lemma {:induction false} ReplayMset(st: KState, pairs: seq<(Bytes, Bytes)>, now: int)
    ensures Replay(st, MsetLog(pairs), now) == Mset(st, pairs)
    ensures TtlFree(st) ==> TtlFree(Mset(st, pairs))
  {
    if pairs != [] {
      var n := |pairs| - 1;
      ReplayMset(st, pairs[..n], now);
      assert MsetLog(pairs)[..n] == MsetLog(pairs[..n]);
    }
  }

  /** Without deadlines, replaying what a command logged gives the state the command left, whenever it is replayed. */
  lemma {:induction false} ReplayMatches(st: KState, c: KCommand, now: int, later: int)
    requires TtlFree(st) && SetsNoDeadline(c)
    ensures Replay(st, Exec(st, c, now).log, later) == Exec(st, c, now).state
    ensures TtlFree(Exec(st, c, now).state)
  {
    var o := Exec(st, c, now);
    if c.KMset? {
      ReplayMset(st, c.pairs, later);
    } else if |o.log| == 1 {
      ReplayOne(st, o.log[0], later);
    } else {
      assert Replay(st, [], later) == st;
    }
  }

  /** With a deadline the replay is exact just when the deadline is a whole second and has not passed at replay,
      or the skipped record left the very payload that was already there. */
  lemma SetReplayExactly(st: KState, key: Bytes, value: Bytes, deadline: int, now: int, later: int)
    ensures var o := Exec(st, KSet(key, value, Some(deadline)), now);
      Replay(st, o.log, later) == o.state <==>
        (deadline % 1_000_000_000 == 0 && later <= deadline)
        || (Logged(Some(deadline)).value < later && key in st && st[key] == Payload(value, Some(deadline)))
  {
    var o := Exec(st, KSet(key, value, Some(deadline)), now);
    ReplayOne(st, o.log[0], later);
    assert o.state[key] == Payload(value, Some(deadline));
    if key in st && st[key] == Payload(value, Some(deadline)) {
      PutBack(st, key);
    }
    var t := Logged(Some(deadline)).value;
    if t >= later {
      assert Replay(st, o.log, later)[key] == Payload(value, Some(t));
    }
  }

  /** A SET that replay skips leaves the value it had replaced. */
  lemma SkippedSetRevivesOlderValue()
    ensures var st := map[[1] := Payload([2], None)];
      var o := Exec(st, KSet([1], [3], Some(1_000_000_000)), 0);
      && IsExpired(o.state[[1]], 2_000_000_000)
      && Replay(st, o.log, 2_000_000_000)[[1]] == Payload([2], None)
  {
    var st: KState := map[[1] := Payload([2], None)];
    ReplayOne(st, SetRecord([1], [3], Some(1_000_000_000)), 2_000_000_000);
  }

  // ----- the index of deadlines -----

  /** The entries, the map of entries and the payloads with a deadline are in bijection, but for the payload of
      one key that is being changed. */
  ghost predicate Indexed(data: KState, entries: map<Bytes, Entry>, items: seq<Entry>, changing: Option<Bytes>)
  {
    && (forall k :: k in entries ==> entries[k] in items && entries[k].key == k)
    && (forall e :: e in items ==> e.key in entries && entries[e.key] == e)
    && (forall k :: k in entries && changing != Some(k) ==> k in data && data[k].expiresAt == Some(entries[k].expiresAt))
    && (forall k :: k in data && changing != Some(k) && data[k].expiresAt.Some? ==> k in entries)
  }

  class Storage {
    var data: KState
    const expirations: ExpirationHeap
    var expirationMap: map<Bytes, Entry>
    var log: seq<KRecord>

    ghost predicate ValidBut(changing: Option<Bytes>)
      reads this, expirations, expirations.items
    {
      expirations.Valid() && Indexed(data, expirationMap, expirations.items, changing)
    }

    ghost predicate Valid()
      reads this, expirations, expirations.items
    {
      ValidBut(None)
    }

    constructor ()
      ensures Valid() && data == map[] && log == [] && fresh(expirations) && expirations.items == []
    {
      data, expirationMap, log := map[], map[], [];
      expirations := new ExpirationHeap();
    }

    /** Takes the key's entry, if there is one, out of the heap and the map. */
    method DropDeadline(key: Bytes)
      requires ValidBut(Some(key))
      modifies this`expirationMap, expirations, expirations.items
      ensures ValidBut(Some(key)) && key !in expirationMap
      ensures forall i :: 0 <= i < |expirations.items| ==> expirations.items[i] in old(expirations.items)
    {
      if key in expirationMap {
        var entry := expirationMap[key];
        var removed := expirations.HeapRemove(entry.index);
        expirationMap := expirationMap - {key};
      }
    }

    /** Gives the key the entry its payload calls for. */
    method AddDeadline(key: Bytes)
      requires ValidBut(Some(key)) && key !in expirationMap && key in data
      modifies this`expirationMap, expirations, expirations.items
      ensures Valid()
      ensures forall i :: 0 <= i < |expirations.items| ==> expirations.items[i] in old(expirations.items) || fresh(expirations.items[i])
    {
      if data[key].expiresAt.Some? {
        var entry := new Entry(key, data[key].expiresAt.value);
        expirations.HeapPush(entry);
        expirationMap := expirationMap[key := entry];
      }
    }

    method Put(key: Bytes, payload: Payload)
      requires Valid()
      modifies this, expirations, expirations.items
      ensures Valid() && data == old(data)[key := payload] && log == old(log)
      ensures forall i :: 0 <= i < |expirations.items| ==> expirations.items[i] in old(expirations.items) || fresh(expirations.items[i])
    {
      data := data[key := payload];
      DropDeadline(key);
      AddDeadline(key);
    }

    method SetNoLock(key: Bytes, value: Bytes, expiresAt: Option<int>)
      requires Valid()
      modifies this, expirations, expirations.items
      ensures Valid() && forall i :: 0 <= i < |expirations.items| ==> expirations.items[i] in old(expirations.items) || fresh(expirations.items[i])
      ensures data == old(data)[key := Payload(value, expiresAt)]
      ensures log == old(log) + [SetRecord(key, value, Logged(expiresAt))]
    {
      Put(key, Payload(value, expiresAt));
      log := log + [SetRecord(key, value, Logged(expiresAt))];
    }

    method DeleteNoLock(key: Bytes)
      requires Valid()
      modifies this, expirations, expirations.items
      ensures Valid() && data == old(data) - {key} && log == old(log)
      ensures forall i :: 0 <= i < |expirations.items| ==> expirations.items[i] in old(expirations.items)
    {
      data := data - {key};
      DropDeadline(key);
    }

    /** Removes exactly the keys whose deadline has been reached, earliest first. */
    method CleanupExpired(now: int)
      requires Valid()
      modifies this, expirations, expirations.items
      ensures Valid() && log == old(log)
      ensures data == Cleaned(old(data), now)
      ensures forall k :: k in data <==> k in old(data) && !(old(data)[k].expiresAt.Some? && old(data)[k].expiresAt.value <= now)
      ensures forall k :: k in data ==> data[k] == old(data)[k]
      ensures forall i :: 0 <= i < |expirations.items| ==> expirations.items[i].expiresAt > now
      ensures forall i :: 0 <= i < |expirations.items| ==> expirations.items[i] in old(expirations.items)
    {
      hide Indexed, ExpirationHeap.Valid;
      while |expirations.items| > 0
        invariant Valid() && log == old(log)
        invariant forall i :: 0 <= i < |expirations.items| ==> expirations.items[i] in old(expirations.items)
        invariant forall k :: k in data ==> k in old(data) && data[k] == old(data)[k]
        invariant forall k :: k in old(data) && k !in data ==>
          old(data)[k].expiresAt.Some? && old(data)[k].expiresAt.value <= now
        decreases |data|
      {
        var entry := expirations.items[0];
        if entry.expiresAt > now {
          break;
        }
        FirstIsDue(now);
        MinusSize(data, entry.key);
        DeleteNoLock(entry.key);
      }
      FirstBoundsAll(now);
    }

    lemma FirstIsDue(now: int)
      requires Valid() && expirations.items != [] && expirations.items[0].expiresAt <= now
      ensures var k := expirations.items[0].key;
        k in data && data[k].expiresAt.Some? && data[k].expiresAt.value <= now
    {
      assert expirations.items[0] in expirations.items;
    }

    lemma FirstBoundsAll(now: int)
      requires Valid() && (expirations.items == [] || expirations.items[0].expiresAt > now)
      ensures forall k :: k in data && data[k].expiresAt.Some? ==> data[k].expiresAt.value > now
      ensures forall i :: 0 <= i < |expirations.items| ==> expirations.items[i].expiresAt > now
    {
      forall i | 0 <= i < |expirations.items| ensures expirations.items[i].expiresAt > now {
        RootIsFirst(expirations.items, |expirations.items|, i);
      }
      forall k | k in data && data[k].expiresAt.Some? ensures data[k].expiresAt.value > now {
        var e := expirationMap[k];
        var i :| 0 <= i < |expirations.items| && expirations.items[i] == e;
        RootIsFirst(expirations.items, |expirations.items|, i);
      }
    }

    // ----- the commands -----

    /** The state, the log and the reply are those of the command's meaning. */
    ghost predicate Did(before: KState, logged: seq<KRecord>, c: KCommand, now: int, reply: KReply)
      reads this
    {
      KOutcome(data, log, reply) == var o := Exec(before, c, now); o.(log := logged + o.log)
    }

    method Set(key: Bytes, value: Bytes, expiresAt: Option<int>)
      requires Valid()
      modifies this, expirations, expirations.items
      ensures Valid() && forall now :: Did(old(data), old(log), KSet(key, value, expiresAt), now, Done)
    {
      SetNoLock(key, value, expiresAt);
    }

    method MSet(pairs: seq<(Bytes, Bytes)>)
      requires Valid()
      modifies this, expirations, expirations.items
      ensures Valid() && forall now :: Did(old(data), old(log), KMset(pairs), now, Done)
    {
      var i := 0;
      while i < |pairs|
        invariant 0 <= i <= |pairs| && Valid()
        invariant forall k :: 0 <= k < |expirations.items| ==>
          expirations.items[k] in old(expirations.items) || fresh(expirations.items[k])
        invariant data == Mset(old(data), pairs[..i])
        invariant log == old(log) + MsetLog(pairs[..i])
      {
        assert pairs[..i + 1][..i] == pairs[..i];
        assert MsetLog(pairs[..i + 1]) == MsetLog(pairs[..i]) + [SetRecord(pairs[i].0, pairs[i].1, None)];
        SetNoLock(pairs[i].0, pairs[i].1, None);
        i := i + 1;
      }
      assert pairs[..i] == pairs;
    }

    method Delete(key: Bytes)
      requires Valid()
      modifies this, expirations, expirations.items
      ensures Valid() && forall now :: Did(old(data), old(log), KDelete(key), now, Done)
      ensures data == old(data) - {key} && log == old(log) + [DeleteRecord(key)]
    {
      log := log + [DeleteRecord(key)];
      DeleteNoLock(key);
    }

    method IncrementByNoLock(key: Bytes, amount: int, now: int) returns (reply: KReply)
      requires Valid()
      modifies this, expirations, expirations.items
      ensures Valid() && KOutcome(data, log, reply) ==
        var o := Increment(old(data), key, amount, now); o.(log := old(log) + o.log)
    {
      if key !in data {
        return NotFound;
      }
      var payload := data[key];
      if IsExpired(payload, now) {
        log := log + [DeleteRecord(key)];
        DeleteNoLock(key);
        return Expired;
      }
      var n := ParseInt(payload.value);
      if n.None? {
        return NotInteger;
      }
      var sum := Wrap64(n.value + amount);
      data := data[key := payload.(value := FormatInt(sum))];
      log := log + [SetRecord(key, FormatInt(sum), Logged(payload.expiresAt))];
      reply := Number(sum);
    }

    method IncrementOne(key: Bytes, now: int) returns (reply: KReply)
      requires Valid()
      modifies this, expirations, expirations.items
      ensures Valid() && Did(old(data), old(log), KIncr(key), now, reply)
    {
      reply := IncrementByNoLock(key, 1, now);
    }

    method DecrementOne(key: Bytes, now: int) returns (reply: KReply)
      requires Valid()
      modifies this, expirations, expirations.items
      ensures Valid() && Did(old(data), old(log), KDecr(key), now, reply)
    {
      reply := IncrementByNoLock(key, -1, now);
    }

    method IncrementBy(key: Bytes, amount: int, now: int) returns (reply: KReply)
      requires Valid()
      modifies this, expirations, expirations.items
      ensures Valid() && Did(old(data), old(log), KIncrBy(key, amount), now, reply)
    {
      reply := IncrementByNoLock(key, amount, now);
    }

    method DecrementBy(key: Bytes, amount: int, now: int) returns (reply: KReply)
      requires Valid()
      modifies this, expirations, expirations.items
      ensures Valid() && Did(old(data), old(log), KDecrBy(key, amount), now, reply)
    {
      reply := IncrementByNoLock(key, Wrap64(-amount), now);
    }

    method Get(key: Bytes, now: int) returns (reply: KReply)
      requires Valid()
      modifies this, expirations, expirations.items
      ensures Valid() && Did(old(data), old(log), KGet(key), now, reply)
    {
      if key !in data {
        return NotFound;
      }
      if IsExpired(data[key], now) {
        Delete(key);
        return Expired;
      }
      reply := Got(data[key].value);
    }

    method ProcessWalEntry(r: KRecord, now: int)
      requires Valid()
      modifies this, expirations, expirations.items
      ensures Valid() && data == Apply(old(data), r, now) && log == old(log)
    {
      match r {
        case SetRecord(key, value, deadline) =>
          if deadline.Some? && deadline.value < now {
            return;
          }
          Put(key, Payload(value, deadline));
        case DeleteRecord(key) => DeleteNoLock(key);
      }
    }
  }
}
