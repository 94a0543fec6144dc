/** What a restart shows of the keys of the key-value engine when they have deadlines. */
module Deadlines {
  import opened Ordering
  import opened Collections
  import opened Decimal
  import opened KvStorage

  const SECOND := 1_000_000_000

  // ----- runs of the engine -----

  datatype Event = Run(c: KCommand, now: int) | Cleanup(now: int)

  datatype Engine = Engine(data: KState, log: seq<KRecord>)

  function Step(e: Engine, event: Event): Engine
  {
    match event
    case Run(c, now) => var o := Exec(e.data, c, now); Engine(o.state, e.log + o.log)
    case Cleanup(now) => e.(data := Cleaned(e.data, now))
  }

  /** The engine after the events, from what the snapshot holds and an empty log. */
  function Ran(saved: KState, events: seq<Event>): Engine
  {
    if events == [] then Engine(saved, []) else Step(Ran(saved, events[..|events| - 1]), events[|events| - 1])
  }

  // ----- what is shown of a key -----

  /** What GET answers. */
  function Visible(st: KState, key: Bytes, now: int): Option<Bytes>
  {
    if key in st && !IsExpired(st[key], now) then Some(st[key].value) else None
  }

  lemma VisibleIsAnswered(st: KState, key: Bytes, now: int, value: Bytes)
    ensures Exec(st, KGet(key), now).reply == Got(value) <==> Visible(st, key, now) == Some(value)
  {
  }

  /** Where the last record of a key is. */
  function LastOf(log: seq<KRecord>, key: Bytes): (i: Option<nat>)
    ensures i.Some? ==> i.value < |log| && log[i.value].key == key
    ensures i.None? ==> forall j :: 0 <= j < |log| ==> log[j].key != key
  {
    if log == [] then None
    else
      var n := |log| - 1;
      if log[n].key == key then Some(n) else LastOf(log[..n], key)
  }

  predicate Skipped(r: KRecord, later: int)
  {
    r.SetRecord? && r.deadline.Some? && r.deadline.value < later
  }

  /** What the last record of the key that replay does not skip says, or else the snapshot. */
  function Shown(saved: KState, log: seq<KRecord>, key: Bytes, later: int): Option<Bytes>
  {
    if log == [] then Visible(saved, key, later)
    else
      var r := log[|log| - 1];
      if r.key != key || Skipped(r, later) then Shown(saved, log[..|log| - 1], key, later)
      else if r.SetRecord? then Some(r.value)
      else None
  }

  lemma {:induction false} ReplayShows(saved: KState, log: seq<KRecord>, key: Bytes, later: int)
    ensures Visible(Replay(saved, log, later), key, later) == Shown(saved, log, key, later)
  {
    if log != [] {
      ReplayShows(saved, log[..|log| - 1], key, later);
    }
  }

  /** Records behind the last one of a key do not matter to it. */
  lemma {:induction false} ShownByLast(saved: KState, log: seq<KRecord>, key: Bytes, later: int)
    ensures Shown(saved, log, key, later) ==
      var i := LastOf(log, key);
      if i.None? then Visible(saved, key, later)
      else if Skipped(log[i.value], later) then Shown(saved, log[..i.value], key, later)
      else if log[i.value].SetRecord? then Some(log[i.value].value)
      else None
  {
    if log != [] {
      var n := |log| - 1;
      ShownByLast(saved, log[..n], key, later);
      var i := LastOf(log[..n], key);
      if log[n].key != key && i.Some? {
        assert log[..n][..i.value] == log[..i.value];
      }
    }
  }

  // ----- the live state and the last records -----

  /** What is live under a key is what its last record, or else the snapshot, says, unless its deadline was reached
      by `t` and a cleanup has removed it. */
  ghost predicate Follows(saved: KState, e: Engine, key: Bytes, t: int)
  {
    var i := LastOf(e.log, key);
    if i.None? then
      || Lookup(e.data, key) == Lookup(saved, key)
      || (key !in e.data && key in saved && saved[key].expiresAt.Some? && saved[key].expiresAt.value <= t)
    else
      match e.log[i.value]
      case DeleteRecord(_) => key !in e.data
      case SetRecord(_, value, deadline) =>
        if key in e.data then e.data[key].value == value && Logged(e.data[key].expiresAt) == deadline
        else deadline.Some? && deadline.value <= t
  }

  lemma PutFollows(saved: KState, e: Engine, at: Bytes, payload: Payload, key: Bytes, t: int)
    requires Follows(saved, e, key, t)
    ensures Follows(saved,
      Engine(e.data[at := payload], e.log + [SetRecord(at, payload.value, Logged(payload.expiresAt))]), key, t)
  {
    var r := SetRecord(at, payload.value, Logged(payload.expiresAt));
    assert (e.log + [r])[..|e.log|] == e.log;
  }

  lemma DeleteFollows(saved: KState, e: Engine, at: Bytes, key: Bytes, t: int)
    requires Follows(saved, e, key, t)
    ensures Follows(saved, Engine(e.data - {at}, e.log + [DeleteRecord(at)]), key, t)
  {
    assert (e.log + [DeleteRecord(at)])[..|e.log|] == e.log;
  }

  lemma {:induction false} MsetFollows(saved: KState, e: Engine, pairs: seq<(Bytes, Bytes)>, key: Bytes, t: int)
    requires Follows(saved, e, key, t)
    ensures Follows(saved, Engine(Mset(e.data, pairs), e.log + MsetLog(pairs)), key, t)
  {
    hide Follows;
    if pairs == [] {
      assert e.log + MsetLog(pairs) == e.log;
    } else {
      var n := |pairs| - 1;
      MsetFollows(saved, e, pairs[..n], key, t);
      assert MsetLog(pairs) == MsetLog(pairs[..n]) + [SetRecord(pairs[n].0, pairs[n].1, None)];
      Concat(e.log, MsetLog(pairs[..n]), [SetRecord(pairs[n].0, pairs[n].1, None)]);
      PutFollows(saved, Engine(Mset(e.data, pairs[..n]), e.log + MsetLog(pairs[..n])), pairs[n].0,
                 Payload(pairs[n].1, None), key, t);
    }
  }

  lemma CleanupFollows(saved: KState, e: Engine, now: int, key: Bytes, t: int)
    requires Follows(saved, e, key, t) && now <= t
    ensures Follows(saved, e.(data := Cleaned(e.data, now)), key, t)
  {
  }

  lemma StepFollows(saved: KState, e: Engine, event: Event, key: Bytes, t: int)
    requires Follows(saved, e, key, t) && event.now <= t
    ensures Follows(saved, Step(e, event), key, t)
  {
    hide Follows, Mset, ParseInt, FormatInt, Wrap64;
    match event {
      case Cleanup(now) => CleanupFollows(saved, e, now, key, t);
      case Run(c, now) =>
        assert e.log + [] == e.log;
        match c {
          case KSet(at, value, deadline) => PutFollows(saved, e, at, Payload(value, deadline), key, t);
          case KMset(pairs) => MsetFollows(saved, e, pairs, key, t);
          case KDelete(at) => DeleteFollows(saved, e, at, key, t);
          case KIncr(at) => IncrementFollows(saved, e, at, 1, now, key, t);
          case KDecr(at) => IncrementFollows(saved, e, at, -1, now, key, t);
          case KIncrBy(at, amount) => IncrementFollows(saved, e, at, amount, now, key, t);
          case KDecrBy(at, amount) => IncrementFollows(saved, e, at, Wrap64(-amount), now, key, t);
          case KGet(at) => DeleteFollows(saved, e, at, key, t);
        }
    }
  }

  lemma IncrementFollows(saved: KState, e: Engine, at: Bytes, amount: int, now: int, key: Bytes, t: int)
    requires Follows(saved, e, key, t)
    ensures var o := Increment(e.data, at, amount, now); Follows(saved, Engine(o.state, e.log + o.log), key, t)
  {
    hide Follows, ParseInt, FormatInt, Wrap64;
    assert e.log + [] == e.log;
    DeleteFollows(saved, e, at, key, t);
    if at in e.data && ParseInt(e.data[at].value).Some? {
      var n := Wrap64(ParseInt(e.data[at].value).value + amount);
      PutFollows(saved, e, at, e.data[at].(value := FormatInt(n)), key, t);
    }
  }

  lemma {:induction false} RunFollows(saved: KState, events: seq<Event>, key: Bytes, t: int)
    requires forall event :: event in events ==> event.now <= t
    ensures Follows(saved, Ran(saved, events), key, t)
  {
    hide Follows, Step;
    if events == [] {
      NothingFollows(saved, key, t);
    } else {
      var n := |events| - 1;
      RunFollows(saved, events[..n], key, t);
      StepFollows(saved, Ran(saved, events[..n]), events[n], key, t);
    }
  }

  lemma NothingFollows(saved: KState, key: Bytes, t: int)
    ensures Follows(saved, Engine(saved, []), key, t)
  {
  }

  // ----- what a restart shows -----

  /** Whatever commands and cleanups the engine has run, with whatever deadlines: a restart at a later time shows
      under a key what the live engine shows at that time if the key's last record is not skipped, or there is none.
      If it is skipped, the restart shows what the records before it say, and the live engine nothing, but that a
      deadline within the second is still shown until it passes. So the two agree just when the record is not
      skipped, or what is older happens to be shown live too. */
  lemma RestartShows(saved: KState, events: seq<Event>, key: Bytes, later: int)
    requires forall event :: event in events ==> event.now < later
    ensures var e := Ran(saved, events);
      var i, live := LastOf(e.log, key), Visible(e.data, key, later);
      var restored := Visible(Replay(saved, e.log, later), key, later);
      && (i.None? || !Skipped(e.log[i.value], later) ==> restored == live)
      && (i.Some? && Skipped(e.log[i.value], later) ==>
        && restored == Shown(saved, e.log[..i.value], key, later)
        && (live == None || live == Some(e.log[i.value].value))
        && (live.Some? ==> later < e.log[i.value].deadline.value + SECOND))
      && (restored == live <==>
        i.None? || !Skipped(e.log[i.value], later) || Shown(saved, e.log[..i.value], key, later) == live)
  {
    hide Shown, Replay, Ran;
    var e := Ran(saved, events);
    RunFollows(saved, events, key, later - 1);
    ReplayShows(saved, e.log, key, later);
    ShownByLast(saved, e.log, key, later);
  }

  /** With every deadline a whole second away from the restart: the two agree on a key just when its last record is
      not skipped or no older record or snapshot shows a value. */
  lemma RestartRevives(saved: KState, events: seq<Event>, key: Bytes, later: int)
    requires forall event :: event in events ==> event.now < later
    requires var e := Ran(saved, events);
      forall r :: r in e.log && r.key == key && Skipped(r, later) ==> r.deadline.value + SECOND <= later
    ensures var e := Ran(saved, events);
      var i := LastOf(e.log, key);
      Visible(Replay(saved, e.log, later), key, later) == Visible(e.data, key, later) <==>
        i.None? || !Skipped(e.log[i.value], later) || Shown(saved, e.log[..i.value], key, later) == None
  {
    hide Shown, Replay, Ran, Visible;
    RestartShows(saved, events, key, later);
  }
}
