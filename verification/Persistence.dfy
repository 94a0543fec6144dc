/** Recovery: a restart loads the last snapshot and replays the log, and so arrives at what the live server held. */
module Persistence {
  import opened Ordering
  import opened Collections
  import opened Multiplexers
  import opened Recovery
  import opened Transactions
  import K = KvStorage
  import L = ListStorage

  type Log = seq<Line<Record>>

  /** What Restore arrives at from a snapshot and a log, at time `now`. */
  function Restored(saved: Mux, log: Log, now: int): Option<Mux>
  {
    Replay(saved, Recovered(log), now)
  }

  /** Whenever the restart takes place. */
  ghost predicate RecoversTo(saved: Mux, log: Log, m: Mux)
  {
    forall now :: Restored(saved, log, now) == Some(m)
  }

  // ----- the server as a step system -----

  /** `lines` is everything logged since the snapshot, of which `flushed` lines have reached the physical log.
      `past[n]` is the state the live server was in when `n` lines had been logged, a transaction taking effect with
      the last line of its block. */
  datatype Server = Server(saved: Mux, lines: Log, flushed: nat, live: Mux, past: seq<Mux>)

  datatype Event =
    | Request(c: Command)
    | Transact(id: Bytes, ops: seq<Command>)
    | Create(kind: Kind, uuid: Bytes)
    | Delete(kind: Kind, uuid: Bytes)
    | Flush(upTo: nat)
    | SaveSnapshot
    | Crash(kept: nat, now: int)

  /** The state when the first `i` records of a request have been logged. */
  function Part(m: Mux, c: Command, i: int): Mux
  {
    if i >= |Exec(m, c).log| then Exec(m, c).mux
    else if c.OnKv? && c.kv.KMset? && 0 <= i <= |c.kv.pairs| then Exec(m, c.(kv := K.KMset(c.kv.pairs[..i]))).mux
    else m
  }

  function Parts(m: Mux, c: Command): seq<Mux>
  {
    seq(|Exec(m, c).log|, i => Part(m, c, i + 1))
  }

  /** The states that go with the lines of a transaction's block. */
  function Staged(before: Mux, after: Mux, records: nat): (parts: seq<Mux>)
    ensures |parts| == records + 2 && parts[records + 1] == after
    ensures forall i :: 0 <= i <= records ==> parts[i] == before
  {
    seq(records + 1, _ => before) + [after]
  }

  function Grown(s: Server, added: Log, parts: seq<Mux>, live: Mux): Server
  {
    s.(lines := s.lines + added, live := live, past := s.past + parts)
  }

  /** A request runs and logs its records line by line; a transaction logs one block or, rolled back, nothing; a
      snapshot is taken and the log truncated in one step; a crash keeps some of the flushed lines. */
  function Step(s: Server, e: Event): Server
  {
    match e
    case Request(c) =>
      var o := Exec(s.live, c);
      Grown(s, Entries(o.log), Parts(s.live, c), o.mux)
    case Transact(id, ops) =>
      var o := After(s.live, ops);
      if o.ok then Grown(s, BlockLines(Tx(id, o.log)), Staged(s.live, o.mux, |o.log|), o.mux) else s
    case Create(kind, uuid) =>
      var o := CreateInstance(s.live, kind, uuid);
      Grown(s, Entries(o.log), if o.ok then [o.mux] else [], o.mux)
    case Delete(kind, uuid) =>
      var o := DeleteInstance(s.live, kind, uuid);
      Grown(s, Entries(o.log), if o.ok then [o.mux] else [], o.mux)
    case Flush(upTo) => s.(flushed := upTo)
    case SaveSnapshot => Server(s.live, [], 0, s.live, [s.live])
    case Crash(kept, now) =>
      if kept <= |s.lines| && kept < |s.past| then
        var m := Restored(s.saved, s.lines[..kept], now);
        Server(s.saved, s.lines[..kept], kept, if m.Some? then m.value else s.live, s.past[..kept + 1])
      else s
  }

  /** Which steps the recovery theorem is about: no deadlines, LSET indices counted from the left, new transaction
      ids, failing transactions of requests whose undo is right, and no plain record behind a transaction that an
      earlier crash has cut short. */
  ghost predicate Enabled(s: Server, e: Event)
  {
    match e
    case Request(c) => Tame(c) && (Dangling(s.lines) ==> Exec(s.live, c).log == [])
    case Transact(id, ops) =>
      && id != [] && id !in Begun(s.lines)
      && (forall c :: c in ops ==> Tame(c))
      && (After(s.live, ops).ok || forall c :: c in ops ==> Covered(c))
    case Create(kind, uuid) => Dangling(s.lines) ==> !CreateInstance(s.live, kind, uuid).ok
    case Delete(kind, uuid) => Dangling(s.lines) ==> !DeleteInstance(s.live, kind, uuid).ok
    case Flush(upTo) => s.flushed <= upTo <= |s.lines|
    case SaveSnapshot => true
    case Crash(kept, now) => kept <= s.flushed
  }

  /** Every line-prefix of the log recovers to the state the server was in when that many lines had been logged. */
  ghost predicate Inv(s: Server)
  {
    && s.flushed <= |s.lines| && |s.past| == |s.lines| + 1 && s.past[|s.lines|] == s.live
    && forall n :: 0 <= n <= |s.lines| ==> Kept(s.past[n]) && RecoversTo(s.saved, s.lines[..n], s.past[n])
  }

  // ----- growing the log -----

  /** More records recovered are more records replayed. */
  lemma RecoversMore(saved: Mux, log: Log, log': Log, m: Mux, more: seq<Record>, m': Mux)
    requires RecoversTo(saved, log, m) && Recovered(log') == Recovered(log) + more
    requires forall now :: Replay(m, more, now) == Some(m')
    ensures RecoversTo(saved, log', m')
  {
    hide Replay, Recovered;
    forall now ensures Restored(saved, log', now) == Some(m') {
      assert Restored(saved, log, now) == Some(m);
      ReplayAppend(saved, Recovered(log), more, now);
    }
  }

  lemma {:induction false} EntriesRecovered(log: Log, records: seq<Record>)
    requires !Dangling(log)
    ensures Recovered(log + Entries(records)) == Recovered(log) + records && !Dangling(log + Entries(records))
  {
    hide Recovered, Dangling;
    if records == [] {
      assert log + Entries(records) == log && Recovered(log) + records == Recovered(log);
    } else {
      var n := |records| - 1;
      EntriesRecovered(log, records[..n]);
      AppendSingle(log + Entries(records[..n]), records[n]);
      assert log + Entries(records) == log + Entries(records[..n]) + [Entry(records[n])];
      Snoc(records);
      Concat(Recovered(log), records[..n], [records[n]]);
    }
  }

  lemma {:induction false} AfterReplays(m: Mux, ops: seq<Command>, later: int)
    requires Kept(m) && After(m, ops).ok && forall c :: c in ops ==> Tame(c)
    ensures Replay(m, After(m, ops).log, later) == Some(After(m, ops).mux) && Kept(After(m, ops).mux)
  {
    hide Kept, Tame, Exec, Replay;
    if ops == [] {
      ReplayNothing(m, later);
    } else {
      var front, c := ops[..|ops| - 1], ops[|ops| - 1];
      AfterReplays(m, front, later);
      ReplayMatches(After(m, front).mux, c, later);
      ReplayAppend(m, After(m, front).log, Exec(After(m, front).mux, c).log, later);
    }
  }

  lemma ReplayNothing(m: Mux, now: int)
    ensures Replay(m, [], now) == Some(m)
  {
  }

  // ----- every step keeps recovery -----

  lemma FreshInv(m: Mux)
    requires Kept(m)
    ensures Inv(Server(m, [], 0, m, [m]))
  {
    hide Kept, Replay;
    var none: Log := [];
    assert Recovered(none) == [];
    forall now ensures Restored(m, none, now) == Some(m) {
      ReplayNothing(m, now);
    }
    assert RecoversTo(m, none, m) && none[..0] == none;
  }

  lemma LiveWas(s: Server)
    requires Inv(s)
    ensures Kept(s.live) && RecoversTo(s.saved, s.lines, s.live)
  {
    assert s.lines[..|s.lines|] == s.lines;
  }

  /** The lines of a step, each prefix of which recovers to the state that goes with it. */
  lemma Grows(s: Server, added: Log, parts: seq<Mux>, live: Mux)
    requires Inv(s) && |parts| == |added| && live == if parts == [] then s.live else parts[|parts| - 1]
    requires forall i :: 0 <= i < |added| ==> Kept(parts[i]) && RecoversTo(s.saved, s.lines + added[..i + 1], parts[i])
    ensures Inv(Grown(s, added, parts, live))
  {
    hide RecoversTo, Kept;
    forall n | 0 <= n <= |s.lines + added|
      ensures Kept((s.past + parts)[n]) && RecoversTo(s.saved, (s.lines + added)[..n], (s.past + parts)[n])
    {
      TakeConcat(s.lines, added, n);
      if n <= |s.lines| {
        assert RecoversTo(s.saved, s.lines[..n], s.past[n]);
      } else {
        var i := n - |s.lines| - 1;
        assert Kept(parts[i]) && (s.lines + added)[..n] == s.lines + added[..i + 1];
      }
    }
  }

  lemma RequestKeeps(s: Server, c: Command)
    requires Inv(s) && Enabled(s, Request(c))
    ensures Inv(Step(s, Request(c)))
  {
    hide Kept, Tame, Exec, Inv, RecoversTo, Parts, Part;
    var log, parts := Exec(s.live, c).log, Parts(s.live, c);
    PartsAre(s.live, c);
    forall i | 0 <= i < |log| ensures Kept(parts[i]) && RecoversTo(s.saved, s.lines + Entries(log)[..i + 1], parts[i]) {
      PartKeeps(s, c, i + 1);
    }
    PartKeeps(s, c, 0);
    Grows(s, Entries(log), parts, Exec(s.live, c).mux);
  }

  lemma PartsAre(m: Mux, c: Command)
    ensures var parts := Parts(m, c);
      && |parts| == |Exec(m, c).log| && (forall i :: 0 <= i < |parts| ==> parts[i] == Part(m, c, i + 1))
      && Part(m, c, |parts|) == Exec(m, c).mux
  {
    hide Exec;
  }

  lemma PartKeeps(s: Server, c: Command, i: nat)
    requires Inv(s) && Enabled(s, Request(c)) && i <= |Exec(s.live, c).log|
    ensures Kept(Part(s.live, c, i)) && RecoversTo(s.saved, s.lines + Entries(Exec(s.live, c).log)[..i], Part(s.live, c, i))
    ensures i == 0 ==> Part(s.live, c, i) == s.live
  {
    hide Kept, Tame, Exec, Replay, Recovered, Dangling, RecoversTo, Inv;
    LiveWas(s);
    var m, log := s.live, Exec(s.live, c).log;
    var log' := s.lines + Entries(log)[..i];
    assert Entries(log)[..i] == Entries(log[..i]);
    forall now ensures Replay(m, log[..i], now) == Some(Part(m, c, i)) && Kept(Part(m, c, i)) {
      PrefixReplays(m, c, i, now);
      if c.OnKv? && c.kv.KMset? {
        MsetPrefix(m, c, i);
      }
    }
    if i == 0 {
      assert log[..i] == [];
      ReplayNothing(m, 0);
    }
    if log == [] {
      assert log' == s.lines && Recovered(s.lines) + log[..i] == Recovered(s.lines);
    } else {
      EntriesRecovered(s.lines, log[..i]);
    }
    RecoversMore(s.saved, s.lines, log', m, log[..i], Part(m, c, i));
  }

  lemma TransactKeeps(s: Server, id: Bytes, ops: seq<Command>)
    requires Inv(s) && Enabled(s, Transact(id, ops))
    ensures Inv(Step(s, Transact(id, ops)))
  {
    hide Kept, Tame, After, Recovered, Begun, Inv, RecoversTo, Covered;
    var o := After(s.live, ops);
    LiveWas(s);
    if o.ok {
      var added, parts := BlockLines(Tx(id, o.log)), Staged(s.live, o.mux, |o.log|);
      BlockKeeps(s, id, ops);
      forall i | 0 <= i < |added| ensures Kept(parts[i]) && RecoversTo(s.saved, s.lines + added[..i + 1], parts[i]) {
        if i == |added| - 1 {
          assert added[..i + 1] == added;
        } else {
          BlockPrefixKeeps(s, id, o.log, i + 1);
        }
      }
      Grows(s, added, parts, o.mux);
    }
  }

  lemma BlockKeeps(s: Server, id: Bytes, ops: seq<Command>)
    requires Inv(s) && Enabled(s, Transact(id, ops)) && After(s.live, ops).ok
    ensures var o := After(s.live, ops);
      RecoversTo(s.saved, s.lines + BlockLines(Tx(id, o.log)), o.mux) && Kept(o.mux)
  {
    hide Kept, Tame, After, Recovered, Begun, Replay, BlockLines;
    LiveWas(s);
    var o := After(s.live, ops);
    AppendTx(s.lines, id, o.log);
    forall now ensures Replay(s.live, o.log, now) == Some(o.mux) && Kept(o.mux) {
      AfterReplays(s.live, ops, now);
    }
    AfterReplays(s.live, ops, 0);
    RecoversMore(s.saved, s.lines, s.lines + BlockLines(Tx(id, o.log)), s.live, o.log, o.mux);
  }

  /** A crash within the block recovers the state before the transaction. */
  lemma BlockPrefixKeeps(s: Server, id: Bytes, records: seq<Record>, i: nat)
    requires Inv(s) && id != [] && id !in Begun(s.lines) && 0 < i < |BlockLines(Tx(id, records))|
    ensures RecoversTo(s.saved, s.lines + BlockLines(Tx(id, records))[..i], s.live)
  {
    hide Kept, Recovered, Begun, Replay, BlockLines;
    LiveWas(s);
    CutBlock(s.lines, Tx(id, records), i);
    assert Recovered(s.lines) + [] == Recovered(s.lines);
    forall now ensures Replay(s.live, [], now) == Some(s.live) {
      ReplayNothing(s.live, now);
    }
    RecoversMore(s.saved, s.lines, s.lines + BlockLines(Tx(id, records))[..i], s.live, [], s.live);
  }

  lemma InstanceKeeps(s: Server, e: Event)
    requires Inv(s) && Enabled(s, e) && (e.Create? || e.Delete?)
    ensures Inv(Step(s, e))
  {
    hide Kept, Recovered, Dangling, Replay, Inv, RecoversTo, Created, Deleted;
    LiveWas(s);
    var o := if e.Create? then CreateInstance(s.live, e.kind, e.uuid) else DeleteInstance(s.live, e.kind, e.uuid);
    var added, parts := Entries(o.log), if o.ok then [o.mux] else [];
    forall now ensures Replay(s.live, o.log, now) == Some(o.mux) && Kept(o.mux) {
      if e.Create? { CreateReplays(s.live, e.kind, e.uuid, now); } else { DeleteReplays(s.live, e.kind, e.uuid, now); }
    }
    if o.ok {
      EntriesRecovered(s.lines, o.log);
      RecoversMore(s.saved, s.lines, s.lines + added, s.live, o.log, o.mux);
      assert added[..1] == added;
      assert Kept(o.mux) by { if e.Create? { CreateReplays(s.live, e.kind, e.uuid, 0); } else { DeleteReplays(s.live, e.kind, e.uuid, 0); } }
    }
    Grows(s, added, parts, o.mux);
  }

  /** A restart after a crash comes up in the state that goes with the lines that were kept. */
  lemma CrashKeeps(s: Server, kept: nat, now: int)
    requires Inv(s) && kept <= s.flushed
    ensures Inv(Step(s, Crash(kept, now))) && Step(s, Crash(kept, now)).live == s.past[kept]
  {
    hide Kept, Recovered, Replay;
    assert Restored(s.saved, s.lines[..kept], now) == Some(s.past[kept]);
    assert forall n :: 0 <= n <= kept ==> s.lines[..kept][..n] == s.lines[..n];
  }

  lemma FlushKeeps(s: Server, upTo: nat)
    requires Inv(s) && upTo <= |s.lines|
    ensures Inv(s.(flushed := upTo))
  {
    hide Kept, RecoversTo;
  }

  lemma StepKeeps(s: Server, e: Event)
    requires Inv(s) && Enabled(s, e)
    ensures Inv(Step(s, e))
  {
    hide Inv, Kept;
    LiveWas(s);
    match e {
      case Request(c) => RequestKeeps(s, c);
      case Transact(id, ops) => TransactKeeps(s, id, ops);
      case Create(_, _) => InstanceKeeps(s, e);
      case Delete(_, _) => InstanceKeeps(s, e);
      case Flush(upTo) => FlushKeeps(s, upTo);
      case SaveSnapshot => FreshInv(s.live);
      case Crash(kept, now) => CrashKeeps(s, kept, now);
    }
  }

  // ----- runs -----

  ghost function Run(s: Server, events: seq<Event>): Server
  {
    if events == [] then s else Step(Run(s, events[..|events| - 1]), events[|events| - 1])
  }

  ghost predicate AllEnabled(s: Server, events: seq<Event>)
  {
    forall i :: 0 <= i < |events| ==> Enabled(Run(s, events[..i]), events[i])
  }

  lemma {:induction false} RunKeeps(s: Server, events: seq<Event>)
    requires Inv(s) && AllEnabled(s, events)
    ensures Inv(Run(s, events))
  {
    hide Inv, Enabled, Step;
    if events != [] {
      var n := |events| - 1;
      assert forall i :: 0 <= i < n ==> events[..n][..i] == events[..i];
      RunKeeps(s, events[..n]);
      assert Enabled(Run(s, events[..n]), events[n]);
      StepKeeps(Run(s, events[..n]), events[n]);
    }
  }

  function Empty(maxInstances: int): Server
  {
    var m := Mux(map[], map[], map[], map[], maxInstances);
    Server(m, [], 0, m, [m])
  }

  /** Over every run of requests, transactions, flushes, snapshots and crashes, from an empty server: loading the
      snapshot and replaying the whole log gives the live state, and replaying any line-prefix of the log gives the
      state the server was in when those lines had been logged. */
  lemma RecoveryEqualsLive(maxInstances: int, events: seq<Event>, n: nat, now: int)
    requires AllEnabled(Empty(maxInstances), events)
    ensures var s := Run(Empty(maxInstances), events);
      && Restored(s.saved, s.lines, now) == Some(s.live)
      && |s.past| == |s.lines| + 1
      && (n <= |s.lines| ==> Restored(s.saved, s.lines[..n], now) == Some(s.past[n]))
  {
    hide Restored, Kept, AllEnabled;
    EmptyKept(maxInstances);
    FreshInv(Empty(maxInstances).live);
    RunKeeps(Empty(maxInstances), events);
    var s := Run(Empty(maxInstances), events);
    LiveWas(s);
    if n <= |s.lines| {
      assert RecoversTo(s.saved, s.lines[..n], s.past[n]);
    }
  }

  lemma EmptyKept(maxInstances: int)
    ensures Kept(Empty(maxInstances).live)
  {
  }

  // ----- where the code departs from it -----

  /** Behind a dangling transaction every request is lost, whatever it is and however many lines it logs: a restart
      comes up in the state before it, and the log dangles as before. It is missed just when it changed something.
      (`Recovery.LaterLogIsRecovered` has the condition on the log alone.) */
  lemma RequestBehindDangling(s: Server, c: Command, now: int)
    requires Inv(s) && Dangling(s.lines)
    ensures var s' := Step(s, Request(c));
      && Restored(s'.saved, s'.lines, now) == Some(s.live) && Dangling(s'.lines)
      && (Restored(s'.saved, s'.lines, now) == Some(s'.live) <==> Exec(s.live, c).mux == s.live)
  {
    hide Kept, Exec, Recovered, Dangling, Replay, Parts;
    LiveWas(s);
    EntriesLost(s.lines, Exec(s.live, c).log);
    assert Restored(s.saved, s.lines, now) == Some(s.live);
  }

  lemma {:induction false} EntriesLost(log: Log, records: seq<Record>)
    requires Dangling(log)
    ensures Recovered(log + Entries(records)) == Recovered(log) && Dangling(log + Entries(records))
  {
    hide Recovered, Dangling;
    if records == [] {
      assert log + Entries(records) == log;
    } else {
      var n := |records| - 1;
      EntriesLost(log, records[..n]);
      AppendSingle(log + Entries(records[..n]), records[n]);
      assert log + Entries(records) == log + Entries(records[..n]) + [Entry(records[n])];
      assert Recovered(log) + [] == Recovered(log);
    }
  }

  /** The snapshot saved and the log not truncated: what was buffered is lost, the flushed lines are left. */
  function Untruncated(s: Server): Server
  {
    Server(s.live, if s.flushed <= |s.lines| then s.lines[..s.flushed] else s.lines, s.flushed, s.live, s.past)
  }

  /** A crash between saving the snapshot and truncating the log replays onto the snapshot what it already holds. */
  lemma UntruncatedLogReplaysTwice(now: int)
    ensures var m0 := Mux(map[], map[[1] := map[]], map[], map[], 1);
      var o := Exec(m0, OnList([1], L.LPush(false, [2], [[3]])));
      && Restored(m0, Entries(o.log), now) == Some(o.mux)
      && Restored(o.mux, Entries(o.log), now).Some?
      && Restored(o.mux, Entries(o.log), now).value.lists[[1]][[2]] == [[3], [3]]
  {
    var m0 := Mux(map[], map[[1] := map[]], map[], map[], 1);
    var c := OnList([1], L.LPush(false, [2], [[3]]));
    var o := Exec(m0, c);
    var r := ListRecord([1], L.PushRecord(false, [2], [[3]]));
    assert o.log == [r];
    EntriesRecovered([], [r]);
    assert [] + Entries([r]) == Entries([r]) && Recovered<Record>([]) + [r] == [r];
    ReplayOne(m0, r, now);
    ReplayOne(o.mux, r, now);
    assert o.mux.lists[[1]][[2]] == [[3]];
    assert [[3]] + [[3]] == [[3], [3]];
  }
}
