/** Snapshot, log and live server together: each operation is a step of the system that recovery is proved of. */
module Databases {
  import opened Ordering
  import opened Collections
  import opened BufferedWals
  import opened Multiplexers
  import opened Recovery
  import opened Persistence
  import T = Transactions
  import Undos

  class PersistenceManager {
    const wal: BufferedWal<Line<Record>>
    var saved: Mux      // the state the snapshot file holds

    constructor (wal: BufferedWal<Line<Record>>, maxInstances: int)
      ensures this.wal == wal && saved == Empty(maxInstances).saved
    {
      this.wal := wal;
      saved := Empty(maxInstances).saved;
    }

    /** Collects the transactions begun and not committed. */
    method FirstPass(lines: Log) returns (activeTxs: set<Bytes>)
      ensures activeTxs == Active(lines)
    {
      activeTxs := {};
      var i := 0;
      while i < |lines|
        invariant 0 <= i <= |lines| && activeTxs == Active(lines[..i])
      {
        assert lines[..i + 1][..i] == lines[..i];
        match lines[i] {
          case Begin(id) => activeTxs := activeTxs + {id};
          case Commit(id) => activeTxs := activeTxs - {id};
          case Entry(_) =>
        }
        i := i + 1;
      }
      assert lines[..i] == lines;
    }

    /** Replays the entries outside the incomplete transactions, until one fails. */
    method SecondPass(lines: Log, incompleteTxs: set<Bytes>, start: Mux, now: int) returns (ok: bool, m: Mux)
      ensures Replay(start, Taken(lines, incompleteTxs), now) == if ok then Some(m) else None
    {
      hide Apply;
      m := start;
      var currentTxID: Bytes := [];
      var i := 0;
      while i < |lines|
        invariant 0 <= i <= |lines| && currentTxID == Current(lines[..i])
        invariant Replay(start, Taken(lines[..i], incompleteTxs), now) == Some(m)
      {
        Push(lines[..i], lines[i]);
        PushTaken(lines[..i], lines[i], incompleteTxs);
        assert lines[..i + 1] == lines[..i] + [lines[i]];
        assert Taken(lines[..i], incompleteTxs) + [] == Taken(lines[..i], incompleteTxs);
        match lines[i] {
          case Begin(id) => currentTxID := id;
          case Commit(_) => currentTxID := [];
          case Entry(r) =>
            if currentTxID == [] || currentTxID !in incompleteTxs {
              ReplayAppend(start, Taken(lines[..i], incompleteTxs), [r], now);
              ReplayOne(m, r, now);
              var applied := Apply(m, r, now);
              if applied.None? {
                FailsForGood(start, lines, i + 1, incompleteTxs, now);
                return false, m;
              }
              m := applied.value;
            }
        }
        i := i + 1;
      }
      assert lines[..i] == lines;
      ok := true;
    }

    /** Both passes read the log anew; only an error of the second is reported. When the first has read all of it, what
        is restored is what `Restored` says. */
    method Restore(now: int) returns (ok: bool, m: Mux, ghost seen: Log)
      requires wal.Valid()
      modifies wal`buffer, wal`durable, wal.physicalWal
      ensures wal.Valid() && wal.history == old(wal.history) && seen <= wal.history
      ensures ok ==> wal.buffer == [] && Some(m) == Replay(saved, Taken(wal.history, Active(seen)), now)
      ensures ok && seen == wal.history ==> Some(m) == Restored(saved, wal.history, now)
    {
      hide Replay;
      var read, lines := wal.RecoverFromWal();
      seen := lines;
      var activeTxs := FirstPass(lines);
      read, lines := wal.RecoverFromWal();
      ok, m := SecondPass(lines, activeTxs, saved, now);
      ok := ok && read;
    }

    /** Saving the snapshot may fail and changes nothing then; truncating the log may fail after it. */
    method SaveSnapshot(m: Mux) returns (ok: bool)
      requires wal.Valid()
      modifies this`saved, wal, wal.physicalWal
      ensures wal.Valid()
      ensures ok ==> saved == m && wal.history == [] && wal.buffer == []
      ensures !ok ==> wal.physicalWal.lines == old(wal.physicalWal.lines)
      ensures !ok ==> (saved == old(saved) && wal.history == old(wal.history)) || (saved == m && wal.buffer == [])
    {
      var written := *;
      if !written {
        return false;
      }
      saved := m;
      ok := wal.TruncateWal();
    }
  }

  lemma {:induction false} FailsForGood(start: Mux, lines: Log, i: nat, incomplete: set<Bytes>, now: int)
    requires i <= |lines| && Replay(start, Taken(lines[..i], incomplete), now).None?
    ensures Replay(start, Taken(lines, incomplete), now).None?
  {
    hide Replay;
    if i == |lines| {
      assert lines[..i] == lines;
    } else {
      var front, last := lines[..|lines| - 1], lines[|lines| - 1];
      assert front[..i] == lines[..i];
      FailsForGood(start, front, i, incomplete, now);
      Snoc(lines);
      PushTaken(front, last, incomplete);
      if last.Entry? {
        ReplayAppend(start, Taken(front, incomplete), [last.record], now);
      }
      assert Taken(front, incomplete) + [] == Taken(front, incomplete);
    }
  }

  class Database {
    const manager: PersistenceManager
    const server: T.Multiplexer
    ghost var past: seq<Mux>

    ghost function Abstract(): Server
      reads this, manager, server, manager.wal, manager.wal.physicalWal
    {
      Server(manager.saved, manager.wal.history, |manager.wal.physicalWal.lines|, server.mux, past)
    }

    /** The server and the manager share a log, and no transaction is running. */
    ghost predicate Wired()
      reads this, manager, server, server.logger, manager.wal, manager.wal.physicalWal
    {
      server.logger.wal == manager.wal && manager.wal.Valid() && !server.logger.active
    }

    constructor (maxInstances: int)
      ensures Wired() && Abstract() == Empty(maxInstances) && Inv(Abstract())
    {
      var physical := new PhysicalWal<Line<Record>>();
      var wal := new BufferedWal(physical);
      manager := new PersistenceManager(wal, maxInstances);
      var logger := new T.TxWalLogger(wal);
      server := new T.Multiplexer(logger, maxInstances);
      past := Empty(maxInstances).past;
      EmptyKept(maxInstances);
      FreshInv(Empty(maxInstances).live);
    }

    method Execute(c: Command) returns (ok: bool)
      requires Wired()
      modifies this`past, server`mux, server.logger`buffer, manager.wal`buffer, manager.wal`history
      ensures Wired() && Abstract() == Step(old(Abstract()), Request(c))
      ensures ok == Exec(old(server.mux), c).ok
    {
      hide Exec, Parts;
      past := past + Parts(server.mux, c);
      ok := server.Execute(c);
    }

    /** One step when it commits, and also when it fails, if its undos are right. */
    method Transaction(id: Bytes, builder: T.TxBuilder) returns (ok: bool)
      requires Wired() && builder.tx.ops == [] && builder.tx.state == T.Pending
      modifies this`past, builder.tx, server`mux, server.logger, manager.wal`buffer, manager.wal`history
      ensures Wired() && ok == T.After(old(server.mux), builder.requests).ok
      ensures ok || (Undos.TtlFree(old(server.mux)) && forall c :: c in builder.requests ==> T.Covered(c)) ==>
        Abstract() == Step(old(Abstract()), Transact(id, builder.requests))
    {
      hide Exec, T.After, T.Covered, BlockLines, Undos.TtlFree;
      ghost var o := T.After(server.mux, builder.requests);
      if T.After(server.mux, builder.requests).ok {
        past := past + Staged(server.mux, o.mux, |o.log|);
      }
      ok := builder.Exec(id, server);
      assert old(manager.wal.history) + [] == old(manager.wal.history);
    }

    method Create(kind: Kind, uuid: Bytes) returns (ok: bool)
      requires Wired()
      modifies this`past, server`mux, server.logger`buffer, manager.wal`buffer, manager.wal`history
      ensures Wired() && Abstract() == Step(old(Abstract()), Event.Create(kind, uuid))
    {
      hide CreateInstance;
      ghost var o := CreateInstance(server.mux, kind, uuid);
      past := past + if o.ok then [o.mux] else [];
      ok := server.Create(kind, uuid);
    }

    method Delete(kind: Kind, uuid: Bytes) returns (ok: bool)
      requires Wired()
      modifies this`past, server`mux, server.logger`buffer, manager.wal`buffer, manager.wal`history
      ensures Wired() && Abstract() == Step(old(Abstract()), Event.Delete(kind, uuid))
    {
      hide DeleteInstance;
      ghost var o := DeleteInstance(server.mux, kind, uuid);
      past := past + if o.ok then [o.mux] else [];
      ok := server.Delete(kind, uuid);
    }

    /** However far it gets. */
    method Sync() returns (ok: bool)
      requires Wired()
      modifies manager.wal`buffer, manager.wal`durable, manager.wal.physicalWal
      ensures Wired() && Abstract() == Step(old(Abstract()), Event.Flush(|manager.wal.physicalWal.lines|))
      ensures ok && old(manager.wal.buffer) != [] ==> manager.wal.durable == |manager.wal.history|
    {
      ok := manager.wal.SyncWal();
    }

    /** One step when both the snapshot and the truncation succeed; otherwise nothing changed, or the new snapshot lies
        beside the lines that had been flushed. */
    method Save() returns (ok: bool)
      requires Wired()
      modifies this`past, manager`saved, manager.wal, manager.wal.physicalWal
      ensures Wired() && (ok ==> Abstract() == Step(old(Abstract()), Event.SaveSnapshot))
      ensures !ok ==> Abstract() == old(Abstract()) || Abstract() == Untruncated(old(Abstract()))
    {
      ok := manager.SaveSnapshot(server.mux);
      if ok {
        past := [server.mux];
      }
      assert manager.wal.physicalWal.lines + [] == manager.wal.physicalWal.lines;
    }

    /** A crash loses at most what was logged since the last flush that succeeded. When the first pass has read all the
        lines that are left, the restart comes up in what they restore to: the state that goes with them, if recovery
        held before. */
    method CrashAndRestart(now: int) returns (ok: bool, ghost kept: nat, ghost whole: bool)
      requires Wired()
      modifies this`past, server`mux, server.logger, manager.wal, manager.wal.physicalWal
      ensures Wired() && old(manager.wal.durable) <= kept <= old(|manager.wal.physicalWal.lines|)
      ensures kept <= |old(manager.wal.history)| && manager.wal.history == old(manager.wal.history)[..kept]
      ensures ok && whole ==> Restored(manager.saved, manager.wal.history, now) == Some(server.mux)
      ensures ok && whole && Inv(old(Abstract())) ==>
        Abstract() == Step(old(Abstract()), Event.Crash(kept, now)) && server.mux == old(Abstract()).past[kept]
    {
      hide Inv, Restored, Step;
      ghost var before := Abstract();
      manager.wal.Crash();
      server.logger.RollbackTx();
      kept := |manager.wal.history|;
      var m: Mux;
      ghost var seen;
      ok, m, seen := manager.Restore(now);
      whole := seen == manager.wal.history;
      if ok {
        server.mux := m;
        past := if kept < |past| then past[..kept + 1] else past;
        assert manager.wal.physicalWal.lines + [] == manager.wal.history == before.lines[..kept];
        RestartIsStep(before, kept, now);
      }
    }
  }

  lemma RestartIsStep(s: Server, kept: nat, now: int)
    requires kept <= s.flushed
    ensures Inv(s) ==> (
      && |s.past| == |s.lines| + 1 && s.flushed <= |s.lines|
      && Restored(s.saved, s.lines[..kept], now) == Some(s.past[kept])
      && Step(s, Event.Crash(kept, now)) == Server(s.saved, s.lines[..kept], kept, s.past[kept], s.past[..kept + 1]))
  {
    hide Restored;
    if Inv(s) {
      CrashKeeps(s, kept, now);
      assert RecoversTo(s.saved, s.lines[..kept], s.past[kept]);
    }
  }
}
