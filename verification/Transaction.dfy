/** Transactions: operations in order, rolled back in reverse when one fails, their records logged as one block. */
module Transactions {
  import opened Ordering
  import opened Collections
  import opened BufferedWals
  import opened Multiplexers
  import opened Recovery
  import opened Undos
  import Decimal
  import K = KvStorage
  import L = ListStorage
  import S = SetStorage
  import Z = ZSetStorage

  // ----- what a transaction means -----

  /** The operations in order, up to the first that fails. */
  function After(m: Mux, ops: seq<Command>): Outcome
  {
    if ops == [] then Outcome(m, [], true)
    else
      var front := After(m, ops[..|ops| - 1]);
      if front.ok then Then(front, ops[|ops| - 1]) else front
  }

  /** A transaction succeeds just when none of its operations fails where it runs; each runs in the state the one
      before has left, and their records follow one another. */
  lemma AfterExactly(m: Mux, ops: seq<Command>)
    ensures After(m, []) == Outcome(m, [], true)
    ensures After(m, ops).ok <==> forall i :: 0 <= i < |ops| ==> !Refuses(After(m, ops[..i]).mux, ops[i])
    ensures After(m, ops).ok ==> forall i :: 0 <= i < |ops| ==>
      var before, after, o := After(m, ops[..i]), After(m, ops[..i + 1]), Exec(After(m, ops[..i]).mux, ops[i]);
      after.mux == o.mux && after.log == before.log + o.log
  {
    hide Exec, Refuses;
    SucceedsUnlessRefused(m, ops);
    if After(m, ops).ok {
      forall i | 0 <= i < |ops|
        ensures var before, after, o := After(m, ops[..i]), After(m, ops[..i + 1]), Exec(After(m, ops[..i]).mux, ops[i]);
          after.mux == o.mux && after.log == before.log + o.log
      {
        if !After(m, ops[..i]).ok {
          AfterFails(m, ops, i);
        }
        AfterStep(m, ops, i);
      }
    }
  }

  lemma {:induction false} SucceedsUnlessRefused(m: Mux, ops: seq<Command>)
    ensures After(m, ops).ok <==> forall i :: 0 <= i < |ops| ==> !Refuses(After(m, ops[..i]).mux, ops[i])
  {
    hide Exec, Refuses;
    if ops != [] {
      var n := |ops| - 1;
      SucceedsUnlessRefused(m, ops[..n]);
      FailsExactly(After(m, ops[..n]).mux, ops[n]);
      assert forall i :: 0 <= i < n ==> ops[..n][..i] == ops[..i] && ops[..n][i] == ops[i];
    }
  }

  /** The undos run last first. */
  function RolledBack(m: Mux, undos: seq<Undo>): Mux
    decreases |undos|
  {
    if undos == [] then m else RolledBack(Undone(m, undos[|undos| - 1]).mux, undos[..|undos| - 1])
  }

  ghost predicate AllCaptured(m: Mux, ops: seq<Command>, undos: seq<Undo>)
  {
    |undos| == |ops| && forall i :: 0 <= i < |ops| ==> Captures(After(m, ops[..i]).mux, ops[i], undos[i])
  }

  /** No deadlines, and the pairs of an MSET as a map gives them. */
  ghost predicate Plain(c: Command)
  {
    (c.OnKv? ==> K.SetsNoDeadline(c.kv)) && DistinctKeys(c)
  }

  /** The requests whose undo takes them back in every state. */
  ghost predicate Covered(c: Command)
  {
    match c
    case OnKv(_, kv, _) => (KvUndone(kv) || kv.KGet?) && K.SetsNoDeadline(kv)
    case OnList(_, l) => l.LMove? ==> l.from == l.to
    case OnSet(_, s) => s.SMove? ==> s.from == s.to
    case OnZSet(_, _) => true
    case Read(_, _, _, _) => true
  }

  lemma CoveredRestores(m: Mux, c: Command)
    requires Covered(c)
    ensures Plain(c) && Restores(m, c)
  {
  }

  lemma TtlFreeKept(m: Mux, c: Command)
    requires TtlFree(m) && Plain(c)
    ensures TtlFree(Exec(m, c).mux)
  {
    hide K.Exec, K.TtlFree;
    if c.OnKv? && c.uuid in m.kvs {
      K.ReplayMatches(m.kvs[c.uuid], c.kv, c.now, c.now);
    }
  }

  lemma {:induction false} AfterTtlFree(m: Mux, ops: seq<Command>)
    requires TtlFree(m) && forall c :: c in ops ==> Plain(c)
    ensures TtlFree(After(m, ops).mux)
  {
    hide TtlFree, Plain, Exec;
    if ops != [] {
      AfterTtlFree(m, ops[..|ops| - 1]);
      TtlFreeKept(After(m, ops[..|ops| - 1]).mux, ops[|ops| - 1]);
    }
  }

  /** Rollback: after operations that all succeeded, the undos in reverse restore every instance, when each operation
      is one that its undo takes back in the state it ran in. */
  lemma {:induction false} RollbackRestores(m: Mux, ops: seq<Command>, undos: seq<Undo>)
    requires TtlFree(m) && After(m, ops).ok && AllCaptured(m, ops, undos)
    requires forall i :: 0 <= i < |ops| ==> Plain(ops[i]) && Restores(After(m, ops[..i]).mux, ops[i])
    ensures RolledBack(After(m, ops).mux, undos) == m
  {
    hide TtlFree, Plain, Exec, Restores, Captures, Undone;
    if ops != [] {
      var n := |ops| - 1;
      var front := After(m, ops[..n]);
      AfterTtlFree(m, ops[..n]);
      assert ops[..n] <= ops && Captures(front.mux, ops[n], undos[n]) && Restores(front.mux, ops[n]);
      PlainIsDistinct(ops[n]);
      UndoExactly(front.mux, ops[n], undos[n]);
      assert forall i :: 0 <= i < n ==> ops[..n][..i] == ops[..i];
      RollbackRestores(m, ops[..n], undos[..n]);
    }
  }

  lemma PlainIsDistinct(c: Command)
    requires Plain(c)
    ensures DistinctKeys(c)
  {
  }

  /** The same for the requests whose undo is right in every state; the operation that failed changed nothing. */
  lemma FailedTransactionRestores(m: Mux, ops: seq<Command>, undos: seq<Undo>)
    requires TtlFree(m) && ops != [] && (forall c :: c in ops ==> Covered(c))
    requires After(m, ops[..|ops| - 1]).ok && !After(m, ops).ok && AllCaptured(m, ops[..|ops| - 1], undos)
    ensures RolledBack(After(m, ops).mux, undos) == m
  {
    hide TtlFree, Plain, Exec, Restores, Captures, Undone, Covered;
    var front, c := ops[..|ops| - 1], ops[|ops| - 1];
    forall i | 0 <= i < |ops| ensures Plain(ops[i]) && Restores(After(m, ops[..i]).mux, ops[i]) {
      CoveredRestores(After(m, ops[..i]).mux, ops[i]);
    }
    assert forall i :: 0 <= i < |front| ==> front[..i] == ops[..i];
    AfterTtlFree(m, front);
    FailureChangesNothing(After(m, front).mux, c);
    RollbackRestores(m, front, undos);
  }

  lemma FiveAndOne()
    ensures Decimal.ParseInt([53]) == Some(5) && Decimal.FormatInt(6) == [54]
  {
    assert Decimal.Value([]) == Some(0);
    assert [53][..0] == [];
    assert Decimal.Value([53]) == Some(5);
  }

  /** INCRBY is not taken back: after this transaction fails, the counter has moved although nothing was logged. */
  lemma IncrByIsNotRolledBack()
    ensures var m := Mux(map[[1] := map[[2] := K.Payload([53], None)]], map[], map[], map[], 1);
      var ops := [OnKv([1], K.KIncrBy([2], 1), 0), OnKv([1], K.KGet([3]), 0)];
      && After(m, ops[..1]).ok && !After(m, ops).ok && AllCaptured(m, ops[..1], [Nothing])
      && RolledBack(After(m, ops).mux, [Nothing]).kvs[[1]][[2]].value == [54]
  {
    hide Decimal.ParseInt, Decimal.FormatInt;
    var m := Mux(map[[1] := map[[2] := K.Payload([53], None)]], map[], map[], map[], 1);
    var ops := [OnKv([1], K.KIncrBy([2], 1), 0), OnKv([1], K.KGet([3]), 0)];
    var c := ops[0];
    assert ops[..1][..0] == [] && ops[..1] == [c] && ops[..0] == [];
    FiveAndOne();
    var one := Exec(m, c);
    assert one.ok && one.mux.kvs[[1]][[2]].value == [54];
    assert After(m, [c]) == Then(Outcome(m, [], true), c);
    assert After(m, ops) == Then(After(m, [c]), ops[1]);
    assert RolledBack(After(m, ops).mux, [Nothing]) == RolledBack(After(m, ops).mux, []);
  }

  /** Nor does RPOPLPUSH between two lists put back the second one. */
  lemma MoveIsNotRolledBack()
    ensures var m := Mux(map[], map[[1] := map[[2] := [[7]]]], map[], map[], 1);
      var c := OnList([1], L.LMove([2], [3], false, true));
      && Exec(m, c).ok
      && forall u :: Captures(m, c, u) ==> Undone(Exec(m, c).mux, u).mux != m
  {
    var m := Mux(map[], map[[1] := map[[2] := [[7]]]], map[], map[], 1);
    var c := OnList([1], L.LMove([2], [3], false, true));
    forall u | Captures(m, c, u) ensures Undone(Exec(m, c).mux, u).mux != m {
      UndoExactly(m, c, u);
    }
  }

  /** Nor does an SMOVE take the member back from the second set. */
  lemma SMoveIsNotRolledBack()
    ensures var m := Mux(map[], map[], map[[1] := map[[2] := {[7]}]], map[], 1);
      var c := OnSet([1], S.SMove([2], [3], [7]));
      && Exec(m, c).ok
      && forall u :: Captures(m, c, u) ==> Undone(Exec(m, c).mux, u).mux != m
  {
    var m := Mux(map[], map[], map[[1] := map[[2] := {[7]}]], map[], 1);
    var c := OnSet([1], S.SMove([2], [3], [7]));
    forall u | Captures(m, c, u) ensures Undone(Exec(m, c).mux, u).mux != m {
      UndoExactly(m, c, u);
    }
  }

  /** Nor is an MSET undone at all. */
  lemma MsetIsNotRolledBack()
    ensures var m := Mux(map[[1] := map[]], map[], map[], map[], 1);
      var c := OnKv([1], K.KMset([([2], [7])]), 0);
      && Exec(m, c).ok
      && forall u :: Captures(m, c, u) ==> u == Nothing && Undone(Exec(m, c).mux, u).mux != m
  {
    var m := Mux(map[[1] := map[]], map[], map[], map[], 1);
    var c := OnKv([1], K.KMset([([2], [7])]), 0);
    forall u | Captures(m, c, u) ensures u == Nothing && Undone(Exec(m, c).mux, u).mux != m {
      UndoExactly(m, c, u);
    }
  }

  // ----- the objects -----

  /** Holds records back while a transaction is active. */
  class TxWalLogger {
    const wal: BufferedWal<Line<Record>>
    var buffer: seq<Record>
    var active: bool

    ghost predicate Valid()
      reads this, wal, wal.physicalWal
    {
      wal.Valid()
    }

    constructor (wal: BufferedWal<Line<Record>>)
      requires wal.Valid()
      ensures Valid() && this.wal == wal && !active && buffer == []
    {
      this.wal, buffer, active := wal, [], false;
    }

    method Log(r: Record)
      requires Valid()
      modifies this`buffer, wal`buffer, wal`history
      ensures Valid()
      ensures buffer == if active then old(buffer) + [r] else old(buffer)
      ensures wal.history == if active then old(wal.history) else old(wal.history) + [Entry(r)]
    {
      if active {
        buffer := buffer + [r];
      } else {
        wal.WriteToWal(Entry(r));
      }
    }

    method BeginTx()
      modifies this
      ensures active && buffer == []
    {
      buffer, active := [], true;
    }

    /** The buffered records go to the log as one block. */
    method CommitTx(id: Bytes)
      requires Valid()
      modifies this, wal`buffer, wal`history
      ensures Valid() && !active
      ensures wal.history == old(wal.history) + if old(active) then BlockLines(Tx(id, old(buffer))) else []
      ensures buffer == if old(active) then [] else old(buffer)
    {
      if !active {
        assert wal.history + [] == wal.history;
        return;
      }
      wal.WriteToWal(Begin(id));
      assert Entries(buffer[..0]) == [] && wal.history == old(wal.history) + ([Begin(id)] + Entries(buffer[..0]));
      var i := 0;
      while i < |buffer|
        invariant 0 <= i <= |buffer| && Valid() && buffer == old(buffer)
        invariant wal.history == old(wal.history) + ([Begin(id)] + Entries(buffer[..i]))
      {
        assert [Begin(id)] + Entries(buffer[..i]) + [Entry(buffer[i])] == [Begin(id)] + Entries(buffer[..i + 1]);
        Concat(old(wal.history), [Begin(id)] + Entries(buffer[..i]), [Entry(buffer[i])]);
        wal.WriteToWal(Entry(buffer[i]));
        i := i + 1;
      }
      assert buffer[..i] == buffer;
      Concat(old(wal.history), [Begin(id)] + Entries(buffer), [Commit(id)]);
      wal.WriteToWal(Commit(id));
      buffer, active := [], false;
    }

    method RollbackTx()
      modifies this
      ensures !active && buffer == []
    {
      buffer, active := [], false;
    }
  }

  /** The live instances, their engines' states as values, and the logger their records go to. */
  class Multiplexer {
    var mux: Mux
    const logger: TxWalLogger

    ghost predicate Valid()
      reads this, logger, logger.wal, logger.wal.physicalWal
    {
      logger.Valid()
    }

    constructor (logger: TxWalLogger, maxInstances: int)
      requires logger.Valid()
      ensures Valid() && this.logger == logger && mux == Mux(map[], map[], map[], map[], maxInstances)
    {
      this.logger := logger;
      mux := Mux(map[], map[], map[], map[], maxInstances);
    }

    /** The records went to the transaction's buffer, or to the log one line each. */
    twostate predicate Logged(log: seq<Record>)
      reads logger, logger.wal
    {
      && logger.active == old(logger.active)
      && logger.buffer == (if logger.active then old(logger.buffer) + log else old(logger.buffer))
      && logger.wal.history == (if logger.active then old(logger.wal.history) else old(logger.wal.history) + Entries(log))
    }

    method LogAll(log: seq<Record>)
      requires Valid()
      modifies logger`buffer, logger.wal`buffer, logger.wal`history
      ensures Valid() && Logged(log)
    {
      var i := 0;
      assert old(logger.buffer) + log[..0] == old(logger.buffer);
      assert old(logger.wal.history) + Entries(log[..0]) == old(logger.wal.history);
      while i < |log|
        invariant 0 <= i <= |log| && Valid() && Logged(log[..i])
      {
        assert log[..i + 1] == log[..i] + [log[i]] && Entries(log[..i + 1]) == Entries(log[..i]) + [Entry(log[i])];
        Concat(old(logger.buffer), log[..i], [log[i]]);
        Concat(old(logger.wal.history), Entries(log[..i]), [Entry(log[i])]);
        logger.Log(log[i]);
        i := i + 1;
      }
      assert log[..i] == log;
    }

    /** One request to an instance: `executeKV` and its like. */
    method Execute(c: Command) returns (ok: bool)
      requires Valid()
      modifies this`mux, logger`buffer, logger.wal`buffer, logger.wal`history
      ensures Valid() && mux == Exec(old(mux), c).mux && ok == Exec(old(mux), c).ok && Logged(Exec(old(mux), c).log)
      ensures ok <==> !Refuses(old(mux), c)
    {
      hide Exec, Refuses;
      FailsExactly(mux, c);
      var o := Exec(mux, c);
      LogAll(o.log);
      mux, ok := o.mux, o.ok;
    }

    method Create(kind: Kind, uuid: Bytes) returns (ok: bool)
      requires Valid()
      modifies this`mux, logger`buffer, logger.wal`buffer, logger.wal`history
      ensures Valid() && var o := CreateInstance(old(mux), kind, uuid); mux == o.mux && ok == o.ok && Logged(o.log)
    {
      hide CreateInstance;
      var o := CreateInstance(mux, kind, uuid);
      LogAll(o.log);
      mux, ok := o.mux, o.ok;
    }

    method Delete(kind: Kind, uuid: Bytes) returns (ok: bool)
      requires Valid()
      modifies this`mux, logger`buffer, logger.wal`buffer, logger.wal`history
      ensures Valid() && var o := DeleteInstance(old(mux), kind, uuid); mux == o.mux && ok == o.ok && Logged(o.log)
    {
      hide DeleteInstance;
      var o := DeleteInstance(mux, kind, uuid);
      LogAll(o.log);
      mux, ok := o.mux, o.ok;
    }

    /** What is under the key, before the operation runs. */
    method CaptureKey(kind: Kind, uuid: Bytes, key: Bytes) returns (u: Undo)
      requires Has(mux, kind, uuid)
      ensures CapturesKey(mux, kind, uuid, key, u)
    {
      match kind {
        case Kv => u := UndoKv(uuid, key, Lookup(mux.kvs[uuid], key));
        case List => u := UndoList(uuid, key, Lookup(mux.lists[uuid], key));
        case Set =>
          if key in mux.sets[uuid] {
            var members := S.Listed(mux.sets[uuid][key]);
            u := UndoSet(uuid, key, Some(members));
          } else {
            u := UndoSet(uuid, key, None);
          }
        case ZSet =>
          u := UndoZSet(uuid, key, if key in mux.zsets[uuid] then Some(Z.Ranked(mux.zsets[uuid][key])) else None);
      }
    }

    /** Whether the instance is there, and then what to restore if a later operation fails. */
    method Capture(c: Command) returns (found: bool, u: Undo)
      ensures found ==> Captures(mux, c, u)
      ensures !found ==> !Exec(mux, c).ok
    {
      hide CapturesKey;
      u := Nothing;
      match c {
        case OnKv(uuid, kv, _) =>
          found := uuid in mux.kvs;
          if found && KvUndone(kv) { u := CaptureKey(Kv, uuid, KvKey(kv)); }
        case OnList(uuid, l) =>
          found := uuid in mux.lists;
          if found { u := CaptureKey(List, uuid, ListKey(l)); }
        case OnSet(uuid, s) =>
          found := uuid in mux.sets;
          if found { u := CaptureKey(Set, uuid, SetKey(s)); }
        case OnZSet(uuid, z) =>
          found := uuid in mux.zsets;
          if found { u := CaptureKey(ZSet, uuid, ZSetKey(z)); }
        case Read(kind, uuid, key, _) =>
          found := Has(mux, kind, uuid);
          if found && !kind.Kv? { u := CaptureKey(kind, uuid, key); }
      }
    }

    /** Captures, then runs. */
    method PrepareAndDo(c: Command) returns (ok: bool, u: Undo)
      requires Valid()
      modifies this`mux, logger`buffer, logger.wal`buffer, logger.wal`history
      ensures Valid() && mux == Exec(old(mux), c).mux && ok == Exec(old(mux), c).ok && Logged(Exec(old(mux), c).log)
      ensures ok ==> Captures(old(mux), c, u)
    {
      hide Exec, Captures, CapturesKey;
      var found: bool;
      found, u := Capture(c);
      ok := Execute(c);
    }

    method Revert(u: Undo)
      requires Valid()
      modifies this`mux, logger`buffer, logger.wal`buffer, logger.wal`history
      ensures Valid() && mux == Undone(old(mux), u).mux && Logged(Undone(old(mux), u).log)
    {
      hide Undone;
      var o := Undone(mux, u);
      LogAll(o.log);
      mux := o.mux;
    }
  }

  datatype TxState = Pending | Committed | RolledBackTx

  class Transaction {
    var ops: seq<Command>
    var state: TxState

    constructor ()
      ensures ops == [] && state == Pending
    {
      ops, state := [], Pending;
    }

    method Add(c: Command) returns (ok: bool)
      modifies this
      ensures ok <==> old(state) == Pending
      ensures state == old(state) && ops == if ok then old(ops) + [c] else old(ops)
    {
      ok := state == Pending;
      if ok {
        ops := ops + [c];
      }
    }

    /** Runs the undos last first. */
    method Rollback(server: Multiplexer, undos: seq<Undo>)
      requires server.Valid() && server.logger.active
      modifies server`mux, server.logger`buffer, server.logger.wal`buffer, server.logger.wal`history
      ensures server.Valid() && server.logger.active && server.mux == RolledBack(old(server.mux), undos)
      ensures server.logger.wal.history == old(server.logger.wal.history)
    {
      hide Undone;
      var j := |undos|;
      assert undos[..j] == undos;
      while j > 0
        invariant 0 <= j <= |undos| && server.Valid() && server.logger.active
        invariant server.logger.wal.history == old(server.logger.wal.history)
        invariant RolledBack(server.mux, undos[..j]) == RolledBack(old(server.mux), undos)
      {
        assert undos[..j][..j - 1] == undos[..j - 1];
        server.Revert(undos[j - 1]);
        j := j - 1;
      }
    }

    /** All operations ran and the state is as after them; or one failed, and what was undone is what had been
        captured before it. */
    method Exec(server: Multiplexer) returns (ok: bool, ghost done: nat, ghost undos: seq<Undo>)
      requires server.Valid() && server.logger.active && server.logger.buffer == []
      modifies this`state, server`mux, server.logger`buffer, server.logger.wal`buffer, server.logger.wal`history
      ensures server.Valid() && server.logger.active
      ensures server.logger.wal.history == old(server.logger.wal.history)
      ensures old(state) != Pending ==> !ok && state == old(state) && server.mux == old(server.mux)
      ensures old(state) == Pending ==> ok == After(old(server.mux), ops).ok && state == if ok then Committed else RolledBackTx
      ensures ok ==> server.mux == After(old(server.mux), ops).mux && server.logger.buffer == After(old(server.mux), ops).log
      ensures old(state) == Pending && !ok ==> (
        && done < |ops| && After(old(server.mux), ops[..done]).ok && !After(old(server.mux), ops[..done + 1]).ok
        && AllCaptured(old(server.mux), ops[..done], undos)
        && server.mux == RolledBack(After(old(server.mux), ops[..done + 1]).mux, undos))
    {
      hide Captures;
      done, undos := 0, [];
      if state != Pending {
        return false, 0, [];
      }
      ghost var m := server.mux;
      var list: seq<Undo> := [];
      var i := 0;
      assert ops[..0] == [];
      while i < |ops|
        invariant 0 <= i <= |ops| && server.Valid() && server.logger.active && state == Pending
        invariant server.logger.wal.history == old(server.logger.wal.history)
        invariant After(m, ops[..i]) == Outcome(server.mux, server.logger.buffer, true)
        invariant AllCaptured(m, ops[..i], list)
      {
        ghost var before := After(m, ops[..i]);
        AfterStep(m, ops, i);
        var succeeded, u := server.PrepareAndDo(ops[i]);
        if !succeeded {
          Rollback(server, list);
          state := RolledBackTx;
          AfterFails(m, ops, i + 1);
          return false, i, list;
        }
        CapturedOneMore(m, ops, i, list, u);
        list := list + [u];
        i := i + 1;
      }
      assert ops[..i] == ops;
      state := Committed;
      ok := true;
    }

    method Discard()
      modifies this
      ensures old(state) == Pending ==> state == RolledBackTx && ops == []
      ensures old(state) != Pending ==> state == old(state) && ops == old(ops)
    {
      if state == Pending {
        ops, state := [], RolledBackTx;
      }
    }
  }

  lemma AfterStep(m: Mux, ops: seq<Command>, i: nat)
    requires i < |ops| && After(m, ops[..i]).ok
    ensures After(m, ops[..i + 1]) == Then(After(m, ops[..i]), ops[i])
  {
    assert ops[..i + 1][..i] == ops[..i];
  }

  /** Nothing runs after an operation that failed. */
  lemma {:induction false} AfterFails(m: Mux, ops: seq<Command>, i: nat)
    requires i <= |ops| && !After(m, ops[..i]).ok
    ensures !After(m, ops).ok && After(m, ops) == After(m, ops[..i])
  {
    if i == |ops| {
      assert ops[..i] == ops;
    } else {
      assert ops[..|ops| - 1][..i] == ops[..i];
      AfterFails(m, ops[..|ops| - 1], i);
    }
  }

  lemma CapturedOneMore(m: Mux, ops: seq<Command>, i: nat, undos: seq<Undo>, u: Undo)
    requires i < |ops| && AllCaptured(m, ops[..i], undos) && Captures(After(m, ops[..i]).mux, ops[i], u)
    ensures AllCaptured(m, ops[..i + 1], undos + [u])
  {
    hide Captures, After;
    forall k | 0 <= k < i + 1 ensures Captures(After(m, ops[..i + 1][..k]).mux, ops[..i + 1][k], (undos + [u])[k]) {
      assert ops[..i + 1][..k] == ops[..k];
      if k < i {
        assert ops[..i][..k] == ops[..k] && ops[..i][k] == ops[k];
      }
    }
  }

  /** Collects the requests of a client between MULTI and EXEC. */
  class TxBuilder {
    var requests: seq<Command>
    const tx: Transaction

    constructor ()
      ensures requests == [] && fresh(tx) && tx.ops == [] && tx.state == Pending
    {
      requests := [];
      tx := new Transaction();
    }

    method Queue(c: Command)
      modifies this`requests
      ensures requests == old(requests) + [c]
    {
      requests := requests + [c];
    }

    /** A transaction that commits leaves the state after its operations and logs their records as one block. One that
        fails logs nothing; and if its requests are covered ones and no key has a deadline, it leaves the state as it
        was. */
    method Exec(txID: Bytes, server: Multiplexer) returns (ok: bool)
      requires server.Valid() && tx.ops == [] && tx.state == Pending
      modifies tx, server`mux, server.logger, server.logger.wal`buffer, server.logger.wal`history
      ensures server.Valid() && !server.logger.active
      ensures ok <==> After(old(server.mux), requests).ok
      ensures ok <==> forall i :: 0 <= i < |requests| ==> !Refuses(After(old(server.mux), requests[..i]).mux, requests[i])
      ensures ok ==> server.mux == After(old(server.mux), requests).mux
      ensures server.logger.wal.history == old(server.logger.wal.history) +
        if ok then BlockLines(Tx(txID, After(old(server.mux), requests).log)) else []
      ensures !ok && TtlFree(old(server.mux)) && (forall c :: c in requests ==> Covered(c)) ==> server.mux == old(server.mux)
    {
      hide Covered, TtlFree, After, Captures, Refuses;
      var i := 0;
      while i < |requests|
        invariant 0 <= i <= |requests| && tx.ops == requests[..i] && tx.state == Pending && server.Valid()
        invariant server.mux == old(server.mux) && server.logger.wal.history == old(server.logger.wal.history)
      {
        assert requests[..i + 1] == requests[..i] + [requests[i]];
        var added := tx.Add(requests[i]);
        i := i + 1;
      }
      assert requests[..i] == requests;
      SucceedsUnlessRefused(old(server.mux), requests);
      server.logger.BeginTx();
      ghost var done, undos;
      ok, done, undos := tx.Exec(server);
      if !ok {
        RestoredIfCovered(old(server.mux), requests, done, undos);
        server.logger.RollbackTx();
        assert old(server.logger.wal.history) + [] == old(server.logger.wal.history);
        return;
      }
      server.logger.CommitTx(txID);
    }
  }

  lemma RestoredIfCovered(m: Mux, ops: seq<Command>, done: nat, undos: seq<Undo>)
    requires done < |ops| && After(m, ops[..done]).ok && !After(m, ops[..done + 1]).ok && AllCaptured(m, ops[..done], undos)
    ensures TtlFree(m) && (forall c :: c in ops ==> Covered(c)) ==> RolledBack(After(m, ops[..done + 1]).mux, undos) == m
  {
    hide Covered, TtlFree, After, Captures;
    if TtlFree(m) && forall c :: c in ops ==> Covered(c) {
      assert ops[..done + 1][..done] == ops[..done];
      FailedTransactionRestores(m, ops[..done + 1], undos);
    }
  }
}
