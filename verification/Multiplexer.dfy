/** The multiplexer: instances of the four engines by uuid, the commands on them, what they log and its replay. */
module Multiplexers {
  import opened Ordering
  import opened Collections
  import Decimal
  import K = KvStorage
  import L = ListStorage
  import S = SetStorage
  import Z = ZSetStorage

  datatype Kind = Kv | List | Set | ZSet

  datatype Mux = Mux(
    kvs: map<Bytes, K.KState>,
    lists: map<Bytes, L.LState>,
    sets: map<Bytes, S.SState>,
    zsets: map<Bytes, Z.ZState>,
    maxInstances: int)

  /** A request to an instance. `Read` is one that only reads, and may still answer with an error. */
  datatype Command =
    | OnKv(uuid: Bytes, kv: K.KCommand, now: int)
    | OnList(uuid: Bytes, l: L.LCommand)
    | OnSet(uuid: Bytes, s: S.SCommand)
    | OnZSet(uuid: Bytes, z: Z.ZCommand)
    | Read(kind: Kind, uuid: Bytes, key: Bytes, answers: bool)

  datatype Record =
    | KvRecord(uuid: Bytes, kv: K.KRecord)
    | ListRecord(uuid: Bytes, l: L.LRecord)
    | SetRecord(uuid: Bytes, s: S.SRecord)
    | ZSetRecord(uuid: Bytes, z: Z.ZRecord)
    | CreateRecord(kind: Kind, uuid: Bytes)
    | DropRecord(kind: Kind, uuid: Bytes)

  datatype Outcome = Outcome(mux: Mux, log: seq<Record>, ok: bool)

  function Of<V>(instances: map<Bytes, map<Bytes, V>>, uuid: Bytes): map<Bytes, V>
  {
    if uuid in instances then instances[uuid] else map[]
  }

  predicate Has(m: Mux, kind: Kind, uuid: Bytes)
  {
    match kind
    case Kv => uuid in m.kvs
    case List => uuid in m.lists
    case Set => uuid in m.sets
    case ZSet => uuid in m.zsets
  }

  function KvRecords(uuid: Bytes, log: seq<K.KRecord>): (records: seq<Record>)
    ensures |records| == |log| && forall i :: 0 <= i < |log| ==> records[i] == KvRecord(uuid, log[i])
  {
    seq(|log|, i requires 0 <= i < |log| => KvRecord(uuid, log[i]))
  }

  /** The effect of a command, its records and whether it answers without an error. */
  function Exec(m: Mux, c: Command): Outcome
  {
    match c
    case OnKv(uuid, kv, now) =>
      if uuid !in m.kvs then Outcome(m, [], false)
      else
        var o := K.Exec(m.kvs[uuid], kv, now);
        Outcome(m.(kvs := m.kvs[uuid := o.state]), KvRecords(uuid, o.log),
                !o.reply.NotFound? && !o.reply.Expired? && !o.reply.NotInteger?)
    case OnList(uuid, l) =>
      if uuid !in m.lists then Outcome(m, [], false)
      else
        var o := L.Exec(m.lists[uuid], l);
        Outcome(m.(lists := m.lists[uuid := o.state]),
                seq(|o.log|, i requires 0 <= i < |o.log| => ListRecord(uuid, o.log[i])), !o.reply.NoSuchKey?)
    case OnSet(uuid, s) =>
      if uuid !in m.sets then Outcome(m, [], false)
      else
        var o := S.Exec(m.sets[uuid], s);
        Outcome(m.(sets := m.sets[uuid := o.state]),
                seq(|o.log|, i requires 0 <= i < |o.log| => SetRecord(uuid, o.log[i])), !o.reply.NoSuchKey?)
    case OnZSet(uuid, z) =>
      if uuid !in m.zsets then Outcome(m, [], false)
      else
        var o := Z.Exec(m.zsets[uuid], z);
        Outcome(m.(zsets := m.zsets[uuid := o.state]),
                seq(|o.log|, i requires 0 <= i < |o.log| => ZSetRecord(uuid, o.log[i])), !o.reply.NoSuchKey?)
    case Read(kind, uuid, key, answers) => Outcome(m, [], Has(m, kind, uuid) && answers)
  }

  function TotalInstances(m: Mux): nat
  {
    |m.kvs| + |m.lists| + |m.sets| + |m.zsets|
  }

  function Created(m: Mux, kind: Kind, uuid: Bytes): Mux
  {
    match kind
    case Kv => m.(kvs := m.kvs[uuid := map[]])
    case List => m.(lists := m.lists[uuid := map[]])
    case Set => m.(sets := m.sets[uuid := map[]])
    case ZSet => m.(zsets := m.zsets[uuid := map[]])
  }

  function Deleted(m: Mux, kind: Kind, uuid: Bytes): Mux
  {
    match kind
    case Kv => m.(kvs := m.kvs - {uuid})
    case List => m.(lists := m.lists - {uuid})
    case Set => m.(sets := m.sets - {uuid})
    case ZSet => m.(zsets := m.zsets - {uuid})
  }

  function CreateInstance(m: Mux, kind: Kind, uuid: Bytes): Outcome
  {
    if TotalInstances(m) >= m.maxInstances then Outcome(m, [], false)
    else Outcome(Created(m, kind, uuid), [CreateRecord(kind, uuid)], true)
  }

  function DeleteInstance(m: Mux, kind: Kind, uuid: Bytes): Outcome
  {
    if !Has(m, kind, uuid) then Outcome(m, [], false)
    else Outcome(Deleted(m, kind, uuid), [DropRecord(kind, uuid)], true)
  }

  // ----- when a request fails, and what it leaves alone -----

  ghost predicate KvRefuses(st: K.KState, c: K.KCommand, now: int)
  {
    if c.KSet? || c.KMset? || c.KDelete? then false
    else
      || c.key !in st
      || (st[c.key].expiresAt.Some? && st[c.key].expiresAt.value < now)
      || (!c.KGet? && Decimal.ParseInt(st[c.key].value).None?)
  }

  ghost predicate ListRefuses(st: L.LState, c: L.LCommand)
  {
    match c
    case LPop(_, key) => key !in st || st[key] == []
    case LMove(from, _, _, _) => from !in st || st[from] == []
    case LSet(key, index, _) => key !in st || index < -|st[key]| || index >= |st[key]|
    case _ => false
  }

  ghost predicate SetRefuses(st: S.SState, c: S.SCommand)
  {
    c.SPop? && (c.key !in st || st[c.key] == {})
  }

  ghost predicate ZSetRefuses(st: Z.ZState, c: Z.ZCommand)
  {
    (c.ZPopMax? || c.ZPopMin?) && (c.key !in st || st[c.key] == map[])
  }

  /** The instance is missing, or the engine finds no key, no element or no number it could answer with, or a read does
      not answer. */
  ghost predicate Refuses(m: Mux, c: Command)
  {
    match c
    case OnKv(uuid, kv, now) => uuid !in m.kvs || KvRefuses(m.kvs[uuid], kv, now)
    case OnList(uuid, l) => uuid !in m.lists || ListRefuses(m.lists[uuid], l)
    case OnSet(uuid, s) => uuid !in m.sets || SetRefuses(m.sets[uuid], s)
    case OnZSet(uuid, z) => uuid !in m.zsets || ZSetRefuses(m.zsets[uuid], z)
    case Read(kind, uuid, _, answers) => !Has(m, kind, uuid) || !answers
  }

  /** When an operation fails. */
  lemma FailsExactly(m: Mux, c: Command)
    ensures !Exec(m, c).ok <==> Refuses(m, c)
  {
    hide K.Exec, L.Exec, S.Exec, Z.Exec;
    match c {
      case OnKv(uuid, kv, now) => if uuid in m.kvs { KvFailsExactly(m.kvs[uuid], kv, now); }
      case OnList(uuid, l) => if uuid in m.lists { ListFailsExactly(m.lists[uuid], l); }
      case OnSet(uuid, s) => if uuid in m.sets { SetFailsExactly(m.sets[uuid], s); }
      case OnZSet(uuid, z) => if uuid in m.zsets { ZSetFailsExactly(m.zsets[uuid], z); }
      case Read(_, _, _, _) =>
    }
  }

  lemma KvFailsExactly(st: K.KState, c: K.KCommand, now: int)
    ensures var r := K.Exec(st, c, now).reply; r.NotFound? || r.Expired? || r.NotInteger? <==> KvRefuses(st, c, now)
  {
    hide Decimal.ParseInt, Decimal.FormatInt, Decimal.Wrap64;
  }

  lemma ListFailsExactly(st: L.LState, c: L.LCommand)
    ensures L.Exec(st, c).reply.NoSuchKey? <==> ListRefuses(st, c)
  {
  }

  lemma SetFailsExactly(st: S.SState, c: S.SCommand)
    ensures S.Exec(st, c).reply.NoSuchKey? <==> SetRefuses(st, c)
  {
  }

  lemma ZSetFailsExactly(st: Z.ZState, c: Z.ZCommand)
    ensures Z.Exec(st, c).reply.NoSuchKey? <==> ZSetRefuses(st, c)
  {
  }

  /** A request works on its own instance, which gets the state its engine's command leaves; its records carry the id. */
  lemma ExecWithin(m: Mux, c: Command)
    ensures var m' := Exec(m, c).mux;
      && m'.maxInstances == m.maxInstances
      && m'.kvs == (if c.OnKv? && c.uuid in m.kvs then m.kvs[c.uuid := K.Exec(m.kvs[c.uuid], c.kv, c.now).state] else m.kvs)
      && m'.lists == (if c.OnList? && c.uuid in m.lists then m.lists[c.uuid := L.Exec(m.lists[c.uuid], c.l).state] else m.lists)
      && m'.sets == (if c.OnSet? && c.uuid in m.sets then m.sets[c.uuid := S.Exec(m.sets[c.uuid], c.s).state] else m.sets)
      && m'.zsets == (if c.OnZSet? && c.uuid in m.zsets then m.zsets[c.uuid := Z.Exec(m.zsets[c.uuid], c.z).state] else m.zsets)
      && forall r :: r in Exec(m, c).log ==> r.uuid == c.uuid && !r.CreateRecord? && !r.DropRecord?
  {
    hide K.Exec, L.Exec, S.Exec, Z.Exec;
  }

  /** CREATE makes an empty instance unless there are as many as allowed; all others stay. */
  lemma CreateAnswers(m: Mux, kind: Kind, uuid: Bytes)
    ensures var o := CreateInstance(m, kind, uuid);
      && (o.ok <==> |m.kvs| + |m.lists| + |m.sets| + |m.zsets| < m.maxInstances)
      && (!o.ok ==> o.mux == m && o.log == [])
      && (o.ok ==>
            && o.log == [CreateRecord(kind, uuid)]
            && o.mux.kvs == (if kind == Kv then m.kvs[uuid := map[]] else m.kvs)
            && o.mux.lists == (if kind == List then m.lists[uuid := map[]] else m.lists)
            && o.mux.sets == (if kind == Set then m.sets[uuid := map[]] else m.sets)
            && o.mux.zsets == (if kind == ZSet then m.zsets[uuid := map[]] else m.zsets)
            && o.mux.maxInstances == m.maxInstances)
  {
  }

  /** DELETE_INSTANCE drops the instance, if it is there; all others stay. */
  lemma DeleteAnswers(m: Mux, kind: Kind, uuid: Bytes)
    ensures var o := DeleteInstance(m, kind, uuid);
      && (o.ok <==>
            || (kind == Kv && uuid in m.kvs) || (kind == List && uuid in m.lists)
            || (kind == Set && uuid in m.sets) || (kind == ZSet && uuid in m.zsets))
      && (!o.ok ==> o.mux == m && o.log == [])
      && (o.ok ==>
            && o.log == [DropRecord(kind, uuid)]
            && o.mux.kvs == (if kind == Kv then m.kvs - {uuid} else m.kvs)
            && o.mux.lists == (if kind == List then m.lists - {uuid} else m.lists)
            && o.mux.sets == (if kind == Set then m.sets - {uuid} else m.sets)
            && o.mux.zsets == (if kind == ZSet then m.zsets - {uuid} else m.zsets)
            && o.mux.maxInstances == m.maxInstances)
  {
  }

  /** Replay of one record at time `now`. An instance that is missing is created, but one that is to be deleted must
      be there; `None` is an error or a nil pointer. */
  function Apply(m: Mux, r: Record, now: int): Option<Mux>
  {
    match r
    case KvRecord(uuid, kv) => Some(m.(kvs := m.kvs[uuid := K.Apply(Of(m.kvs, uuid), kv, now)]))
    case ListRecord(uuid, l) =>
      var st := L.Apply(Of(m.lists, uuid), l);
      if st.None? then None else Some(m.(lists := m.lists[uuid := st.value]))
    case SetRecord(uuid, s) => Some(m.(sets := m.sets[uuid := S.Apply(Of(m.sets, uuid), s)]))
    case ZSetRecord(uuid, z) => Some(m.(zsets := m.zsets[uuid := Z.Apply(Of(m.zsets, uuid), z)]))
    case CreateRecord(kind, uuid) => Some(Created(m, kind, uuid))
    case DropRecord(kind, uuid) => if Has(m, kind, uuid) then Some(Deleted(m, kind, uuid)) else None
  }

  function Replay(m: Mux, log: seq<Record>, now: int): Option<Mux>
  {
    if log == [] then Some(m)
    else
      var before := Replay(m, log[..|log| - 1], now);
      if before.None? then None else Apply(before.value, log[|log| - 1], now)
  }

  lemma {:induction false} ReplayAppend(m: Mux, a: seq<Record>, b: seq<Record>, now: int)
    ensures var before := Replay(m, a, now);
      Replay(m, a + b, now) == if before.None? then None else Replay(before.value, b, now)
  {
    if b == [] {
      assert a + b == a;
    } else {
      var n := |b| - 1;
      assert (a + b)[..|a + b| - 1] == a + b[..n];
      ReplayAppend(m, a, b[..n], now);
    }
  }

  lemma ReplayOne(m: Mux, r: Record, now: int)
    ensures Replay(m, [r], now) == Apply(m, r, now)
  {
    assert Replay(m, [], now) == Some(m);
  }

  // ----- what every command keeps -----

  /** No key has a deadline, and no list, set or sorted set is empty. */
  ghost predicate Kept(m: Mux)
  {
    && (forall u :: u in m.kvs ==> K.TtlFree(m.kvs[u]))
    && (forall u :: u in m.lists ==> L.NoEmpty(m.lists[u]))
    && (forall u :: u in m.sets ==> S.NoEmpty(m.sets[u]))
    && (forall u :: u in m.zsets ==> Z.NoEmpty(m.zsets[u]))
  }

  /** Sets no deadline, adds at least one element as the router requires, and gives LSET no negative index. */
  ghost predicate Tame(c: Command)
  {
    match c
    case OnKv(_, kv, _) => K.SetsNoDeadline(kv)
    case OnList(_, l) => (l.LPush? ==> l.values != []) && (l.LSet? ==> l.index >= 0)
    case OnSet(_, s) => s.SAdd? ==> s.members != []
    case OnZSet(_, z) => z.ZAdd? ==> z.members != []
    case Read(_, _, _, _) => true
  }

  lemma {:induction false} ReplayKv(m: Mux, uuid: Bytes, log: seq<K.KRecord>, now: int)
    requires uuid in m.kvs
    ensures Replay(m, KvRecords(uuid, log), now) == Some(m.(kvs := m.kvs[uuid := K.Replay(m.kvs[uuid], log, now)]))
  {
    hide K.Apply;
    if log == [] {
      PutBack(m.kvs, uuid);
    } else {
      var n := |log| - 1;
      ReplayKv(m, uuid, log[..n], now);
      assert KvRecords(uuid, log)[..n] == KvRecords(uuid, log[..n]);
      UpdateTwice(m.kvs, uuid, K.Replay(m.kvs[uuid], log[..n], now), K.Replay(m.kvs[uuid], log, now));
    }
  }

  /** Replaying what a command logged gives the state the command left, whenever it is replayed; and what every
      command keeps is kept. */
  lemma ReplayMatches(m: Mux, c: Command, later: int)
    requires Kept(m) && Tame(c)
    ensures Replay(m, Exec(m, c).log, later) == Some(Exec(m, c).mux)
    ensures Kept(Exec(m, c).mux)
  {
    match c {
      case OnKv(_, _, _) => KvMatches(m, c, later);
      case OnList(_, _) => ListMatches(m, c, later);
      case OnSet(_, _) => SetMatches(m, c, later);
      case OnZSet(_, _) => ZSetMatches(m, c, later);
      case Read(_, _, _, _) =>
    }
  }

  lemma KvMatches(m: Mux, c: Command, later: int)
    requires c.OnKv? && Kept(m) && Tame(c)
    ensures Replay(m, Exec(m, c).log, later) == Some(Exec(m, c).mux)
    ensures Kept(Exec(m, c).mux)
  {
    hide K.Exec, K.Apply, K.Replay, K.TtlFree;
    if c.uuid in m.kvs {
      K.ReplayMatches(m.kvs[c.uuid], c.kv, c.now, later);
      ReplayKv(m, c.uuid, K.Exec(m.kvs[c.uuid], c.kv, c.now).log, later);
    }
  }

  lemma ListMatches(m: Mux, c: Command, later: int)
    requires c.OnList? && Kept(m) && Tame(c)
    ensures Replay(m, Exec(m, c).log, later) == Some(Exec(m, c).mux)
    ensures Kept(Exec(m, c).mux)
  {
    hide L.Exec, L.Apply, L.NoEmpty;
    if c.uuid in m.lists {
      var o := L.Exec(m.lists[c.uuid], c.l);
      L.LogsOneAtMost(m.lists[c.uuid], c.l);
      L.ReplayMatches(m.lists[c.uuid], c.l);
      L.NoEmptyKept(m.lists[c.uuid], c.l);
      if o.log == [] {
        PutBack(m.lists, c.uuid);
      } else {
        L.ReplayOne(m.lists[c.uuid], o.log[0]);
        assert Exec(m, c).log == [ListRecord(c.uuid, o.log[0])];
        ReplayOne(m, ListRecord(c.uuid, o.log[0]), later);
      }
    }
  }

  lemma SetMatches(m: Mux, c: Command, later: int)
    requires c.OnSet? && Kept(m) && Tame(c)
    ensures Replay(m, Exec(m, c).log, later) == Some(Exec(m, c).mux)
    ensures Kept(Exec(m, c).mux)
  {
    hide S.Exec, S.Apply, S.NoEmpty;
    if c.uuid in m.sets {
      var o := S.Exec(m.sets[c.uuid], c.s);
      S.LogsOneAtMost(m.sets[c.uuid], c.s);
      S.ReplayMatches(m.sets[c.uuid], c.s);
      S.NoEmptyKept(m.sets[c.uuid], c.s);
      if o.log == [] {
        PutBack(m.sets, c.uuid);
      } else {
        S.ReplayOne(m.sets[c.uuid], o.log[0]);
        assert Exec(m, c).log == [SetRecord(c.uuid, o.log[0])];
        ReplayOne(m, SetRecord(c.uuid, o.log[0]), later);
      }
    }
  }

  lemma ZSetMatches(m: Mux, c: Command, later: int)
    requires c.OnZSet? && Kept(m) && Tame(c)
    ensures Replay(m, Exec(m, c).log, later) == Some(Exec(m, c).mux)
    ensures Kept(Exec(m, c).mux)
  {
    hide Z.Exec, Z.Apply, Z.NoEmpty;
    if c.uuid in m.zsets {
      var o := Z.Exec(m.zsets[c.uuid], c.z);
      Z.LogsOneAtMost(m.zsets[c.uuid], c.z);
      Z.ReplayMatches(m.zsets[c.uuid], c.z);
      Z.NoEmptyKept(m.zsets[c.uuid], c.z);
      if o.log == [] {
        PutBack(m.zsets, c.uuid);
      } else {
        Z.ReplayOne(m.zsets[c.uuid], o.log[0]);
        assert Exec(m, c).log == [ZSetRecord(c.uuid, o.log[0])];
        ReplayOne(m, ZSetRecord(c.uuid, o.log[0]), later);
      }
    }
  }

  /** A command that is cut off between its records has left the state an earlier, shorter command would leave:
      only MSET logs more than one record. */
  lemma PrefixReplays(m: Mux, c: Command, i: nat, later: int)
    requires Kept(m) && Tame(c) && i <= |Exec(m, c).log|
    ensures var part := Replay(m, Exec(m, c).log[..i], later);
      && part.Some? && Kept(part.value)
      && part.value == if i == |Exec(m, c).log| then Exec(m, c).mux
                       else if c.OnKv? && c.kv.KMset? then Exec(m, c.(kv := K.KMset(c.kv.pairs[..i]))).mux
                       else m
  {
    hide Kept, Apply;
    var log := Exec(m, c).log;
    if i == |log| {
      assert log[..i] == log;
      ReplayMatches(m, c, later);
    } else if c.OnKv? && c.kv.KMset? {
      var c' := c.(kv := K.KMset(c.kv.pairs[..i]));
      MsetPrefix(m, c, i);
      ReplayMatches(m, c', later);
    } else {
      LogsOneUnlessMset(m, c);
      assert log[..i] == [];
    }
  }

  lemma MsetPrefix(m: Mux, c: Command, i: nat)
    requires c.OnKv? && c.kv.KMset? && i <= |Exec(m, c).log|
    ensures i <= |c.kv.pairs| || i == 0
    ensures i <= |c.kv.pairs| ==> Exec(m, c.(kv := K.KMset(c.kv.pairs[..i]))).log == Exec(m, c).log[..i]
  {
  }

  lemma LogsOneUnlessMset(m: Mux, c: Command)
    requires !(c.OnKv? && c.kv.KMset?)
    ensures |Exec(m, c).log| <= 1
  {
    match c {
      case OnKv(uuid, kv, now) =>
      case OnList(uuid, l) => if uuid in m.lists { L.LogsOneAtMost(m.lists[uuid], l); }
      case OnSet(uuid, s) => if uuid in m.sets { S.LogsOneAtMost(m.sets[uuid], s); }
      case OnZSet(uuid, z) => if uuid in m.zsets { Z.LogsOneAtMost(m.zsets[uuid], z); }
      case Read(_, _, _, _) =>
    }
  }

  /** Creating and deleting instances replays to the same instances, too. */
  lemma CreateReplays(m: Mux, kind: Kind, uuid: Bytes, later: int)
    requires Kept(m)
    ensures var c := CreateInstance(m, kind, uuid); Replay(m, c.log, later) == Some(c.mux) && Kept(c.mux)
  {
    hide Kept, Created;
    assert Replay(m, [], later) == Some(m);
    ReplayOne(m, CreateRecord(kind, uuid), later);
    CreatedKept(m, kind, uuid);
  }

  lemma DeleteReplays(m: Mux, kind: Kind, uuid: Bytes, later: int)
    requires Kept(m)
    ensures var d := DeleteInstance(m, kind, uuid); Replay(m, d.log, later) == Some(d.mux) && Kept(d.mux)
  {
    hide Kept, Deleted;
    assert Replay(m, [], later) == Some(m);
    ReplayOne(m, DropRecord(kind, uuid), later);
    DeletedKept(m, kind, uuid);
  }

  lemma CreatedKept(m: Mux, kind: Kind, uuid: Bytes)
    requires Kept(m)
    ensures Kept(Created(m, kind, uuid))
  {
  }

  lemma DeletedKept(m: Mux, kind: Kind, uuid: Bytes)
    requires Kept(m)
    ensures Kept(Deleted(m, kind, uuid))
  {
    hide K.TtlFree, L.NoEmpty, S.NoEmpty, Z.NoEmpty;
  }
}
