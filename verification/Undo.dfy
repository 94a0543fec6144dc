/** What a transaction captures before each operation, and what running the undos in reverse restores. */
module Undos {
  import opened Ordering
  import opened Collections
  import opened Multiplexers
  import Decimal
  import SortedSets
  import K = KvStorage
  import L = ListStorage
  import S = SetStorage
  import Z = ZSetStorage

  /** What was under the first key of a request; `None` for no such key. */
  datatype Undo =
    | Nothing
    | UndoKv(uuid: Bytes, key: Bytes, payload: Option<K.Payload>)
    | UndoList(uuid: Bytes, key: Bytes, elements: Option<seq<Bytes>>)
    | UndoSet(uuid: Bytes, key: Bytes, members: Option<seq<Bytes>>)
    | UndoZSet(uuid: Bytes, key: Bytes, pairs: Option<seq<Pair>>)

  function KvKey(c: K.KCommand): Bytes
  {
    match c
    case KSet(key, _, _) => key
    case KMset(pairs) => if pairs == [] then [] else pairs[0].0
    case KDelete(key) => key
    case KIncr(key) => key
    case KDecr(key) => key
    case KIncrBy(key, _) => key
    case KDecrBy(key, _) => key
    case KGet(key) => key
  }

  function ListKey(c: L.LCommand): Bytes
  {
    match c
    case LPush(_, key, _) => key
    case LPop(_, key) => key
    case LMove(from, _, _, _) => from
    case LSet(key, _, _) => key
    case LInsert(key, _, _, _) => key
    case LRem(key, _, _) => key
    case LDelete(key) => key
  }

  function SetKey(c: S.SCommand): Bytes
  {
    match c
    case SAdd(key, _) => key
    case SRem(key, _) => key
    case SPop(key, _, _) => key
    case SMove(from, _, _) => from
    case SStore(_, to, _) => to
    case SDelete(key) => key
  }

  function ZSetKey(c: Z.ZCommand): Bytes
  {
    match c
    case ZAdd(key, _) => key
    case ZRem(key, _) => key
    case ZIncrBy(key, _, _) => key
    case ZPopMax(key, _) => key
    case ZPopMin(key, _) => key
    case ZDelete(key) => key
  }

  /** The kv requests an undo is built for: the list spells INCR_BY and DECR_BY, which no request uses. */
  predicate KvUndone(c: K.KCommand)
  {
    c.KSet? || c.KDelete? || c.KIncr? || c.KDecr?
  }

  /** What the builder captures of an instance that exists; the members of a set come in any order. */
  ghost predicate CapturesKey(m: Mux, kind: Kind, uuid: Bytes, key: Bytes, u: Undo)
    requires Has(m, kind, uuid)
  {
    match kind
    case Kv => u == UndoKv(uuid, key, Lookup(m.kvs[uuid], key))
    case List => u == UndoList(uuid, key, Lookup(m.lists[uuid], key))
    case Set =>
      && u.UndoSet? && u.uuid == uuid && u.key == key
      && (u.members.Some? <==> key in m.sets[uuid])
      && (u.members.Some? ==> S.Enumerates(u.members.value, m.sets[uuid][key]))
    case ZSet =>
      && u.UndoZSet? && u.uuid == uuid && u.key == key
      && (u.pairs.Some? <==> key in m.zsets[uuid])
      && (u.pairs.Some? ==> u.pairs.value == Z.Ranked(m.zsets[uuid][key]))
  }

  ghost predicate Captures(m: Mux, c: Command, u: Undo)
  {
    match c
    case OnKv(uuid, kv, _) => uuid in m.kvs && if KvUndone(kv) then CapturesKey(m, Kv, uuid, KvKey(kv), u) else u == Nothing
    case OnList(uuid, l) => uuid in m.lists && CapturesKey(m, List, uuid, ListKey(l), u)
    case OnSet(uuid, s) => uuid in m.sets && CapturesKey(m, Set, uuid, SetKey(s), u)
    case OnZSet(uuid, z) => uuid in m.zsets && CapturesKey(m, ZSet, uuid, ZSetKey(z), u)
    case Read(kind, uuid, key, _) => Has(m, kind, uuid) && if kind.Kv? then u == Nothing else CapturesKey(m, kind, uuid, key, u)
  }

  function Then(o: Outcome, c: Command): Outcome
  {
    var o' := Exec(o.mux, c);
    Outcome(o'.mux, o.log + o'.log, o'.ok)
  }

  /** An undo goes through the engine's own commands: it sets the old value, or deletes the key and adds again what
      it held. */
  function Undone(m: Mux, u: Undo): Outcome
  {
    match u
    case Nothing => Outcome(m, [], true)
    case UndoKv(uuid, key, Some(p)) => Exec(m, OnKv(uuid, K.KSet(key, p.value, p.expiresAt), 0))
    case UndoKv(uuid, key, None) => Exec(m, OnKv(uuid, K.KDelete(key), 0))
    case UndoList(uuid, key, elements) =>
      var o := Exec(m, OnList(uuid, L.LDelete(key)));
      if elements.Some? then Then(o, OnList(uuid, L.LPush(false, key, elements.value))) else o
    case UndoSet(uuid, key, members) =>
      var o := Exec(m, OnSet(uuid, S.SDelete(key)));
      if members.Some? then Then(o, OnSet(uuid, S.SAdd(key, members.value))) else o
    case UndoZSet(uuid, key, pairs) =>
      var o := Exec(m, OnZSet(uuid, Z.ZDelete(key)));
      if pairs.Some? then Then(o, OnZSet(uuid, Z.ZAdd(key, pairs.value))) else o
  }

  // ----- an undo puts back exactly what was under its key -----

  function Back<V>(st: map<Bytes, V>, key: Bytes, was: map<Bytes, V>): map<Bytes, V>
  {
    if key in was then (st - {key})[key := was[key]] else st - {key}
  }

  lemma BackIsOld<V>(st: map<Bytes, V>, key: Bytes, was: map<Bytes, V>)
    ensures Back(st, key, was) == was <==> st - {key} == was - {key}
  {
    if Back(st, key, was) == was {
      assert forall k :: k in st - {key} <==> k in Back(st, key, was) && k != key;
    }
    if st - {key} == was - {key} {
      assert key in was ==> (was - {key})[key := was[key]] == was;
      assert key !in was ==> was - {key} == was;
    }
  }

  lemma UndoneList(m: Mux, m0: Mux, uuid: Bytes, key: Bytes, u: Undo)
    requires uuid in m.lists && uuid in m0.lists && CapturesKey(m0, List, uuid, key, u)
    ensures Undone(m, u).mux == m.(lists := m.lists[uuid := Back(m.lists[uuid], key, m0.lists[uuid])])
  {
    var st, was := m.lists[uuid], m0.lists[uuid];
    if key in was {
      assert [] + was[key] == was[key];
      UpdateTwice(m.lists, uuid, st - {key}, (st - {key})[key := was[key]]);
    }
  }

  lemma UndoneSet(m: Mux, m0: Mux, uuid: Bytes, key: Bytes, u: Undo)
    requires uuid in m.sets && uuid in m0.sets && CapturesKey(m0, Set, uuid, key, u)
    ensures Undone(m, u).mux == m.(sets := m.sets[uuid := Back(m.sets[uuid], key, m0.sets[uuid])])
  {
    hide Elements;
    var st, was := m.sets[uuid], m0.sets[uuid];
    if key in was {
      assert {} + was[key] == was[key];
      UpdateTwice(m.sets, uuid, st - {key}, (st - {key})[key := was[key]]);
    }
  }

  lemma UndoneZSet(m: Mux, m0: Mux, uuid: Bytes, key: Bytes, u: Undo)
    requires uuid in m.zsets && uuid in m0.zsets && CapturesKey(m0, ZSet, uuid, key, u)
    ensures Undone(m, u).mux == m.(zsets := m.zsets[uuid := Back(m.zsets[uuid], key, m0.zsets[uuid])])
  {
    hide Z.Ranked;
    var st, was := m.zsets[uuid], m0.zsets[uuid];
    if key in was {
      SortedSets.AddedPairs(was[key], Z.Ranked(was[key]));
      UpdateTwice(m.zsets, uuid, st - {key}, (st - {key})[key := was[key]]);
    }
  }

  lemma UndoneKv(m: Mux, m0: Mux, uuid: Bytes, key: Bytes, u: Undo)
    requires uuid in m.kvs && uuid in m0.kvs && CapturesKey(m0, Kv, uuid, key, u)
    ensures Undone(m, u).mux == m.(kvs := m.kvs[uuid := Back(m.kvs[uuid], key, m0.kvs[uuid])])
  {
    var st, was := m.kvs[uuid], m0.kvs[uuid];
    if key in was {
      assert (st - {key})[key := was[key]] == st[key := was[key]];
    }
  }

  // ----- which operations their undo takes back -----

  /** The keys of an MSET come from a map. */
  ghost predicate DistinctKeys(c: Command)
  {
    c.OnKv? && c.kv.KMset? ==> forall i, j :: 0 <= i < j < |c.kv.pairs| ==> c.kv.pairs[i].0 != c.kv.pairs[j].0
  }

  /** The undo of an operation that succeeded puts everything back. */
  ghost predicate Restores(m: Mux, c: Command)
  {
    match c
    case OnKv(uuid, kv, _) => uuid in m.kvs ==> KvRestores(m.kvs[uuid], kv)
    case OnList(_, l) => !(l.LMove? && l.from != l.to)
    case OnSet(uuid, s) =>
      uuid in m.sets && s.SMove? && s.from != s.to && s.member in S.Of(m.sets[uuid], s.from) ==>
        s.member in S.Of(m.sets[uuid], s.to)
    case OnZSet(_, _) => true
    case Read(_, _, _, _) => true
  }

  /** Without an undo of its own, a kv operation is taken back only when it wrote what was already there. */
  ghost predicate KvRestores(st: K.KState, c: K.KCommand)
  {
    match c
    case KIncrBy(key, amount) => key in st ==> WritesSame(st[key], amount)
    case KDecrBy(key, amount) => key in st ==> WritesSame(st[key], Decimal.Wrap64(-amount))
    case KMset(pairs) => forall i :: 0 <= i < |pairs| ==> Lookup(st, pairs[i].0) == Some(K.Payload(pairs[i].1, None))
    case _ => true
  }

  ghost predicate WritesSame(p: K.Payload, amount: int)
  {
    var n := Decimal.ParseInt(p.value);
    n.Some? ==> Decimal.FormatInt(Decimal.Wrap64(n.value + amount)) == p.value
  }

  ghost predicate TtlFree(m: Mux)
  {
    forall u :: u in m.kvs ==> K.TtlFree(m.kvs[u])
  }

  /** An operation that fails has changed nothing, so that it needs no undo of its own. */
  lemma FailureChangesNothing(m: Mux, c: Command)
    requires TtlFree(m) && !Exec(m, c).ok
    ensures Exec(m, c).mux == m && Exec(m, c).log == []
  {
    hide K.Exec, L.Exec, S.Exec, Z.Exec;
    match c {
      case OnKv(uuid, kv, now) => if uuid in m.kvs { PutBack(m.kvs, uuid); KvFails(m.kvs[uuid], kv, now); }
      case OnList(uuid, l) => if uuid in m.lists { PutBack(m.lists, uuid); ListFails(m.lists[uuid], l); }
      case OnSet(uuid, s) => if uuid in m.sets { PutBack(m.sets, uuid); SetFails(m.sets[uuid], s); }
      case OnZSet(uuid, z) => if uuid in m.zsets { PutBack(m.zsets, uuid); ZSetFails(m.zsets[uuid], z); }
      case Read(_, _, _, _) =>
    }
  }

  lemma KvFails(st: K.KState, c: K.KCommand, now: int)
    requires K.TtlFree(st)
    ensures var o := K.Exec(st, c, now); o.reply.NotFound? || o.reply.Expired? || o.reply.NotInteger? ==> o.state == st && o.log == []
  {
  }

  lemma ListFails(st: L.LState, c: L.LCommand)
    ensures var o := L.Exec(st, c); o.reply.NoSuchKey? ==> o.state == st && o.log == []
  {
  }

  lemma SetFails(st: S.SState, c: S.SCommand)
    ensures var o := S.Exec(st, c); o.reply.NoSuchKey? ==> o.state == st && o.log == []
  {
  }

  lemma ZSetFails(st: Z.ZState, c: Z.ZCommand)
    ensures var o := Z.Exec(st, c); o.reply.NoSuchKey? ==> o.state == st && o.log == []
  {
  }

  /** Once an operation has succeeded, its undo restores the state before it just when `Restores` says so. */
  lemma UndoExactly(m: Mux, c: Command, u: Undo)
    requires TtlFree(m) && DistinctKeys(c) && Captures(m, c, u) && Exec(m, c).ok
    ensures Undone(Exec(m, c).mux, u).mux == m <==> Restores(m, c)
  {
    match c {
      case OnKv(_, _, _) => KvUndoExactly(m, c, u);
      case OnList(_, _) => ListUndoExactly(m, c, u);
      case OnSet(_, _) => SetUndoExactly(m, c, u);
      case OnZSet(_, _) => ZSetUndoExactly(m, c, u);
      case Read(_, _, _, _) => ReadUndoExactly(m, c, u);
    }
  }

  /** The undo of a move puts back the list it took from, and leaves the other with the element. */
  lemma MoveHalfUndone(m: Mux, c: Command, u: Undo, key: Bytes)
    requires Captures(m, c, u) && Exec(m, c).ok
    requires (c.OnList? && c.l.LMove? && c.l.from != c.l.to) || (c.OnSet? && c.s.SMove? && c.s.from != c.s.to)
    ensures var done, undone := Exec(m, c).mux, Undone(Exec(m, c).mux, u).mux;
      && (c.OnList? && key == c.l.from ==> Lookup(undone.lists[c.uuid], key) == Lookup(m.lists[c.uuid], key))
      && (c.OnList? && key != c.l.from ==> Lookup(undone.lists[c.uuid], key) == Lookup(done.lists[c.uuid], key))
      && (c.OnSet? && key == c.s.from ==> Lookup(undone.sets[c.uuid], key) == Lookup(m.sets[c.uuid], key))
      && (c.OnSet? && key != c.s.from ==> Lookup(undone.sets[c.uuid], key) == Lookup(done.sets[c.uuid], key))
  {
    hide L.Exec, S.Exec, Undone, CapturesKey;
    if c.OnList? {
      UndoneList(Exec(m, c).mux, m, c.uuid, c.l.from, u);
    } else {
      UndoneSet(Exec(m, c).mux, m, c.uuid, c.s.from, u);
    }
  }

  lemma ListUndoExactly(m: Mux, c: Command, u: Undo)
    requires c.OnList? && Captures(m, c, u) && Exec(m, c).ok
    ensures Undone(Exec(m, c).mux, u).mux == m <==> Restores(m, c)
  {
    hide L.Exec, Undone;
    var st, key := m.lists[c.uuid], ListKey(c.l);
    var st' := L.Exec(st, c.l).state;
    UndoneList(Exec(m, c).mux, m, c.uuid, key, u);
    UpdateTwice(m.lists, c.uuid, st', Back(st', key, st));
    SamePut(m.lists, c.uuid, Back(st', key, st));
    BackIsOld(st', key, st);
    ListChanges(st, c.l);
  }

  lemma ListChanges(st: L.LState, c: L.LCommand)
    requires !L.Exec(st, c).reply.NoSuchKey?
    ensures L.Exec(st, c).state - {ListKey(c)} == st - {ListKey(c)} <==> !(c.LMove? && c.from != c.to)
  {
    hide L.Pushed, L.Remaining, L.InsertedAt;
    var st' := L.Exec(st, c).state;
    if c.LMove? && c.from != c.to {
      assert c.to in st' && |st'[c.to]| == |L.Of(st, c.to)| + 1;
      assert (st' - {c.from})[c.to] == st'[c.to] && (c.to in st ==> (st - {c.from})[c.to] == st[c.to]);
    } else {
      SameBut(st', st, ListKey(c));
    }
  }

  lemma SetUndoExactly(m: Mux, c: Command, u: Undo)
    requires c.OnSet? && Captures(m, c, u) && Exec(m, c).ok
    ensures Undone(Exec(m, c).mux, u).mux == m <==> Restores(m, c)
  {
    hide S.Exec, Undone, S.Enumerates;
    var st, key := m.sets[c.uuid], SetKey(c.s);
    var st' := S.Exec(st, c.s).state;
    UndoneSet(Exec(m, c).mux, m, c.uuid, key, u);
    UpdateTwice(m.sets, c.uuid, st', Back(st', key, st));
    SamePut(m.sets, c.uuid, Back(st', key, st));
    BackIsOld(st', key, st);
    SetChanges(st, c.s);
  }

  lemma SetChanges(st: S.SState, c: S.SCommand)
    ensures S.Exec(st, c).state - {SetKey(c)} == st - {SetKey(c)} <==>
      (c.SMove? && c.from != c.to && c.member in S.Of(st, c.from) ==> c.member in S.Of(st, c.to))
  {
    hide Elements, S.Query, S.AfterMove, S.Of;
    if c.SMove? {
      SetMoveChanges(st, c.from, c.to, c.member);
    } else {
      SameBut(S.Exec(st, c).state, st, SetKey(c));
    }
  }

  lemma SetMoveChanges(st: S.SState, from: Bytes, to: Bytes, member: Bytes)
    ensures S.AfterMove(st, from, to, member) - {from} == st - {from} <==> from == to || member in S.Of(st, to)
  {
    var st' := S.AfterMove(st, from, to, member);
    SameBut(st', st, from);
    if from != to {
      assert to in st' && st'[to] == S.Of(st, to) + {member} && member in st'[to];
      assert member in S.Of(st, to) ==> S.Of(st, to) + {member} == st[to];
    }
  }

  lemma SameBut<V>(a: map<Bytes, V>, b: map<Bytes, V>, key: Bytes)
    ensures a - {key} == b - {key} <==> forall k :: k != key ==> (k in a <==> k in b) && (k in a ==> a[k] == b[k])
  {
    if a - {key} == b - {key} {
      forall k | k != key ensures (k in a <==> k in b) && (k in a ==> a[k] == b[k]) {
        assert k in a <==> k in a - {key};
        assert k in b <==> k in b - {key};
      }
    }
  }

  lemma ZSetUndoExactly(m: Mux, c: Command, u: Undo)
    requires c.OnZSet? && Captures(m, c, u) && Exec(m, c).ok
    ensures Undone(Exec(m, c).mux, u).mux == m
  {
    hide Z.Exec, Undone, Z.Ranked;
    var st, key := m.zsets[c.uuid], ZSetKey(c.z);
    var st' := Z.Exec(st, c.z).state;
    UndoneZSet(Exec(m, c).mux, m, c.uuid, key, u);
    UpdateTwice(m.zsets, c.uuid, st', Back(st', key, st));
    SamePut(m.zsets, c.uuid, Back(st', key, st));
    BackIsOld(st', key, st);
    ZSetChanges(st, c.z);
  }

  lemma ZSetChanges(st: Z.ZState, c: Z.ZCommand)
    ensures Z.Exec(st, c).state - {ZSetKey(c)} == st - {ZSetKey(c)}
  {
    hide Elements, Z.Extremes, SortedSets.Added, SortedSets.Members;
    var st' := Z.Exec(st, c).state;
    SameBut(st', st, ZSetKey(c));
  }

  lemma KvUndoExactly(m: Mux, c: Command, u: Undo)
    requires c.OnKv? && TtlFree(m) && DistinctKeys(c) && Captures(m, c, u) && Exec(m, c).ok
    ensures Undone(Exec(m, c).mux, u).mux == m <==> Restores(m, c)
  {
    hide K.Exec, Undone;
    var st, key := m.kvs[c.uuid], KvKey(c.kv);
    var st' := K.Exec(st, c.kv, c.now).state;
    if KvUndone(c.kv) {
      UndoneKv(Exec(m, c).mux, m, c.uuid, key, u);
      UpdateTwice(m.kvs, c.uuid, st', Back(st', key, st));
      SamePut(m.kvs, c.uuid, Back(st', key, st));
      BackIsOld(st', key, st);
      KvChangesKey(st, c.kv, c.now);
    } else {
      assert Undone(Exec(m, c).mux, u).mux == Exec(m, c).mux by { UndoneNothing(Exec(m, c).mux); }
      SamePut(m.kvs, c.uuid, st');
      KvChanges(st, c.kv, c.now);
    }
  }

  lemma UndoneNothing(m: Mux)
    ensures Undone(m, Nothing) == Outcome(m, [], true)
  {
  }

  lemma KvChangesKey(st: K.KState, c: K.KCommand, now: int)
    requires KvUndone(c)
    ensures K.Exec(st, c, now).state - {KvKey(c)} == st - {KvKey(c)}
  {
    var st' := K.Exec(st, c, now).state;
    SameBut(st', st, KvKey(c));
  }

  lemma KvChanges(st: K.KState, c: K.KCommand, now: int)
    requires K.TtlFree(st) && !KvUndone(c)
    requires c.KMset? ==> forall i, j :: 0 <= i < j < |c.pairs| ==> c.pairs[i].0 != c.pairs[j].0
    ensures K.Exec(st, c, now).state == st <==> KvRestores(st, c)
  {
    hide Decimal.ParseInt, Decimal.FormatInt, Decimal.Wrap64;
    match c {
      case KMset(pairs) => MsetAt(st, pairs);
      case KIncrBy(key, amount) => IncrementAt(st, key, amount, now);
      case KDecrBy(key, amount) => IncrementAt(st, key, Decimal.Wrap64(-amount), now);
      case _ =>
    }
  }

  lemma IncrementAt(st: K.KState, key: Bytes, amount: int, now: int)
    requires K.TtlFree(st)
    ensures K.Increment(st, key, amount, now).state == st <==> (key in st ==> WritesSame(st[key], amount))
  {
    hide Decimal.ParseInt, Decimal.FormatInt, Decimal.Wrap64;
    if key in st {
      var n := Decimal.ParseInt(st[key].value);
      if n.Some? {
        SamePut(st, key, st[key].(value := Decimal.FormatInt(Decimal.Wrap64(n.value + amount))));
      }
    }
  }

  lemma MsetAt(st: K.KState, pairs: seq<(Bytes, Bytes)>)
    requires forall i, j :: 0 <= i < j < |pairs| ==> pairs[i].0 != pairs[j].0
    ensures forall k :: (forall i :: 0 <= i < |pairs| ==> pairs[i].0 != k) ==> Lookup(K.Mset(st, pairs), k) == Lookup(st, k)
    ensures forall i :: 0 <= i < |pairs| ==> Lookup(K.Mset(st, pairs), pairs[i].0) == Some(K.Payload(pairs[i].1, None))
    ensures K.Mset(st, pairs) == st <==> forall i :: 0 <= i < |pairs| ==> Lookup(st, pairs[i].0) == Some(K.Payload(pairs[i].1, None))
  {
    MsetWrites(st, pairs);
    var st' := K.Mset(st, pairs);
    if forall i :: 0 <= i < |pairs| ==> Lookup(st, pairs[i].0) == Some(K.Payload(pairs[i].1, None)) {
      forall k ensures Lookup(st', k) == Lookup(st, k) {
        if i :| 0 <= i < |pairs| && pairs[i].0 == k {
        }
      }
      SameLookups(st', st);
    }
  }

  lemma {:induction false} MsetWrites(st: K.KState, pairs: seq<(Bytes, Bytes)>)
    requires forall i, j :: 0 <= i < j < |pairs| ==> pairs[i].0 != pairs[j].0
    ensures forall k :: (forall i :: 0 <= i < |pairs| ==> pairs[i].0 != k) ==> Lookup(K.Mset(st, pairs), k) == Lookup(st, k)
    ensures forall i :: 0 <= i < |pairs| ==> Lookup(K.Mset(st, pairs), pairs[i].0) == Some(K.Payload(pairs[i].1, None))
  {
    if pairs != [] {
      MsetWrites(st, pairs[..|pairs| - 1]);
    }
  }

  lemma ReadUndoExactly(m: Mux, c: Command, u: Undo)
    requires c.Read? && Captures(m, c, u)
    ensures Undone(m, u).mux == m
  {
    hide Undone;
    match c.kind {
      case Kv => UndoneNothing(m);
      case List =>
        UndoneList(m, m, c.uuid, c.key, u);
        BackIsOld(m.lists[c.uuid], c.key, m.lists[c.uuid]);
        PutBack(m.lists, c.uuid);
      case Set =>
        UndoneSet(m, m, c.uuid, c.key, u);
        BackIsOld(m.sets[c.uuid], c.key, m.sets[c.uuid]);
        PutBack(m.sets, c.uuid);
      case ZSet =>
        UndoneZSet(m, m, c.uuid, c.key, u);
        BackIsOld(m.zsets[c.uuid], c.key, m.zsets[c.uuid]);
        PutBack(m.zsets, c.uuid);
    }
  }
}
