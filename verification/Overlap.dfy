/** A log that was left beside the snapshot that already holds it: what a restart makes of it. */
module Overlaps {
  import opened Ordering
  import opened Collections
  import opened Multiplexers
  import opened Recovery
  import opened Persistence
  import SortedSets
  import K = KvStorage
  import L = ListStorage
  import S = SetStorage
  import Z = ZSetStorage

  // ----- the places a record can write -----

  datatype Place =
    | Instance(kind: Kind, uuid: Bytes)
    | KvAt(uuid: Bytes, key: Bytes)
    | ListAt(uuid: Bytes, key: Bytes)
    | SetAt(uuid: Bytes, key: Bytes, member: Bytes)
    | ZSetAt(uuid: Bytes, key: Bytes, member: Bytes)

  datatype Held =
    | Present(present: bool)
    | Stored(payload: Option<K.Payload>)
    | Elements(elements: Option<seq<Bytes>>)
    | Member(member: bool)
    | Scored(score: Option<Score>)

  function At(m: Mux, p: Place): Held
  {
    match p
    case Instance(kind, uuid) => Present(Has(m, kind, uuid))
    case KvAt(uuid, key) => Stored(Lookup(Of(m.kvs, uuid), key))
    case ListAt(uuid, key) => Elements(Lookup(Of(m.lists, uuid), key))
    case SetAt(uuid, key, member) => Member(member in S.Of(Of(m.sets, uuid), key))
    case ZSetAt(uuid, key, member) => Scored(Lookup(Z.Of(Of(m.zsets, uuid), key), member))
  }

  function Blank(p: Place): Held
  {
    match p
    case Instance(_, _) => Present(false)
    case KvAt(_, _) => Stored(None)
    case ListAt(_, _) => Elements(None)
    case SetAt(_, _, _) => Member(false)
    case ZSetAt(_, _, _) => Scored(None)
  }

  predicate Within(p: Place, kind: Kind, uuid: Bytes)
  {
    p.uuid == uuid &&
    match p
    case Instance(k, _) => k == kind
    case KvAt(_, _) => kind == Kv
    case ListAt(_, _) => kind == List
    case SetAt(_, _, _) => kind == Set
    case ZSetAt(_, _, _) => kind == ZSet
  }

  function KindOf(r: Record): Kind
  {
    match r
    case KvRecord(_, _) => Kv
    case ListRecord(_, _) => List
    case SetRecord(_, _) => Set
    case ZSetRecord(_, _) => ZSet
    case CreateRecord(kind, _) => kind
    case DropRecord(kind, _) => kind
  }

  /** The record writes what does not depend on what was there: kv SET and DELETE, DELETE of a list, the set records but
      the STORE forms, the sorted-set records but ZINCRBY, and the creation and deletion of an instance. */
  predicate Absolute(r: Record)
  {
    match r
    case KvRecord(_, _) => true
    case ListRecord(_, l) => l.ListDeleteRecord?
    case SetRecord(_, s) => !s.SStoreRecord? && (s.SAddRecord? ==> s.members != [])
    case ZSetRecord(_, z) => !z.ZIncrByRecord? && (z.ZAddRecord? ==> z.members != [])
    case CreateRecord(_, _) => true
    case DropRecord(_, _) => true
  }

  function SetWrites(s: S.SRecord, key: Bytes, member: Bytes): Option<Held>
  {
    match s
    case SAddRecord(k, members) => if k == key && member in members then Some(Member(true)) else None
    case SRemRecord(k, members) => if k == key && member in members then Some(Member(false)) else None
    case SPopRecord(k, members) => if k == key && member in members then Some(Member(false)) else None
    case SMoveRecord(from, to, x) =>
      if member != x then None
      else if key == to then Some(Member(true))
      else if key == from then Some(Member(false))
      else None
    case SStoreRecord(_, _, _) => None
    case SDeleteRecord(k) => if k == key then Some(Member(false)) else None
  }

  function ZSetWrites(z: Z.ZRecord, key: Bytes, member: Bytes): Option<Held>
  {
    match z
    case ZAddRecord(k, members) =>
      var score := Lookup(SortedSets.Added(map[], members), member);
      if k == key && score.Some? then Some(Scored(score)) else None
    case ZRemRecord(k, names) => if k == key && member in names then Some(Scored(None)) else None
    case ZPopRecord(_, k, members) => if k == key && member in SortedSets.Members(members) then Some(Scored(None)) else None
    case ZIncrByRecord(_, _, _) => None
    case ZDeleteRecord(k) => if k == key then Some(Scored(None)) else None
  }

  function KvWrites(kv: K.KRecord, key: Bytes, now: int): Option<Held>
  {
    if kv.key != key then None
    else if kv.DeleteRecord? then Some(Stored(None))
    else if kv.deadline.Some? && kv.deadline.value < now then None
    else Some(Stored(Some(K.Payload(kv.value, kv.deadline))))
  }

  /** What an absolute record leaves at a place; `None` where it leaves what was there. */
  function Writes(r: Record, p: Place, now: int): Option<Held>
  {
    if !Within(p, KindOf(r), r.uuid) then None
    else if r.DropRecord? then Some(Blank(p))
    else
      match p
      case Instance(_, _) => Some(Present(true))
      case KvAt(_, key) => if r.KvRecord? then KvWrites(r.kv, key, now) else Some(Blank(p))
      case ListAt(_, key) =>
        if !r.ListRecord? then Some(Blank(p))
        else if r.l.ListDeleteRecord? && r.l.key == key then Some(Elements(None))
        else None
      case SetAt(_, key, member) => if r.SetRecord? then SetWrites(r.s, key, member) else Some(Blank(p))
      case ZSetAt(_, key, member) => if r.ZSetRecord? then ZSetWrites(r.z, key, member) else Some(Blank(p))
  }

  /** What the last of the records that writes the place leaves there. */
  function LastWritten(records: seq<Record>, p: Place, now: int): Option<Held>
  {
    if records == [] then None
    else
      var last := Writes(records[|records| - 1], p, now);
      if last.Some? then last else LastWritten(records[..|records| - 1], p, now)
  }

  // ----- replay place by place -----

  ghost predicate SameBut<V>(a: map<Bytes, V>, b: map<Bytes, V>, uuid: Bytes)
  {
    forall u :: u != uuid ==> (u in a <==> u in b) && (u in a ==> a[u] == b[u])
  }

  /** Nothing but the one instance differs. */
  ghost predicate OnlyIn(a: Mux, b: Mux, kind: Kind, uuid: Bytes)
  {
    && (if kind == Kv then SameBut(a.kvs, b.kvs, uuid) else a.kvs == b.kvs)
    && (if kind == List then SameBut(a.lists, b.lists, uuid) else a.lists == b.lists)
    && (if kind == Set then SameBut(a.sets, b.sets, uuid) else a.sets == b.sets)
    && (if kind == ZSet then SameBut(a.zsets, b.zsets, uuid) else a.zsets == b.zsets)
  }

  lemma Updated<V>(m: map<Bytes, V>, uuid: Bytes, v: V)
    ensures SameBut(m[uuid := v], m, uuid) && SameBut(m - {uuid}, m, uuid)
  {
  }

  lemma AppliesWithin(m: Mux, r: Record, now: int)
    requires Apply(m, r, now).Some?
    ensures OnlyIn(Apply(m, r, now).value, m, KindOf(r), r.uuid)
    ensures Apply(m, r, now).value.maxInstances == m.maxInstances
  {
    hide K.Apply, L.Apply, S.Apply, Z.Apply, SameBut, Created, Deleted, OnlyIn;
    var m' := Apply(m, r, now).value;
    match r {
      case KvRecord(uuid, kv) =>
        Updated(m.kvs, uuid, K.Apply(Of(m.kvs, uuid), kv, now));
        OneMap(m', m, Kv, uuid);
      case ListRecord(uuid, l) =>
        Updated(m.lists, uuid, L.Apply(Of(m.lists, uuid), l).value);
        OneMap(m', m, List, uuid);
      case SetRecord(uuid, s) =>
        Updated(m.sets, uuid, S.Apply(Of(m.sets, uuid), s));
        OneMap(m', m, Set, uuid);
      case ZSetRecord(uuid, z) =>
        Updated(m.zsets, uuid, Z.Apply(Of(m.zsets, uuid), z));
        OneMap(m', m, ZSet, uuid);
      case CreateRecord(kind, uuid) => InstanceWithin(m, kind, uuid);
      case DropRecord(kind, uuid) => InstanceWithin(m, kind, uuid);
    }
  }

  lemma OneMap(a: Mux, b: Mux, kind: Kind, uuid: Bytes)
    requires kind != Kv ==> a.kvs == b.kvs
    requires kind != List ==> a.lists == b.lists
    requires kind != Set ==> a.sets == b.sets
    requires kind != ZSet ==> a.zsets == b.zsets
    requires match kind
      case Kv => SameBut(a.kvs, b.kvs, uuid)
      case List => SameBut(a.lists, b.lists, uuid)
      case Set => SameBut(a.sets, b.sets, uuid)
      case ZSet => SameBut(a.zsets, b.zsets, uuid)
    ensures OnlyIn(a, b, kind, uuid)
  {
    hide SameBut;
  }

  lemma InstanceWithin(m: Mux, kind: Kind, uuid: Bytes)
    ensures OnlyIn(Created(m, kind, uuid), m, kind, uuid) && OnlyIn(Deleted(m, kind, uuid), m, kind, uuid)
    ensures Created(m, kind, uuid).maxInstances == m.maxInstances == Deleted(m, kind, uuid).maxInstances
  {
    hide SameBut;
    Updated(m.kvs, uuid, map[]);
    Updated(m.lists, uuid, map[]);
    Updated(m.sets, uuid, map[]);
    Updated(m.zsets, uuid, map[]);
  }

  lemma WriteElsewhere(m: Mux, r: Record, now: int, p: Place)
    requires Apply(m, r, now).Some? && !Within(p, KindOf(r), r.uuid)
    ensures At(Apply(m, r, now).value, p) == At(m, p)
  {
    hide Apply, S.Of, Z.Of, Lookup, KindOf, SameBut;
    var m' := Apply(m, r, now).value;
    AppliesWithin(m, r, now);
    SameOf(m'.kvs, m.kvs, r.uuid, p.uuid);
    SameOf(m'.lists, m.lists, r.uuid, p.uuid);
    SameOf(m'.sets, m.sets, r.uuid, p.uuid);
    SameOf(m'.zsets, m.zsets, r.uuid, p.uuid);
  }

  lemma SameOf<V>(a: map<Bytes, map<Bytes, V>>, b: map<Bytes, map<Bytes, V>>, uuid: Bytes, other: Bytes)
    ensures SameBut(a, b, uuid) && other != uuid ==> Of(a, other) == Of(b, other) && (other in a <==> other in b)
  {
  }

  lemma WriteKv(m: Mux, uuid: Bytes, kv: K.KRecord, now: int, p: Place)
    requires Within(p, Kv, uuid)
    ensures var r := KvRecord(uuid, kv);
      At(Apply(m, r, now).value, p) == if Writes(r, p, now).Some? then Writes(r, p, now).value else At(m, p)
  {
  }

  lemma WriteList(m: Mux, uuid: Bytes, key: Bytes, now: int, p: Place)
    requires Within(p, List, uuid)
    ensures var r := ListRecord(uuid, L.ListDeleteRecord(key));
      At(Apply(m, r, now).value, p) == if Writes(r, p, now).Some? then Writes(r, p, now).value else At(m, p)
  {
  }

  lemma WriteSet(m: Mux, uuid: Bytes, s: S.SRecord, now: int, p: Place)
    requires Within(p, Set, uuid) && !s.SStoreRecord?
    ensures var r := SetRecord(uuid, s);
      At(Apply(m, r, now).value, p) == if Writes(r, p, now).Some? then Writes(r, p, now).value else At(m, p)
  {
  }

  lemma WriteZSet(m: Mux, uuid: Bytes, z: Z.ZRecord, now: int, p: Place)
    requires Within(p, ZSet, uuid) && !z.ZIncrByRecord?
    ensures var r := ZSetRecord(uuid, z);
      At(Apply(m, r, now).value, p) == if Writes(r, p, now).Some? then Writes(r, p, now).value else At(m, p)
  {
    if p.ZSetAt? && z.ZAddRecord? {
      AddedAt(Z.Of(Of(m.zsets, uuid), p.key), z.members, p.member);
    }
  }

  lemma {:induction false} AddedAt(d: Z.Scores, members: seq<Pair>, member: Bytes)
    ensures var written := Lookup(SortedSets.Added(map[], members), member);
      Lookup(SortedSets.Added(d, members), member) == if written.Some? then written else Lookup(d, member)
  {
    if members != [] {
      AddedAt(d, members[..|members| - 1], member);
    }
  }

  lemma WriteInstance(m: Mux, r: Record, now: int, p: Place)
    requires (r.CreateRecord? || r.DropRecord?) && Apply(m, r, now).Some? && Within(p, KindOf(r), r.uuid)
    ensures Writes(r, p, now) == Some(At(Apply(m, r, now).value, p))
  {
  }

  /** An absolute record leaves at every place what it writes there, or what was there. */
  lemma WriteOne(m: Mux, r: Record, now: int, p: Place)
    requires Absolute(r) && Apply(m, r, now).Some?
    ensures At(Apply(m, r, now).value, p) == if Writes(r, p, now).Some? then Writes(r, p, now).value else At(m, p)
  {
    hide At, Apply, Writes, Within;
    if !Within(p, KindOf(r), r.uuid) {
      WriteElsewhere(m, r, now, p);
      WritesNothing(r, p, now);
    } else {
      match r {
        case KvRecord(uuid, kv) => WriteKv(m, uuid, kv, now, p);
        case ListRecord(uuid, l) => WriteList(m, uuid, l.key, now, p);
        case SetRecord(uuid, s) => WriteSet(m, uuid, s, now, p);
        case ZSetRecord(uuid, z) => WriteZSet(m, uuid, z, now, p);
        case CreateRecord(_, _) => WriteInstance(m, r, now, p);
        case DropRecord(_, _) => WriteInstance(m, r, now, p);
      }
    }
  }

  lemma WritesNothing(r: Record, p: Place, now: int)
    requires !Within(p, KindOf(r), r.uuid)
    ensures Writes(r, p, now) == None
  {
  }

  lemma {:induction false} WriteAll(m: Mux, records: seq<Record>, now: int, p: Place)
    requires (forall r :: r in records ==> Absolute(r)) && Replay(m, records, now).Some?
    ensures var last := LastWritten(records, p, now);
      At(Replay(m, records, now).value, p) == if last.Some? then last.value else At(m, p)
  {
    hide Absolute, Apply, Writes, At;
    if records != [] {
      var n := |records| - 1;
      WriteAll(m, records[..n], now, p);
      WriteOne(Replay(m, records[..n], now).value, records[n], now, p);
    }
  }

  // ----- when replay fails -----

  predicate Concerns(r: Record, kind: Kind, uuid: Bytes)
  {
    KindOf(r) == kind && r.uuid == uuid
  }

  /** Every deletion of an instance finds it: it is there, or an earlier record concerns it and so makes it. */
  ghost predicate Droppable(m: Mux, records: seq<Record>)
  {
    forall i :: 0 <= i < |records| && records[i].DropRecord? ==>
      Has(m, records[i].kind, records[i].uuid) || exists j :: 0 <= j < i && Concerns(records[j], records[i].kind, records[i].uuid)
  }

  lemma {:induction false} ConcernsWrites(records: seq<Record>, kind: Kind, uuid: Bytes, now: int)
    ensures LastWritten(records, Instance(kind, uuid), now).Some? <==>
      exists j :: 0 <= j < |records| && Concerns(records[j], kind, uuid)
  {
    if records != [] {
      var n := |records| - 1;
      ConcernsWrites(records[..n], kind, uuid, now);
      assert Writes(records[n], Instance(kind, uuid), now).Some? <==> Concerns(records[n], kind, uuid);
      assert forall j :: 0 <= j < n ==> records[..n][j] == records[j];
    }
  }

  lemma AppliesUnlessGone(m: Mux, r: Record, now: int)
    requires Absolute(r)
    ensures Apply(m, r, now).Some? <==> (r.DropRecord? ==> Has(m, r.kind, r.uuid))
  {
    hide K.Apply, S.Apply, Z.Apply;
  }

  /** Absolute records that replay from one state replay from another just when their deletions find their instances. */
  lemma {:induction false} ReplaysIfDroppable(saved: Mux, m: Mux, records: seq<Record>, now: int)
    requires (forall r :: r in records ==> Absolute(r)) && Replay(saved, records, now).Some?
    ensures Replay(m, records, now).Some? <==> Droppable(m, records)
  {
    hide Absolute, Apply, At, LastWritten, Concerns;
    if records != [] {
      var n := |records| - 1;
      var front, r := records[..n], records[n];
      ReplaysIfDroppable(saved, m, front, now);
      DroppableStep(m, records);
      if Replay(m, front, now).Some? {
        var a, b := Replay(saved, front, now).value, Replay(m, front, now).value;
        AppliesUnlessGone(a, r, now);
        AppliesUnlessGone(b, r, now);
        if r.DropRecord? {
          var p := Instance(r.kind, r.uuid);
          WriteAll(saved, front, now, p);
          WriteAll(m, front, now, p);
          ConcernsWrites(front, r.kind, r.uuid, now);
          AtInstance(a, r.kind, r.uuid);
          AtInstance(b, r.kind, r.uuid);
          AtInstance(m, r.kind, r.uuid);
        }
      }
    }
  }

  lemma AtInstance(m: Mux, kind: Kind, uuid: Bytes)
    ensures At(m, Instance(kind, uuid)) == Present(Has(m, kind, uuid))
  {
  }

  lemma DroppableStep(m: Mux, records: seq<Record>)
    requires records != []
    ensures var front, r := records[..|records| - 1], records[|records| - 1];
      Droppable(m, records) <==> (
        && Droppable(m, front)
        && (r.DropRecord? ==> Has(m, r.kind, r.uuid) || exists j :: 0 <= j < |front| && Concerns(front[j], r.kind, r.uuid)))
  {
    hide Concerns;
    var n := |records| - 1;
    var front := records[..n];
    assert forall j :: 0 <= j < n ==> front[j] == records[j];
  }

  // ----- states that agree at every place -----

  /** No set or sorted set is empty, so that the members tell which keys there are. */
  ghost predicate Full(m: Mux)
  {
    SetsFull(m.sets) && ZSetsFull(m.zsets)
  }

  ghost predicate SetsFull(sets: map<Bytes, S.SState>)
  {
    forall u :: u in sets ==> S.NoEmpty(sets[u])
  }

  ghost predicate ZSetsFull(zsets: map<Bytes, Z.ZState>)
  {
    forall u :: u in zsets ==> Z.NoEmpty(zsets[u])
  }

  lemma SetsStayFull(sets: map<Bytes, S.SState>, uuid: Bytes, st: S.SState)
    requires SetsFull(sets)
    ensures SetsFull(sets - {uuid}) && S.NoEmpty(Of(sets, uuid)) && SetsFull(sets[uuid := map[]])
    ensures S.NoEmpty(st) ==> SetsFull(sets[uuid := st])
  {
    hide S.NoEmpty;
    NoneEmpty();
  }

  lemma ZSetsStayFull(zsets: map<Bytes, Z.ZState>, uuid: Bytes, st: Z.ZState)
    requires ZSetsFull(zsets)
    ensures ZSetsFull(zsets - {uuid}) && Z.NoEmpty(Of(zsets, uuid)) && ZSetsFull(zsets[uuid := map[]])
    ensures Z.NoEmpty(st) ==> ZSetsFull(zsets[uuid := st])
  {
    hide Z.NoEmpty;
    NoneEmpty();
  }

  lemma AppliesFull(m: Mux, r: Record, now: int)
    requires Absolute(r) && Full(m) && Apply(m, r, now).Some?
    ensures Full(Apply(m, r, now).value)
  {
    hide K.Apply, L.Apply, S.Apply, Z.Apply, S.NoEmpty, Z.NoEmpty, SetsFull, ZSetsFull;
    match r {
      case SetRecord(uuid, s) =>
        var st := Of(m.sets, uuid);
        SetsStayFull(m.sets, uuid, S.Apply(st, s));
        SetFull(st, s);
      case ZSetRecord(uuid, z) =>
        var st := Of(m.zsets, uuid);
        ZSetsStayFull(m.zsets, uuid, Z.Apply(st, z));
        ZSetFull(st, z);
      case _ =>
        SetsStayFull(m.sets, r.uuid, map[]);
        ZSetsStayFull(m.zsets, r.uuid, map[]);
    }
  }

  lemma NoneEmpty()
    ensures S.NoEmpty(map[]) && Z.NoEmpty(map[])
  {
  }

  lemma SetFull(st: S.SState, s: S.SRecord)
    requires S.NoEmpty(st) && !s.SStoreRecord? && (s.SAddRecord? ==> s.members != [])
    ensures S.NoEmpty(S.Apply(st, s))
  {
    if s.SAddRecord? {
      assert s.members[0] in Collections.Elements(s.members);
    }
  }

  lemma ZSetFull(st: Z.ZState, z: Z.ZRecord)
    requires Z.NoEmpty(st) && !z.ZIncrByRecord? && (z.ZAddRecord? ==> z.members != [])
    ensures Z.NoEmpty(Z.Apply(st, z))
  {
    hide Collections.Elements, SortedSets.Members;
    if z.ZAddRecord? {
      var n := |z.members| - 1;
      assert z.members[n].ele in SortedSets.Added(Z.Of(st, z.key), z.members);
    }
  }

  lemma {:induction false} ReplaysFull(m: Mux, records: seq<Record>, now: int)
    requires (forall r :: r in records ==> Absolute(r)) && Full(m) && Replay(m, records, now).Some?
    ensures Full(Replay(m, records, now).value) && Replay(m, records, now).value.maxInstances == m.maxInstances
  {
    hide Absolute, Full, Apply;
    if records != [] {
      var n := |records| - 1;
      ReplaysFull(m, records[..n], now);
      AppliesFull(Replay(m, records[..n], now).value, records[n], now);
      AppliesWithin(Replay(m, records[..n], now).value, records[n], now);
    }
  }

  lemma SameSets(a: S.SState, b: S.SState)
    requires S.NoEmpty(a) && S.NoEmpty(b) && forall k, x :: x in S.Of(a, k) <==> x in S.Of(b, k)
    ensures a == b
  {
    forall k ensures Lookup(a, k) == Lookup(b, k) {
      assert forall x :: x in S.Of(a, k) <==> x in S.Of(b, k);
      assert S.Of(a, k) == S.Of(b, k);
    }
    SameLookups(a, b);
  }

  lemma SameZSets(a: Z.ZState, b: Z.ZState)
    requires Z.NoEmpty(a) && Z.NoEmpty(b) && forall k, x :: Lookup(Z.Of(a, k), x) == Lookup(Z.Of(b, k), x)
    ensures a == b
  {
    forall k ensures Lookup(a, k) == Lookup(b, k) {
      SameLookups(Z.Of(a, k), Z.Of(b, k));
    }
    SameLookups(a, b);
  }

  ghost predicate Alike(a: Mux, b: Mux)
  {
    forall p :: At(a, p) == At(b, p)
  }

  lemma AlikeKvs(a: Mux, b: Mux)
    requires Alike(a, b)
    ensures a.kvs == b.kvs
  {
    forall u ensures Lookup(a.kvs, u) == Lookup(b.kvs, u) {
      assert At(a, Instance(Kv, u)) == At(b, Instance(Kv, u));
      forall k ensures Lookup(Of(a.kvs, u), k) == Lookup(Of(b.kvs, u), k) {
        assert At(a, KvAt(u, k)) == At(b, KvAt(u, k));
      }
      SameLookups(Of(a.kvs, u), Of(b.kvs, u));
    }
    SameLookups(a.kvs, b.kvs);
  }

  lemma AlikeLists(a: Mux, b: Mux)
    requires Alike(a, b)
    ensures a.lists == b.lists
  {
    forall u ensures Lookup(a.lists, u) == Lookup(b.lists, u) {
      assert At(a, Instance(List, u)) == At(b, Instance(List, u));
      forall k ensures Lookup(Of(a.lists, u), k) == Lookup(Of(b.lists, u), k) {
        assert At(a, ListAt(u, k)) == At(b, ListAt(u, k));
      }
      SameLookups(Of(a.lists, u), Of(b.lists, u));
    }
    SameLookups(a.lists, b.lists);
  }

  lemma AlikeSets(a: Mux, b: Mux)
    requires Alike(a, b) && Full(a) && Full(b)
    ensures a.sets == b.sets
  {
    hide S.NoEmpty, Z.NoEmpty;
    NoneEmpty();
    forall u ensures Lookup(a.sets, u) == Lookup(b.sets, u) {
      assert At(a, Instance(Set, u)) == At(b, Instance(Set, u));
      forall k, x ensures x in S.Of(Of(a.sets, u), k) <==> x in S.Of(Of(b.sets, u), k) {
        assert At(a, SetAt(u, k, x)) == At(b, SetAt(u, k, x));
      }
      SameSets(Of(a.sets, u), Of(b.sets, u));
    }
    SameLookups(a.sets, b.sets);
  }

  lemma AlikeZSets(a: Mux, b: Mux)
    requires Alike(a, b) && Full(a) && Full(b)
    ensures a.zsets == b.zsets
  {
    hide S.NoEmpty, Z.NoEmpty;
    NoneEmpty();
    forall u ensures Lookup(a.zsets, u) == Lookup(b.zsets, u) {
      assert At(a, Instance(ZSet, u)) == At(b, Instance(ZSet, u));
      forall k, x ensures Lookup(Z.Of(Of(a.zsets, u), k), x) == Lookup(Z.Of(Of(b.zsets, u), k), x) {
        assert At(a, ZSetAt(u, k, x)) == At(b, ZSetAt(u, k, x));
      }
      SameZSets(Of(a.zsets, u), Of(b.zsets, u));
    }
    SameLookups(a.zsets, b.zsets);
  }

  /** The places determine the state. */
  lemma AlikeIsSame(a: Mux, b: Mux)
    requires Full(a) && Full(b) && a.maxInstances == b.maxInstances
    ensures Alike(a, b) <==> a == b
  {
    hide Alike, Full;
    if Alike(a, b) {
      AlikeKvs(a, b);
      AlikeLists(a, b);
      AlikeSets(a, b);
      AlikeZSets(a, b);
    }
    if a == b {
      AlikeItself(a);
    }
  }

  lemma AlikeItself(a: Mux)
    ensures Alike(a, a)
  {
  }

  // ----- the snapshot and the log it already holds -----

  /** Nothing that the records wrote has changed between the two states. */
  ghost predicate StillThere(records: seq<Record>, end: Mux, live: Mux, now: int)
  {
    forall p :: LastWritten(records, p, now).Some? ==> At(end, p) == At(live, p)
  }

  /** Absolute records that led to a state `end`, replayed onto a later state `live`, leave it as it is just when
      their deletions find their instances and nothing they wrote has changed since. */
  lemma ReplayedOnto(saved: Mux, end: Mux, live: Mux, records: seq<Record>, now: int)
    requires (forall r :: r in records ==> Absolute(r)) && Replay(saved, records, now) == Some(end) && Full(live)
    ensures Replay(live, records, now).Some? <==> Droppable(live, records)
    ensures Replay(live, records, now) == Some(live) <==> Droppable(live, records) && StillThere(records, end, live, now)
  {
    hide Absolute, Droppable, Full, At, LastWritten, Replay;
    ReplaysIfDroppable(saved, live, records, now);
    if Replay(live, records, now).Some? {
      var m := Replay(live, records, now).value;
      ReplaysFull(live, records, now);
      forall p ensures At(m, p) == At(live, p) <==> (LastWritten(records, p, now).Some? ==> At(end, p) == At(live, p)) {
        WriteAll(saved, records, now, p);
        WriteAll(live, records, now, p);
      }
      AlikeIsSame(m, live);
    }
  }

  lemma KeptIsFull(m: Mux)
    requires Kept(m)
    ensures Full(m)
  {
  }

  /** A snapshot saved without the log being truncated, whether by a crash or by a failing truncation, with `n` lines of
      the log left: if their records are absolute, the restart comes up in the live state just when every deletion
      among them finds its instance, and nothing they wrote was changed by a line that was not left. */
  lemma UntruncatedExactly(s: Server, n: nat, now: int)
    requires Inv(s) && n <= |s.lines| && forall r :: r in Recovered(s.lines[..n]) ==> Absolute(r)
    ensures var records := Recovered(s.lines[..n]);
      && (Restored(s.live, s.lines[..n], now).Some? <==> Droppable(s.live, records))
      && (Restored(s.live, s.lines[..n], now) == Some(s.live) <==>
            Droppable(s.live, records) && StillThere(records, s.past[n], s.live, now))
      && (n == |s.lines| ==> StillThere(records, s.past[n], s.live, now))
  {
    hide Kept, Absolute, Recovered, Replay, Droppable, Full, LastWritten, At;
    LiveWas(s);
    KeptIsFull(s.live);
    assert RecoversTo(s.saved, s.lines[..n], s.past[n]);
    assert Restored(s.saved, s.lines[..n], now) == Some(s.past[n]);
    ReplayedOnto(s.saved, s.past[n], s.live, Recovered(s.lines[..n]), now);
  }

  /** A save that fails to truncate: the restart comes up in the live state just when every deletion among the flushed
      records finds its instance, and nothing they wrote was changed by a line that was still buffered. */
  lemma FailedSaveExactly(s: Server, now: int)
    requires Inv(s) && forall r :: r in Recovered(s.lines[..s.flushed]) ==> Absolute(r)
    ensures var u, records := Untruncated(s), Recovered(s.lines[..s.flushed]);
      Restored(u.saved, u.lines, now) == Some(u.live) <==>
        Droppable(s.live, records) && StillThere(records, s.past[s.flushed], s.live, now)
  {
    hide Kept, Absolute, Recovered, Replay, Droppable, StillThere, RecoversTo;
    UntruncatedExactly(s, s.flushed, now);
  }

  /** A SET that was flushed brings its value back, whatever was set since and lost from the buffer. */
  lemma OlderValueReturns(live: Mux, uuid: Bytes, key: Bytes, value: Bytes, now: int)
    requires uuid in live.kvs
    ensures var r := KvRecord(uuid, K.SetRecord(key, value, None));
      Restored(live, [Entry(r)], now) == Some(live) <==> Lookup(live.kvs[uuid], key) == Some(K.Payload(value, None))
  {
    var r := KvRecord(uuid, K.SetRecord(key, value, None));
    OneLineRestores(live, r, now);
    var st := live.kvs[uuid];
    SamePut(live.kvs, uuid, st[key := K.Payload(value, None)]);
    if key in st {
      SamePut(st, key, K.Payload(value, None));
    }
  }

  lemma OneLineRestores(m: Mux, r: Record, now: int)
    ensures Restored(m, [Entry(r)], now) == Apply(m, r, now)
  {
    hide Apply, Recovered, Dangling;
    var none: Log := [];
    NothingLogged<Record>();
    AppendSingle(none, r);
    assert none + [Entry(r)] == [Entry(r)] && [] + [r] == [r];
    ReplayOne(m, r, now);
  }

  /** With the whole log left, what was written last is still there. */
  lemma UntruncatedWhole(s: Server, now: int)
    requires Inv(s) && forall r :: r in Recovered(s.lines) ==> Absolute(r)
    ensures Restored(s.live, s.lines, now).Some? <==> Droppable(s.live, Recovered(s.lines))
    ensures Restored(s.live, s.lines, now) == Some(s.live) <==> Droppable(s.live, Recovered(s.lines))
  {
    hide Inv, Absolute, Recovered, Replay, Droppable;
    assert s.lines[..|s.lines|] == s.lines;
    UntruncatedExactly(s, |s.lines|, now);
  }

  // ----- the other records: a log of one of them, replayed onto the snapshot that holds its effect -----

  /** Replay onto the state the record has led to, from a log of just that record. */
  function Again(m: Mux, r: Record, now: int): Option<Mux>
    requires Apply(m, r, now).Some?
  {
    Restored(Apply(m, r, now).value, [Entry(r)], now)
  }

  lemma AgainIsApply(m: Mux, r: Record, now: int)
    requires Apply(m, r, now).Some?
    ensures Again(m, r, now) == Apply(Apply(m, r, now).value, r, now)
  {
    OneLineRestores(Apply(m, r, now).value, r, now);
  }

  lemma ListAgain(m: Mux, uuid: Bytes, l: L.LRecord, now: int)
    requires L.Apply(Of(m.lists, uuid), l).Some?
    ensures var r, st := ListRecord(uuid, l), L.Apply(Of(m.lists, uuid), l).value;
      && (Again(m, r, now) == Apply(m, r, now) <==> L.Apply(st, l) == Some(st))
      && (Again(m, r, now) == None <==> L.Apply(st, l) == None)
  {
    hide L.Apply;
    var r, st := ListRecord(uuid, l), L.Apply(Of(m.lists, uuid), l).value;
    AgainIsApply(m, r, now);
    if L.Apply(st, l).Some? {
      SamePut(Apply(m, r, now).value.lists, uuid, L.Apply(st, l).value);
    }
  }

  /** A push is replayed twice, unless it was of no values. */
  lemma PushAgain(m: Mux, uuid: Bytes, left: bool, key: Bytes, values: seq<Bytes>, now: int)
    ensures var r := ListRecord(uuid, L.PushRecord(left, key, values));
      Again(m, r, now) == Apply(m, r, now) <==> values == []
  {
    var l, st := L.PushRecord(left, key, values), Of(m.lists, uuid);
    var st' := L.Apply(st, l).value;
    ListAgain(m, uuid, l, now);
    assert |st'[key]| == |L.Of(st, key)| + |values|;
    SamePut(st', key, L.Pushed(st'[key], values, left));
    if values == [] {
      assert Reversed(values) == [];
      assert [] + st'[key] == st'[key] && st'[key] + [] == st'[key];
    }
  }

  /** A pop takes a second element, or follows a nil pointer when it had emptied the list. */
  lemma PopAgain(m: Mux, uuid: Bytes, left: bool, key: Bytes, now: int)
    requires L.Of(Of(m.lists, uuid), key) != []
    ensures var r := ListRecord(uuid, L.PopRecord(left, key));
      && Again(m, r, now) != Apply(m, r, now)
      && (Again(m, r, now) == None <==> |Of(m.lists, uuid)[key]| == 1)
  {
    var l, st := L.PopRecord(left, key), Of(m.lists, uuid);
    var st' := L.Apply(st, l).value;
    ListAgain(m, uuid, l, now);
    assert |L.Of(st', key)| == |st[key]| - 1;
    if L.Apply(st', l).Some? {
      assert |L.Of(L.Apply(st', l).value, key)| == |st[key]| - 2;
    }
  }

  ghost predicate AllSame<T>(s: seq<T>)
  {
    forall i :: 0 <= i < |s| ==> s[i] == s[0]
  }

  lemma {:induction false} RotatedSame<T>(s: seq<T>, i: nat)
    requires i < |s| && s[1..] + s[..1] == s
    ensures s[i] == s[0]
  {
    if i > 0 {
      RotatedSame(s, i - 1);
      assert (s[1..] + s[..1])[i - 1] == s[i];
    }
  }

  lemma RotatesToItself<T>(s: seq<T>)
    requires s != []
    ensures s[1..] + s[..1] == s <==> AllSame(s)
    ensures s[|s| - 1..] + s[..|s| - 1] == s <==> AllSame(s)
  {
    if s[1..] + s[..1] == s {
      forall i | 0 <= i < |s| ensures s[i] == s[0] {
        RotatedSame(s, i);
      }
    }
    var t := s[|s| - 1..] + s[..|s| - 1];
    if t == s {
      forall i | 0 <= i < |s| ensures (s[1..] + s[..1])[i] == s[i] {
        assert t[0] == s[|s| - 1] && (i < |s| - 1 ==> t[i + 1] == s[i]);
      }
      forall i | 0 <= i < |s| ensures s[i] == s[0] {
        RotatedSame(s, i);
      }
    }
    if AllSame(s) {
      assert forall i :: 0 <= i < |s| ==> t[i] == s[0] == s[i];
    }
  }

  /** A move takes a second element, or follows a nil pointer; only within one list, at one end or among equal
      elements, does it change nothing. */
  lemma MoveAgain(m: Mux, uuid: Bytes, from: Bytes, to: Bytes, srcLeft: bool, dstLeft: bool, now: int)
    requires L.Of(Of(m.lists, uuid), from) != []
    ensures var r := ListRecord(uuid, L.MoveRecord(from, to, srcLeft, dstLeft));
      Again(m, r, now) == Apply(m, r, now) <==> from == to && (srcLeft == dstLeft || AllSame(Of(m.lists, uuid)[from]))
  {
    hide AllSame;
    var l, st := L.MoveRecord(from, to, srcLeft, dstLeft), Of(m.lists, uuid);
    ListAgain(m, uuid, l, now);
    if from == to {
      MoveWithin(st, from, srcLeft, dstLeft);
    } else {
      MoveAcross(st, from, to, srcLeft, dstLeft);
    }
  }

  lemma MoveAcross(st: L.LState, from: Bytes, to: Bytes, srcLeft: bool, dstLeft: bool)
    requires L.Of(st, from) != [] && from != to
    ensures var l := L.MoveRecord(from, to, srcLeft, dstLeft); L.Apply(L.Apply(st, l).value, l) != L.Apply(st, l)
  {
    hide L.Moved;
    var l := L.MoveRecord(from, to, srcLeft, dstLeft);
    var st' := L.Apply(st, l).value;
    MoveShortens(st, from, to, srcLeft, dstLeft);
    if L.Of(st', from) != [] {
      MoveShortens(st', from, to, srcLeft, dstLeft);
    }
  }

  lemma MoveShortens(st: L.LState, from: Bytes, to: Bytes, srcLeft: bool, dstLeft: bool)
    requires L.Of(st, from) != [] && from != to
    ensures |L.Of(L.Moved(st, from, to, srcLeft, dstLeft), from)| == |st[from]| - 1
  {
    hide L.Moved, L.Put, L.End;
    L.MovedLists(st, from, to, srcLeft, dstLeft);
  }

  lemma MoveWithin(st: L.LState, key: Bytes, srcLeft: bool, dstLeft: bool)
    requires L.Of(st, key) != []
    ensures var l := L.MoveRecord(key, key, srcLeft, dstLeft);
      L.Apply(L.Apply(st, l).value, l) == L.Apply(st, l) <==> srcLeft == dstLeft || AllSame(st[key])
  {
    hide L.Put, L.End, L.Popped, AllSame;
    var s, st' := st[key], L.Moved(st, key, key, srcLeft, dstLeft);
    L.MoveRotates(st, key, srcLeft, dstLeft);
    MovedStays(st, key, srcLeft, dstLeft);
    var t := st'[key];
    var st'' := L.Moved(st', key, key, srcLeft, dstLeft);
    L.MoveRotates(st', key, srcLeft, dstLeft);
    MovedStays(st', key, srcLeft, dstLeft);
    RotatesToItself(t);
    RotatedAllSame(s, t, srcLeft);
    SamePut(st', key, st''[key]);
  }

  /** A move within one list writes no key but its own. */
  lemma MovedStays(st: L.LState, key: Bytes, srcLeft: bool, dstLeft: bool)
    requires L.Of(st, key) != []
    ensures var st' := L.Moved(st, key, key, srcLeft, dstLeft); key in st' && st'[key] != [] && st' == st[key := st'[key]]
  {
    hide L.End, L.Popped;
  }

  lemma RotatedAllSame<T>(s: seq<T>, t: seq<T>, left: bool)
    requires s != [] && (t == s || t == if left then s[1..] + s[..1] else s[|s| - 1..] + s[..|s| - 1])
    ensures AllSame(t) <==> AllSame(s)
  {
    if t != s && AllSame(t) {
      forall i | 0 <= i < |s| ensures s[i] == t[0] {
        assert s[i] == t[if left then if i == 0 then |s| - 1 else i - 1 else if i == |s| - 1 then 0 else i + 1];
      }
    }
  }

  /** LINSERT inserts a second time, unless there is no such pivot. */
  lemma InsertAgain(m: Mux, uuid: Bytes, key: Bytes, pivot: Bytes, value: Bytes, before: bool, now: int)
    requires key in Of(m.lists, uuid)
    ensures var r := ListRecord(uuid, L.InsertRecord(key, pivot, value, before));
      Again(m, r, now) == Apply(m, r, now) <==> pivot !in Of(m.lists, uuid)[key]
  {
    hide L.FirstIndex;
    var l, st := L.InsertRecord(key, pivot, value, before), Of(m.lists, uuid);
    var st' := L.Apply(st, l).value;
    ListAgain(m, uuid, l, now);
    PivotStays(st[key], pivot, value, before);
    SamePut(st', key, L.InsertedAt(st'[key], pivot, value, before));
    if pivot in st[key] {
      PivotStays(st'[key], pivot, value, before);
    }
  }

  lemma PivotStays(s: seq<Bytes>, pivot: Bytes, value: Bytes, before: bool)
    ensures var t := L.InsertedAt(s, pivot, value, before);
      if pivot in s then pivot in t && |t| == |s| + 1 else t == s
  {
    var i := L.FirstIndex(s, pivot);
    if i.Some? {
      var t := L.InsertedAt(s, pivot, value, before);
      assert t[if before then i.value + 1 else i.value] == pivot;
    }
  }

  /** LREM removes more, or follows a nil pointer, unless the list is still there and has no such element left, or the
      count is the most negative one. */
  lemma RemoveAgain(m: Mux, uuid: Bytes, key: Bytes, count: int, value: Bytes, now: int)
    requires key in Of(m.lists, uuid)
    ensures var r := ListRecord(uuid, L.RemoveRecord(key, count, value));
      var rest := L.Remaining(Of(m.lists, uuid)[key], count, value);
      Again(m, r, now) == Apply(m, r, now) <==> rest != [] && (value !in rest || (count < 0 && L.FromRight(count) == 0))
  {
    hide L.Remaining, L.FromRight;
    var l, st := L.RemoveRecord(key, count, value), Of(m.lists, uuid);
    var st' := L.Apply(st, l).value;
    var rest := L.Remaining(st[key], count, value);
    ListAgain(m, uuid, l, now);
    if rest != [] {
      RemainsSame(rest, count, value);
      if L.Remaining(rest, count, value) != [] {
        SamePut(st', key, L.Remaining(rest, count, value));
      }
    }
  }

  lemma RemainsSame(s: seq<Bytes>, count: int, x: Bytes)
    requires s != []
    ensures L.Remaining(s, count, x) == s <==> x !in s || (count < 0 && L.FromRight(count) == 0)
  {
    var n := if count > 0 then count else if count < 0 then L.FromRight(count) else |s|;
    var t := if count < 0 then Reversed(s) else s;
    L.RemoveFirstIsExact(t, n, x);
    OccursIfIn(t, x);
    L.RemovedNothing(s, count, x);
    if count < 0 {
      L.RemoveLastMirrors(s, n, x);
      InReversed(s, x);
    }
  }

  lemma InReversed<T>(s: seq<T>, x: T)
    ensures x in Reversed(s) <==> x in s
  {
    if x in s {
      var i :| 0 <= i < |s| && s[i] == x;
      assert Reversed(s)[|s| - 1 - i] == x;
    }
  }

  lemma {:induction false} OccursIfIn<T>(s: seq<T>, x: T)
    ensures L.Occurrences(s, x) > 0 <==> x in s
  {
    if s != [] {
      OccursIfIn(s[1..], x);
      assert s == [s[0]] + s[1..];
    }
  }

  /** LSET writes the same element again. */
  lemma ReplaceAgain(m: Mux, uuid: Bytes, key: Bytes, index: int, value: Bytes, now: int)
    requires key in Of(m.lists, uuid)
    ensures var r := ListRecord(uuid, L.ReplaceRecord(key, index, value)); Again(m, r, now) == Apply(m, r, now)
  {
    var l, st := L.ReplaceRecord(key, index, value), Of(m.lists, uuid);
    var st' := L.Apply(st, l).value;
    ListAgain(m, uuid, l, now);
    PutBack(st', key);
    if 0 <= index < |st[key]| {
      assert st'[key][index := value] == st'[key];
    }
  }

  /** But if the list was deleted later, replay follows a nil pointer. */
  lemma ReplaceThenDelete(m: Mux, uuid: Bytes, key: Bytes, index: int, value: Bytes, now: int)
    requires key in Of(m.lists, uuid)
    ensures var records := [ListRecord(uuid, L.ReplaceRecord(key, index, value)), ListRecord(uuid, L.ListDeleteRecord(key))];
      Replay(m, records, now).Some? && Replay(Replay(m, records, now).value, records, now) == None
  {
    var set1, del := ListRecord(uuid, L.ReplaceRecord(key, index, value)), ListRecord(uuid, L.ListDeleteRecord(key));
    var records := [set1, del];
    assert records == [set1] + [del];
    ReplayAppend(m, [set1], [del], now);
    ReplayOne(m, set1, now);
    var m1 := Apply(m, set1, now).value;
    ReplayOne(m1, del, now);
    var m2 := Apply(m1, del, now).value;
    ReplayAppend(m2, [set1], [del], now);
    ReplayOne(m2, set1, now);
  }

  /** ZINCRBY adds a second time, unless it adds nothing. */
  lemma IncrementAgain(m: Mux, uuid: Bytes, key: Bytes, increment: Score, member: Bytes, now: int)
    ensures var r := ZSetRecord(uuid, Z.ZIncrByRecord(key, increment, member));
      Again(m, r, now) == Apply(m, r, now) <==> increment == 0.0
  {
    var z, st := Z.ZIncrByRecord(key, increment, member), Of(m.zsets, uuid);
    var r, st' := ZSetRecord(uuid, z), Z.Apply(st, z);
    AgainIsApply(m, r, now);
    SamePut(Apply(m, r, now).value.zsets, uuid, Z.Apply(st', z));
    SamePut(st', key, Z.Apply(st', z)[key]);
    SamePut(st'[key], member, st'[key][member] + increment);
  }

  /** A STORE form stores the same again, whether or not the destination is one of its sources. */
  lemma StoreAgain(m: Mux, uuid: Bytes, op: S.Algebra, to: Bytes, keys: seq<Bytes>, now: int)
    ensures var r := SetRecord(uuid, S.SStoreRecord(op, to, keys)); Again(m, r, now) == Apply(m, r, now)
  {
    hide S.Query;
    var s, st := S.SStoreRecord(op, to, keys), Of(m.sets, uuid);
    var r, st' := SetRecord(uuid, s), S.Apply(st, s);
    AgainIsApply(m, r, now);
    assert st' - {to} == st - {to};
    assert S.Put(st', to, S.Query(st - {to}, op, keys)) == st';
    SamePut(Apply(m, r, now).value.sets, uuid, S.Apply(st', s));
  }

  /** But if a source has grown since, so does what is stored. */
  lemma StoreThenAdd(m: Mux, uuid: Bytes, from: Bytes, to: Bytes, x: Bytes, now: int)
    requires from != to && x !in S.Of(Of(m.sets, uuid), from)
    ensures var records := [SetRecord(uuid, S.SStoreRecord(S.Union, to, [from])), SetRecord(uuid, S.SAddRecord(from, [x]))];
      Replay(m, records, now).Some? && Replay(Replay(m, records, now).value, records, now) != Replay(m, records, now)
  {
    var store, add := SetRecord(uuid, S.SStoreRecord(S.Union, to, [from])), SetRecord(uuid, S.SAddRecord(from, [x]));
    var records := [store, add];
    assert records == [store] + [add];
    ReplayAppend(m, [store], [add], now);
    ReplayOne(m, store, now);
    var m1 := Apply(m, store, now).value;
    ReplayOne(m1, add, now);
    var m2 := Apply(m1, add, now).value;
    ReplayAppend(m2, [store], [add], now);
    ReplayOne(m2, store, now);
    var m3 := Apply(m2, store, now).value;
    ReplayOne(m3, add, now);
    StoredHas(Of(m.sets, uuid), from, to, x);
    AddKeeps(m1.sets[uuid], from, to, x);
    StoredHas(m2.sets[uuid], from, to, x);
    AddKeeps(m3.sets[uuid], from, to, x);
  }

  lemma StoredHas(st: S.SState, from: Bytes, to: Bytes, x: Bytes)
    requires from != to
    ensures x in S.Of(S.Stored(st, S.Union, to, [from]), to) <==> x in S.Of(st, from)
  {
    assert S.Of(st - {to}, from) == S.Of(st, from);
    assert x in S.Query(st - {to}, S.Union, [from]) <==> x in S.Of(st, from) by {
      assert forall k :: k in [from] <==> k == from;
      assert from in [from];
    }
  }

  lemma AddKeeps(st: S.SState, from: Bytes, to: Bytes, x: Bytes)
    requires from != to
    ensures var st' := S.Apply(st, S.SAddRecord(from, [x])); S.Of(st', to) == S.Of(st, to) && x in S.Of(st', from)
  {
    assert x in Collections.Elements([x]);
  }

  /** A deletion of an instance does not find it: the restart fails. */
  lemma DropAgain(m: Mux, kind: Kind, uuid: Bytes, now: int)
    requires Has(m, kind, uuid)
    ensures Again(m, DropRecord(kind, uuid), now) == None
  {
    AgainIsApply(m, DropRecord(kind, uuid), now);
  }
}
