/** What the engines and the multiplexer put in a snapshot, and what is loaded from it. */
module SnapshotState {
  import opened Ordering
  import opened Collections
  import opened Decimal
  import opened Snapshots
  import opened Multiplexers
  import SortedSets
  import K = KvStorage
  import Z = ZSetStorage

  /** One key of an engine. All four engines write the key, their body, the time of creation and the deadline. */
  datatype Entry<+T> = Entry(key: Bytes, body: T, createdAt: int, expiresAt: Option<int>)

  /** How the bits of a score are got and read is the machine's. */
  datatype Bits = Bits(of: Score -> nat, from: nat -> Score)
  {
    predicate Reads(x: Score)
    {
      of(x) < TWO64 && from(of(x)) == x
    }
  }

  datatype Dump =
    | KvDump(kv: seq<Entry<Bytes>>)
    | ListDump(l: seq<Entry<seq<Bytes>>>)
    | SetDump(s: seq<Entry<seq<Bytes>>>)
    | ZSetDump(z: seq<Entry<seq<Pair>>>)

  type Instance = (Bytes, Dump)

  // ----- entries -----

  function WriteExpiry(deadline: Option<int>): Bytes
  {
    if deadline.None? then Le(1, 0) else Le(1, 1) + WriteInt64(deadline.value)
  }

  /** Any flag but 1 says there is no deadline. */
  function ReadExpiry(s: Bytes): Read<Option<int>>
  {
    Bind(ReadU8(s), (flag: nat, t: Bytes) => if flag == 1 then ReadMap(ReadInt64, d => Some(d), t) else Got(None, t))
  }

  predicate FitsTime(deadline: Option<int>)
  {
    deadline.Some? ==> IsInt64(deadline.value)
  }

  lemma ExpiryTrips(deadline: Option<int>)
    requires FitsTime(deadline)
    ensures Trips(WriteExpiry(deadline), ReadExpiry, deadline)
  {
    hide Trips, Le, ReadLe, Pow256, Bind, ReadInt64, WriteInt64, ReadMap;
    Widths();
    var next := (flag: nat, t: Bytes) => if flag == 1 then ReadMap(ReadInt64, d => Some(d), t) else Got(None, t);
    if deadline.None? {
      var done: Bytes -> Read<Option<int>> := t => Got(None, t);
      DoneTrips(None, done);
      LeTrips(1, 0, ReadU8);
      BindTrips<nat, Option<int>>(Le(1, 0), ReadU8, 0, [], done, None, next, ReadExpiry);
      assert Le(1, 0) + [] == Le(1, 0);
    } else {
      var n := deadline.value;
      Int64Trips(n);
      var some: Bytes -> Read<Option<int>> := t => ReadMap(ReadInt64, d => Some(d), t);
      MapTrips(WriteInt64(n), ReadInt64, n, d => Some(d), some);
      LeTrips(1, 1, ReadU8);
      BindTrips<nat, Option<int>>(Le(1, 1), ReadU8, 1, WriteInt64(n), some, deadline, next, ReadExpiry);
    }
  }

  function WriteEntry<T>(e: Entry<T>, body: Bytes): Bytes
  {
    WriteBytes(e.key) + body + (WriteInt64(e.createdAt) + WriteExpiry(e.expiresAt))
  }

  function ReadEntry<T>(read: Bytes -> Read<T>, s: Bytes): Read<Entry<T>>
  {
    ReadMap(t => ReadPair(u => ReadPair(ReadBytes, read, u), u => ReadPair(ReadInt64, ReadExpiry, u), t),
            (x: ((Bytes, T), (int, Option<int>))) => Entry(x.0.0, x.0.1, x.1.0, x.1.1), s)
  }

  predicate Fits<T>(e: Entry<T>)
  {
    |e.key| < 0x1_0000_0000 && IsInt64(e.createdAt) && FitsTime(e.expiresAt)
  }

  lemma EntryTrips<T(!new)>(e: Entry<T>, body: Bytes, read: Bytes -> Read<T>, all: Bytes -> Read<Entry<T>>)
    requires Fits(e) && Trips(body, read, e.body) && forall s :: all(s) == ReadEntry(read, s)
    ensures Trips(WriteEntry(e, body), all, e)
  {
    hide Trips, WriteBytes, ReadBytes, WriteInt64, ReadInt64, WriteExpiry, ReadExpiry, ReadPair, ReadMap;
    BytesTrips(e.key);
    Int64Trips(e.createdAt);
    ExpiryTrips(e.expiresAt);
    var head := u => ReadPair(ReadBytes, read, u);
    var tail := u => ReadPair(ReadInt64, ReadExpiry, u);
    var both := t => ReadPair(head, tail, t);
    PairTrips<Bytes, T>(WriteBytes(e.key), ReadBytes, e.key, body, read, e.body, head);
    PairTrips<int, Option<int>>(WriteInt64(e.createdAt), ReadInt64, e.createdAt, WriteExpiry(e.expiresAt), ReadExpiry, e.expiresAt, tail);
    PairTrips(WriteBytes(e.key) + body, head, (e.key, e.body), WriteInt64(e.createdAt) + WriteExpiry(e.expiresAt), tail,
              (e.createdAt, e.expiresAt), both);
    MapTrips(WriteEntry(e, body), both, ((e.key, e.body), (e.createdAt, e.expiresAt)),
             (x: ((Bytes, T), (int, Option<int>))) => Entry(x.0.0, x.0.1, x.1.0, x.1.1), all);
  }

  // ----- bodies -----

  function WriteElements(values: seq<Bytes>): Bytes
  {
    WriteCounted(Written(values, WriteBytes))
  }

  function ReadElements(s: Bytes): Read<seq<Bytes>>
  {
    ReadCounted(ReadBytes, s)
  }

  lemma ElementsTrip(values: seq<Bytes>)
    requires |values| < TWO64 && forall x :: x in values ==> |x| < 0x1_0000_0000
    ensures Trips(WriteElements(values), ReadElements, values)
  {
    hide Trips, WriteBytes, ReadBytes, WriteCounted, ReadCounted;
    forall i | 0 <= i < |values| ensures Trips(Written(values, WriteBytes)[i], ReadBytes, values[i]) {
      BytesTrips(values[i]);
    }
    CountedTrips(Written(values, WriteBytes), values, ReadBytes, ReadElements);
  }

  /** Member, then the bits of its score. */
  function WriteScored(p: Pair, bits: Bits): Bytes
  {
    WriteBytes(p.ele) + Le(8, bits.of(p.score))
  }

  function ReadScored(bits: Bits, s: Bytes): Read<Pair>
  {
    ReadMap(t => ReadPair(ReadBytes, ReadU64, t), (x: (Bytes, nat)) => Pair(bits.from(x.1), x.0), s)
  }

  function WritePairs(pairs: seq<Pair>, bits: Bits): Bytes
  {
    WriteCounted(Written(pairs, p => WriteScored(p, bits)))
  }

  function ReadPairs(bits: Bits, s: Bytes): Read<seq<Pair>>
  {
    ReadCounted(t => ReadScored(bits, t), s)
  }

  lemma ScoredTrips(p: Pair, bits: Bits, read: Bytes -> Read<Pair>)
    requires |p.ele| < 0x1_0000_0000 && bits.Reads(p.score) && forall s :: read(s) == ReadScored(bits, s)
    ensures Trips(WriteScored(p, bits), read, p)
  {
    hide Trips, WriteBytes, ReadBytes, Le, ReadLe, Pow256, ReadPair, ReadMap;
    Widths();
    BytesTrips(p.ele);
    var n := bits.of(p.score);
    LeTrips(8, n, ReadU64);
    var both := t => ReadPair(ReadBytes, ReadU64, t);
    PairTrips<Bytes, nat>(WriteBytes(p.ele), ReadBytes, p.ele, Le(8, n), ReadU64, n, both);
    MapTrips(WriteScored(p, bits), both, (p.ele, n), (x: (Bytes, nat)) => Pair(bits.from(x.1), x.0), read);
  }

  lemma PairsTrip(pairs: seq<Pair>, bits: Bits, read: Bytes -> Read<seq<Pair>>)
    requires |pairs| < TWO64 && forall p :: p in pairs ==> |p.ele| < 0x1_0000_0000 && bits.Reads(p.score)
    requires forall s :: read(s) == ReadPairs(bits, s)
    ensures Trips(WritePairs(pairs, bits), read, pairs)
  {
    hide Trips, WriteScored, ReadScored, WriteCounted, ReadCounted;
    var one := t => ReadScored(bits, t);
    var ws := Written(pairs, p => WriteScored(p, bits));
    forall i | 0 <= i < |pairs| ensures Trips(ws[i], one, pairs[i]) {
      ScoredTrips(pairs[i], bits, one);
    }
    CountedTrips(ws, pairs, one, read);
  }

  // ----- engines -----

  function WriteEntries<T>(entries: seq<Entry<T>>, write: T -> Bytes): Bytes
  {
    WriteCounted(Written(entries, (e: Entry<T>) => WriteEntry(e, write(e.body))))
  }

  function ReadEntries<T>(read: Bytes -> Read<T>, s: Bytes): Read<seq<Entry<T>>>
  {
    ReadCounted(t => ReadEntry(read, t), s)
  }

  lemma EntriesTrip<T(!new)>(entries: seq<Entry<T>>, write: T -> Bytes, read: Bytes -> Read<T>, all: Bytes -> Read<seq<Entry<T>>>)
    requires |entries| < TWO64 && forall s :: all(s) == ReadEntries(read, s)
    requires forall e :: e in entries ==> Fits(e) && Trips(write(e.body), read, e.body)
    ensures Trips(WriteEntries(entries, write), all, entries)
  {
    hide Trips, Fits, WriteEntry, ReadEntry, WriteCounted, ReadCounted;
    var one := t => ReadEntry(read, t);
    var ws := Written(entries, (e: Entry<T>) => WriteEntry(e, write(e.body)));
    forall i | 0 <= i < |entries| ensures Trips(ws[i], one, entries[i]) {
      assert entries[i] in entries;
      EntryTrips(entries[i], write(entries[i].body), read, one);
    }
    CountedTrips(ws, entries, one, all);
  }

  /** The names of the kinds: kv, list, set, zset. */
  function DsType(d: Dump): Bytes
  {
    match d
    case KvDump(_) => [107, 118]
    case ListDump(_) => [108, 105, 115, 116]
    case SetDump(_) => [115, 101, 116]
    case ZSetDump(_) => [122, 115, 101, 116]
  }

  function WriteDump(d: Dump, bits: Bits): Bytes
  {
    match d
    case KvDump(kv) => WriteEntries(kv, WriteBytes)
    case ListDump(l) => WriteEntries(l, WriteElements)
    case SetDump(s) => WriteEntries(s, WriteElements)
    case ZSetDump(z) => WriteEntries(z, pairs => WritePairs(pairs, bits))
  }

  function ReadDump(dsType: Bytes, bits: Bits, s: Bytes): Read<Dump>
  {
    if dsType == [107, 118] then ReadMap(t => ReadEntries(ReadBytes, t), x => KvDump(x), s)
    else if dsType == [108, 105, 115, 116] then ReadMap(t => ReadEntries(ReadElements, t), x => ListDump(x), s)
    else if dsType == [115, 101, 116] then ReadMap(t => ReadEntries(ReadElements, t), x => SetDump(x), s)
    else if dsType == [122, 115, 101, 116] then
      ReadMap(t => ReadEntries(u => ReadPairs(bits, u), t), x => ZSetDump(x), s)
    else Fail
  }

  /** Lengths fit 32 bits, times 64, and scores read back. */
  predicate FitsElements(values: seq<Bytes>)
  {
    |values| < TWO64 && forall x :: x in values ==> |x| < 0x1_0000_0000
  }

  predicate FitsDump(d: Dump, bits: Bits)
  {
    match d
    case KvDump(kv) => |kv| < TWO64 && forall e :: e in kv ==> Fits(e) && |e.body| < 0x1_0000_0000
    case ListDump(l) => |l| < TWO64 && forall e :: e in l ==> Fits(e) && FitsElements(e.body)
    case SetDump(s) => |s| < TWO64 && forall e :: e in s ==> Fits(e) && FitsElements(e.body)
    case ZSetDump(z) =>
      && |z| < TWO64
      && forall e :: e in z ==>
        Fits(e) && |e.body| < TWO64 && forall p :: p in e.body ==> |p.ele| < 0x1_0000_0000 && bits.Reads(p.score)
  }

  lemma DumpTrips(d: Dump, bits: Bits, read: Bytes -> Read<Dump>)
    requires FitsDump(d, bits) && forall s :: read(s) == ReadDump(DsType(d), bits, s)
    ensures Trips(WriteDump(d, bits), read, d)
  {
    hide Trips, Fits, WriteEntries, ReadEntries, WriteElements, ReadElements, WriteBytes, ReadBytes, WritePairs, ReadPairs, ReadMap;
    match d {
      case KvDump(kv) =>
        var all := t => ReadEntries(ReadBytes, t);
        forall e | e in kv ensures Trips(WriteBytes(e.body), ReadBytes, e.body) { BytesTrips(e.body); }
        EntriesTrip(kv, WriteBytes, ReadBytes, all);
        MapTrips(WriteDump(d, bits), all, kv, x => KvDump(x), read);
      case ListDump(l) =>
        var all := t => ReadEntries(ReadElements, t);
        forall e | e in l ensures Trips(WriteElements(e.body), ReadElements, e.body) { ElementsTrip(e.body); }
        EntriesTrip(l, WriteElements, ReadElements, all);
        MapTrips(WriteDump(d, bits), all, l, x => ListDump(x), read);
      case SetDump(m) =>
        var all := t => ReadEntries(ReadElements, t);
        forall e | e in m ensures Trips(WriteElements(e.body), ReadElements, e.body) { ElementsTrip(e.body); }
        EntriesTrip(m, WriteElements, ReadElements, all);
        MapTrips(WriteDump(d, bits), all, m, x => SetDump(x), read);
      case ZSetDump(z) =>
        var one := u => ReadPairs(bits, u);
        var all := t => ReadEntries(one, t);
        forall e | e in z ensures Trips(WritePairs(e.body, bits), one, e.body) { PairsTrip(e.body, bits, one); }
        EntriesTrip(z, pairs => WritePairs(pairs, bits), one, all);
        MapTrips(WriteDump(d, bits), all, z, x => ZSetDump(x), read);
    }
  }

  // ----- the multiplexer -----

  function WriteInstance(x: Instance, bits: Bits): Bytes
  {
    WriteBytes(DsType(x.1)) + (WriteBytes(x.0) + WriteSized(WriteDump(x.1, bits)))
  }

  /** The uuid and then the engine's own section, once the kind has been read. */
  function ReadKind(dsType: Bytes, bits: Bits, s: Bytes): Read<Instance>
  {
    ReadPair(ReadBytes, t => ReadSized(u => ReadDump(dsType, bits, u), t), s)
  }

  function ReadInstance(bits: Bits, s: Bytes): Read<Instance>
  {
    Bind(ReadBytes(s), (dsType: Bytes, t: Bytes) => ReadKind(dsType, bits, t))
  }

  function WriteMux(instances: seq<Instance>, bits: Bits): Bytes
  {
    WriteCounted(Written(instances, x => WriteInstance(x, bits)))
  }

  function ReadMux(bits: Bits, s: Bytes): Read<seq<Instance>>
  {
    ReadCounted(t => ReadInstance(bits, t), s)
  }

  predicate FitsInstance(x: Instance, bits: Bits)
  {
    |x.0| < 0x1_0000_0000 && FitsDump(x.1, bits) && |WriteDump(x.1, bits)| < TWO63
  }

  lemma InstanceTrips(x: Instance, bits: Bits, all: Bytes -> Read<Instance>)
    requires FitsInstance(x, bits) && forall s :: all(s) == ReadInstance(bits, s)
    ensures Trips(WriteInstance(x, bits), all, x)
  {
    hide Bind, WriteBytes, ReadBytes, WriteSized, ReadSized, WriteDump, ReadDump, FitsDump, ReadPair;
    var ds, w := DsType(x.1), WriteDump(x.1, bits);
    var read := u => ReadDump(ds, bits, u);
    DumpTrips(x.1, bits, read);
    assert read(w + []) == Got(x.1, []) && w + [] == w;
    var sized := t => ReadSized(read, t);
    SizedTrips(w, read, x.1, sized);
    BytesTrips(x.0);
    BytesTrips(ds);
    var tail := t => ReadKind(ds, bits, t);
    SamePair(ds, bits, sized, tail);
    PairTrips<Bytes, Dump>(WriteBytes(x.0), ReadBytes, x.0, WriteSized(w), sized, x.1, tail);
    InstanceGlue(x, bits, tail, all);
  }

  lemma SamePair(ds: Bytes, bits: Bits, sized: Bytes -> Read<Dump>, tail: Bytes -> Read<Instance>)
    requires (forall s :: sized(s) == ReadSized(u => ReadDump(ds, bits, u), s)) && forall s :: tail(s) == ReadKind(ds, bits, s)
    ensures forall s :: tail(s) == ReadPair(ReadBytes, sized, s)
  {
  }

  lemma InstanceGlue(x: Instance, bits: Bits, tail: Bytes -> Read<Instance>, all: Bytes -> Read<Instance>)
    requires Trips(WriteBytes(DsType(x.1)), ReadBytes, DsType(x.1))
    requires Trips(WriteBytes(x.0) + WriteSized(WriteDump(x.1, bits)), tail, x)
    requires (forall t :: tail(t) == ReadKind(DsType(x.1), bits, t)) && forall s :: all(s) == ReadInstance(bits, s)
    ensures Trips(WriteInstance(x, bits), all, x)
  {
    hide Trips, Bind, WriteBytes, ReadBytes, WriteSized, WriteDump, ReadKind;
    BindTrips<Bytes, Instance>(WriteBytes(DsType(x.1)), ReadBytes, DsType(x.1),
                               WriteBytes(x.0) + WriteSized(WriteDump(x.1, bits)), tail, x,
                               (ds: Bytes, t: Bytes) => ReadKind(ds, bits, t), all);
  }

  lemma MuxTrips(instances: seq<Instance>, bits: Bits, all: Bytes -> Read<seq<Instance>>)
    requires |instances| < TWO64 && (forall x :: x in instances ==> FitsInstance(x, bits))
    requires forall s :: all(s) == ReadMux(bits, s)
    ensures Trips(WriteMux(instances, bits), all, instances)
  {
    hide Trips, FitsInstance, WriteInstance, ReadInstance, WriteCounted, ReadCounted;
    var one := t => ReadInstance(bits, t);
    var ws := Written(instances, x => WriteInstance(x, bits));
    forall i | 0 <= i < |instances| ensures Trips(ws[i], one, instances[i]) {
      InstanceTrips(instances[i], bits, one);
    }
    CountedTrips(ws, instances, one, all);
  }

  // ----- the snapshot file -----

  const MUX: Bytes := [109, 117, 120]

  function SavedFile(instances: seq<Instance>, bits: Bits): Bytes
  {
    WriteSnapshot([(MUX, WriteMux(instances, bits))])
  }

  /** Only the multiplexer is registered; a section of any other name is an error. */
  function LoadFile(bits: Bits, file: Bytes): Read<seq<(Bytes, seq<Instance>)>>
  {
    ReadSnapshot((id: Bytes, s: Bytes) => if id == MUX then ReadMux(bits, s) else Fail, file)
  }

  /** What is saved loads back through all the nested sections, entry by entry with their creation times and
      deadlines; and no strict prefix of the file loads. */
  lemma FileTrips(instances: seq<Instance>, bits: Bits)
    requires |instances| < TWO64 && (forall x :: x in instances ==> FitsInstance(x, bits))
    requires |WriteMux(instances, bits)| < TWO63
    ensures LoadFile(bits, SavedFile(instances, bits)) == Got([(MUX, instances)], [])
    ensures forall n :: 0 <= n < |SavedFile(instances, bits)| ==> LoadFile(bits, SavedFile(instances, bits)[..n]).Fail?
  {
    hide FitsInstance, WriteMux, ReadMux, WriteSnapshot, ReadSnapshot;
    var w, file := WriteMux(instances, bits), SavedFile(instances, bits);
    var read := s => ReadMux(bits, s);
    MuxTrips(instances, bits, read);
    assert read(w + []) == Got(instances, []) && w + [] == w;
    var deserialize := (id: Bytes, s: Bytes) => if id == MUX then ReadMux(bits, s) else Fail;
    var all := s => ReadSnapshot(deserialize, s);
    SnapshotTrips([(MUX, w)], deserialize, [(MUX, instances)], all);
    assert all(file + []) == Got([(MUX, instances)], []) && file + [] == file;
    forall n | 0 <= n < |file| ensures LoadFile(bits, file[..n]).Fail? {
      assert all(file[..n]).Fail?;
    }
  }

  lemma OneWritten<T>(x: T, write: T -> Bytes)
    ensures WriteCounted(Written([x], write)) == [1, 0, 0, 0, 0, 0, 0, 0] + write(x)
  {
    LeSmall(1);
    var ws := Written([x], write);
    assert ws == [write(x)] && ws[1..] == [] && Flat(ws) == write(x) + Flat([]);
  }

  lemma OneEntry<T>(e: Entry<T>, write: T -> Bytes)
    ensures WriteEntries([e], write) == [1, 0, 0, 0, 0, 0, 0, 0] + WriteEntry(e, write(e.body))
  {
    OneWritten(e, (x: Entry<T>) => WriteEntry(x, write(x.body)));
  }

  lemma DumpExample(bits: Bits)
    ensures WriteDump(KvDump([Entry([1], [2], 3, None)]), bits) ==
      [1, 0, 0, 0, 0, 0, 0, 0, 1, 0, 0, 0, 1, 1, 0, 0, 0, 2, 3, 0, 0, 0, 0, 0, 0, 0, 0]
  {
    hide WriteCounted, Written, WriteBytes, Le;
    LeSmall(0);
    LeSmall(3);
    var e: Entry<Bytes> := Entry([1], [2], 3, None);
    OneEntry(e, WriteBytes);
    ShortBytes();
    assert WriteEntry(e, WriteBytes([2])) == [1, 0, 0, 0, 1, 1, 0, 0, 0, 2, 3, 0, 0, 0, 0, 0, 0, 0, 0];
  }

  lemma ShortBytes()
    ensures WriteBytes([107, 118]) == [2, 0, 0, 0, 107, 118] && WriteBytes([7]) == [1, 0, 0, 0, 7]
    ensures WriteBytes([1]) == [1, 0, 0, 0, 1] && WriteBytes([2]) == [1, 0, 0, 0, 2]
  {
    hide Le;
    LeSmall(1);
    LeSmall(2);
  }

  lemma SizedExample(w: Bytes)
    requires |w| == 27
    ensures WriteSized(w) == [27, 0, 0, 0, 0, 0, 0, 0] + w
  {
    hide Le;
    LeSmall(27);
  }

  lemma InstanceExample(bits: Bits)
    ensures WriteInstance(([7], KvDump([Entry([1], [2], 3, None)])), bits) ==
      [2, 0, 0, 0, 107, 118, 1, 0, 0, 0, 7, 27, 0, 0, 0, 0, 0, 0, 0] +
      [1, 0, 0, 0, 0, 0, 0, 0, 1, 0, 0, 0, 1, 1, 0, 0, 0, 2, 3, 0, 0, 0, 0, 0, 0, 0, 0]
  {
    hide WriteDump, WriteBytes, WriteSized;
    DumpExample(bits);
    ShortBytes();
    SizedExample(WriteDump(KvDump([Entry([1], [2], 3, None)]), bits));
  }

  /** The bytes of a small file: an instance with uuid 7 holds the key 1 with the value 2, created at time 3, and no
      deadline. */
  lemma FileExample(bits: Bits)
    ensures SavedFile([([7], KvDump([Entry([1], [2], 3, None)]))], bits) ==
      [82, 67, 68, 66, 1, 0, 1, 0, 0, 0, 0, 0, 0, 0] +                            // RCDB, the version, one section
      [3, 0, 0, 0, 109, 117, 120, 54, 0, 0, 0, 0, 0, 0, 0] +                      // mux and its size
      [1, 0, 0, 0, 0, 0, 0, 0] +                                                  // one instance
      ([2, 0, 0, 0, 107, 118, 1, 0, 0, 0, 7, 27, 0, 0, 0, 0, 0, 0, 0] +           // kv, its uuid, its size
       [1, 0, 0, 0, 0, 0, 0, 0, 1, 0, 0, 0, 1, 1, 0, 0, 0, 2, 3, 0, 0, 0, 0, 0, 0, 0, 0])
  {
    hide WriteCounted, WriteInstance, Le;
    var x: Instance := ([7], KvDump([Entry([1], [2], 3, None)]));
    LeSmall(1);
    LeSmall(3);
    LeSmall(54);
    InstanceExample(bits);
    OneWritten(x, y => WriteInstance(y, bits));
    var w := WriteMux([x], bits);
    assert |w| == 54;
    assert WriteSection(MUX, w) == [3, 0, 0, 0, 109, 117, 120, 54, 0, 0, 0, 0, 0, 0, 0] + w;
    assert WriteHeader(1) == [82, 67, 68, 66, 1, 0, 1, 0, 0, 0, 0, 0, 0, 0];
    var ws := Written([(MUX, w)], (y: (Bytes, Bytes)) => WriteSection(y.0, y.1));
    assert ws == [WriteSection(MUX, w)] && ws[1..] == [] && Flat(ws) == WriteSection(MUX, w) + Flat([]);
  }

  // ----- the states they stand for -----

  /** The map a loading loop fills, a later entry replacing an earlier one of the same key. */
  function Filled<T, V>(entries: seq<Entry<T>>, value: Entry<T> -> V): map<Bytes, V>
  {
    if entries == [] then map[]
    else
      var e := entries[|entries| - 1];
      Filled(entries[..|entries| - 1], value)[e.key := value(e)]
  }

  /** The entries are those of the map, each key once, in whatever order the map is walked. */
  ghost predicate Lists<T, V>(entries: seq<Entry<T>>, value: Entry<T> -> V, st: map<Bytes, V>)
  {
    && |entries| == |st|
    && (forall e :: e in entries ==> e.key in st && value(e) == st[e.key])
    && (forall k :: k in st ==> exists i :: 0 <= i < |entries| && entries[i].key == k)
  }

  lemma {:induction false} FilledKeys<T, V>(entries: seq<Entry<T>>, value: Entry<T> -> V, st: map<Bytes, V>)
    requires forall e :: e in entries ==> e.key in st && value(e) == st[e.key]
    ensures forall k :: k in Filled(entries, value) ==> k in st && Filled(entries, value)[k] == st[k]
    ensures forall i :: 0 <= i < |entries| ==> entries[i].key in Filled(entries, value)
  {
    if entries != [] {
      var front, e := entries[..|entries| - 1], entries[|entries| - 1];
      assert e in entries && forall x :: x in front ==> x in entries;
      FilledKeys(front, value, st);
    }
  }

  lemma FilledIsListed<T, V>(entries: seq<Entry<T>>, value: Entry<T> -> V, st: map<Bytes, V>)
    requires Lists(entries, value, st)
    ensures Filled(entries, value) == st
  {
    FilledKeys(entries, value, st);
    forall k | k in st ensures k in Filled(entries, value) {
      var i :| 0 <= i < |entries| && entries[i].key == k;
    }
  }

  function KvValue(e: Entry<Bytes>): K.Payload { K.Payload(e.body, e.expiresAt) }
  function ListValue(e: Entry<seq<Bytes>>): seq<Bytes> { e.body }
  function SetValue(e: Entry<seq<Bytes>>): set<Bytes> { Elements(e.body) }
  function ZSetValue(e: Entry<seq<Pair>>): Z.Scores { SortedSets.Added(map[], e.body) }

  /** The instance the dump makes, in its place. */
  function Placed(m: Mux, x: Instance): Mux
  {
    match x.1
    case KvDump(kv) => m.(kvs := m.kvs[x.0 := Filled(kv, KvValue)])
    case ListDump(l) => m.(lists := m.lists[x.0 := Filled(l, ListValue)])
    case SetDump(s) => m.(sets := m.sets[x.0 := Filled(s, SetValue)])
    case ZSetDump(z) => m.(zsets := m.zsets[x.0 := Filled(z, ZSetValue)])
  }

  function Loaded(instances: seq<Instance>, maxInstances: int): Mux
  {
    if instances == [] then Mux(map[], map[], map[], map[], maxInstances)
    else Placed(Loaded(instances[..|instances| - 1], maxInstances), instances[|instances| - 1])
  }

  /** The dump is one of an instance of the multiplexer: the members of a set in any order, those of a sorted set in
      theirs. */
  ghost predicate Dumps(m: Mux, x: Instance)
  {
    match x.1
    case KvDump(kv) => x.0 in m.kvs && Lists(kv, KvValue, m.kvs[x.0])
    case ListDump(l) => x.0 in m.lists && Lists(l, ListValue, m.lists[x.0])
    case SetDump(s) => x.0 in m.sets && Lists(s, SetValue, m.sets[x.0]) && forall e :: e in s ==> |e.body| == |Elements(e.body)|
    case ZSetDump(z) =>
      x.0 in m.zsets && Lists(z, ZSetValue, m.zsets[x.0]) && forall e :: e in z ==> e.body == Z.Ranked(m.zsets[x.0][e.key])
  }

  /** Every instance once. */
  ghost predicate Covers(m: Mux, instances: seq<Instance>)
  {
    && |instances| == TotalInstances(m)
    && (forall x :: x in instances ==> Dumps(m, x))
    && (forall u :: u in m.kvs ==> exists i :: 0 <= i < |instances| && instances[i].0 == u && instances[i].1.KvDump?)
    && (forall u :: u in m.lists ==> exists i :: 0 <= i < |instances| && instances[i].0 == u && instances[i].1.ListDump?)
    && (forall u :: u in m.sets ==> exists i :: 0 <= i < |instances| && instances[i].0 == u && instances[i].1.SetDump?)
    && (forall u :: u in m.zsets ==> exists i :: 0 <= i < |instances| && instances[i].0 == u && instances[i].1.ZSetDump?)
  }

  ghost predicate Included<V>(a: map<Bytes, V>, b: map<Bytes, V>)
  {
    forall u :: u in a ==> u in b && a[u] == b[u]
  }

  lemma IncludedMore<V>(a: map<Bytes, V>, b: map<Bytes, V>, u: Bytes)
    requires Included(a, b) && u in b
    ensures Included(a[u := b[u]], b)
  {
  }

  /** Every instance loaded is as it is in `m`. */
  ghost predicate Within(a: Mux, m: Mux)
  {
    && a.maxInstances == m.maxInstances
    && Included(a.kvs, m.kvs) && Included(a.lists, m.lists) && Included(a.sets, m.sets) && Included(a.zsets, m.zsets)
  }

  ghost predicate Holds(a: Mux, x: Instance)
  {
    match x.1
    case KvDump(_) => x.0 in a.kvs
    case ListDump(_) => x.0 in a.lists
    case SetDump(_) => x.0 in a.sets
    case ZSetDump(_) => x.0 in a.zsets
  }

  lemma PlacedWithin(a: Mux, x: Instance, m: Mux)
    requires Within(a, m) && Dumps(m, x)
    ensures Within(Placed(a, x), m)
  {
    hide Dumps, Filled, Included;
    DumpFills(m, x);
    match x.1 {
      case KvDump(_) => IncludedMore(a.kvs, m.kvs, x.0);
      case ListDump(_) => IncludedMore(a.lists, m.lists, x.0);
      case SetDump(_) => IncludedMore(a.sets, m.sets, x.0);
      case ZSetDump(_) => IncludedMore(a.zsets, m.zsets, x.0);
    }
  }

  lemma DumpFills(m: Mux, x: Instance)
    requires Dumps(m, x)
    ensures x.1.KvDump? ==> x.0 in m.kvs && Filled(x.1.kv, KvValue) == m.kvs[x.0]
    ensures x.1.ListDump? ==> x.0 in m.lists && Filled(x.1.l, ListValue) == m.lists[x.0]
    ensures x.1.SetDump? ==> x.0 in m.sets && Filled(x.1.s, SetValue) == m.sets[x.0]
    ensures x.1.ZSetDump? ==> x.0 in m.zsets && Filled(x.1.z, ZSetValue) == m.zsets[x.0]
  {
    hide Lists, Filled, Z.Ranked, Elements;
    match x.1 {
      case KvDump(kv) => FilledIsListed(kv, KvValue, m.kvs[x.0]);
      case ListDump(l) => FilledIsListed(l, ListValue, m.lists[x.0]);
      case SetDump(s) => FilledIsListed(s, SetValue, m.sets[x.0]);
      case ZSetDump(z) => FilledIsListed(z, ZSetValue, m.zsets[x.0]);
    }
  }

  lemma PlacedHolds(a: Mux, x: Instance)
    ensures Holds(Placed(a, x), x)
    ensures forall y :: Holds(a, y) ==> Holds(Placed(a, x), y)
  {
    hide Filled;
  }

  lemma {:induction false} LoadedWithin(m: Mux, instances: seq<Instance>)
    requires forall x :: x in instances ==> Dumps(m, x)
    ensures Within(Loaded(instances, m.maxInstances), m)
    ensures forall i :: 0 <= i < |instances| ==> Holds(Loaded(instances, m.maxInstances), instances[i])
  {
    hide Within, Dumps, Holds, Placed;
    if instances == [] {
      NothingWithin(m);
    } else {
      var front, x := instances[..|instances| - 1], instances[|instances| - 1];
      assert x in instances && forall y :: y in front ==> y in instances;
      LoadedWithin(m, front);
      PlacedWithin(Loaded(front, m.maxInstances), x, m);
      PlacedHolds(Loaded(front, m.maxInstances), x);
    }
  }

  lemma NothingWithin(m: Mux)
    ensures Within(Loaded([], m.maxInstances), m)
  {
  }

  lemma WithinAll(a: Mux, m: Mux)
    requires Within(a, m)
    requires a.kvs.Keys == m.kvs.Keys && a.lists.Keys == m.lists.Keys && a.sets.Keys == m.sets.Keys && a.zsets.Keys == m.zsets.Keys
    ensures a == m
  {
    SameMap(a.kvs, m.kvs);
    SameMap(a.lists, m.lists);
    SameMap(a.sets, m.sets);
    SameMap(a.zsets, m.zsets);
  }

  lemma SameMap<V>(a: map<Bytes, V>, b: map<Bytes, V>)
    requires a.Keys == b.Keys && Included(a, b)
    ensures a == b
  {
  }

  /** The instances that were saved, in any order, make the multiplexer they were saved from. */
  lemma LoadedIsSaved(m: Mux, instances: seq<Instance>)
    requires Covers(m, instances)
    ensures Loaded(instances, m.maxInstances) == m
  {
    hide Dumps, Loaded, Lists;
    var a := Loaded(instances, m.maxInstances);
    LoadedWithin(m, instances);
    forall u | u in m.kvs ensures u in a.kvs {
      var i :| 0 <= i < |instances| && instances[i].0 == u && instances[i].1.KvDump?;
      assert Holds(a, instances[i]);
    }
    forall u | u in m.lists ensures u in a.lists {
      var i :| 0 <= i < |instances| && instances[i].0 == u && instances[i].1.ListDump?;
      assert Holds(a, instances[i]);
    }
    forall u | u in m.sets ensures u in a.sets {
      var i :| 0 <= i < |instances| && instances[i].0 == u && instances[i].1.SetDump?;
      assert Holds(a, instances[i]);
    }
    forall u | u in m.zsets ensures u in a.zsets {
      var i :| 0 <= i < |instances| && instances[i].0 == u && instances[i].1.ZSetDump?;
      assert Holds(a, instances[i]);
    }
    WithinAll(a, m);
  }

  /** Snapshot round trip: saving a multiplexer in any order of its maps and loading the file gives the same instances,
      strings, lists, sets, sorted sets and deadlines. */
  lemma SnapshotRoundTrip(m: Mux, instances: seq<Instance>, bits: Bits)
    requires Covers(m, instances) && |instances| < TWO64 && (forall x :: x in instances ==> FitsInstance(x, bits))
    requires |WriteMux(instances, bits)| < TWO63
    ensures var r := LoadFile(bits, SavedFile(instances, bits));
      r.Got? && |r.value| == 1 && Loaded(r.value[0].1, m.maxInstances) == m
  {
    hide Covers, FitsInstance, WriteMux, LoadFile, SavedFile, Loaded;
    FileTrips(instances, bits);
    LoadedIsSaved(m, instances);
  }

  /** A sorted set that is rebuilt from its saved pairs has them in the order they were saved in. */
  lemma RebuiltInOrder(d: Z.Scores, val: SortedSets.SortedSet)
    requires val.Valid() && val.dict == SortedSets.Added(map[], Z.Ranked(d))
    ensures val.dict == d && val.Pairs() == Z.Ranked(d)
  {
    SortedSets.AddedPairs(d, Z.Ranked(d));
    Z.PairsAreRanked(val);
  }

  /** Read back from its saved pairs, a sorted set has the same members with the same scores in the same order. */
  method Reloaded(ghost home: Bytes, ghost d: Z.Scores, pairs: seq<Pair>) returns (val: SortedSets.SortedSet)
    requires pairs == Z.Ranked(d)
    ensures val.Valid() && fresh(val.Repr()) && val.dict == d && val.Pairs() == Z.Ranked(d)
  {
    hide SortedSets.SortedSet.Valid, SortedSets.SortedSet.Repr, Z.Ranked;
    SortedSets.DifferentMembers(d, pairs);
    val := SortedSets.Rebuilt(home, pairs);
    RebuiltInOrder(d, val);
  }
}
