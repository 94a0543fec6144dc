/** The snapshot format: little-endian numbers, length-prefixed bytes, sections behind a header. */
module Snapshots {
  import opened Ordering
  import opened Collections
  import opened Decimal

  /** A reader takes what it needs from the front of the stream and leaves the rest, or fails. */
  datatype Read<+T> = Fail | Got(value: T, rest: Bytes)

  function Bind<A, B>(r: Read<A>, next: (A, Bytes) -> Read<B>): Read<B>
  {
    match r
    case Fail => Fail
    case Got(x, t) => next(x, t)
  }

  /** What is written reads back as `x`, whatever follows it, and no strict prefix of it can be read. */
  ghost predicate Trips<T(!new)>(w: Bytes, read: Bytes -> Read<T>, x: T)
  {
    && (forall t :: read(w + t) == Got(x, t))
    && (forall n :: 0 <= n < |w| ==> read(w[..n]).Fail?)
  }

  /** One part read after the other, the second reader knowing what the first has read. */
  lemma BindTrips<A(!new), B(!new)>(w1: Bytes, r1: Bytes -> Read<A>, x: A, w2: Bytes, r2: Bytes -> Read<B>, y: B,
                                    next: (A, Bytes) -> Read<B>, read: Bytes -> Read<B>)
    requires Trips(w1, r1, x) && Trips(w2, r2, y)
    requires (forall t :: r2(t) == next(x, t)) && forall s :: read(s) == Bind(r1(s), next)
    ensures Trips(w1 + w2, read, y)
  {
    forall t ensures read(w1 + w2 + t) == Got(y, t) {
      Concat(w1, w2, t);
      assert r1(w1 + (w2 + t)) == Got(x, w2 + t);
    }
    forall n | 0 <= n < |w1 + w2| ensures read((w1 + w2)[..n]).Fail? {
      TakeConcat(w1, w2, n);
      if n > |w1| {
        assert r1(w1 + w2[..n - |w1|]) == Got(x, w2[..n - |w1|]);
      } else if n == |w1| {
        assert w1[..n] + w2[..0] == w1[..n] == w1 && w2[..0] == [] && w1 + [] == w1;
        assert r1(w1 + []) == Got(x, []);
      }
    }
  }

  /** A value built from what has been read takes nothing more from the stream. */
  lemma DoneTrips<T(!new)>(x: T, read: Bytes -> Read<T>)
    requires forall s :: read(s) == Got(x, s)
    ensures Trips([], read, x)
  {
    forall t ensures read([] + t) == Got(x, t) {
      assert [] + t == t;
    }
  }

  // ----- numbers -----

  function Pow256(n: nat): (p: nat)
    ensures p > 0
  {
    if n == 0 then 1 else 256 * Pow256(n - 1)
  }

  /** The `width` low bytes, lowest first. */
  function Le(width: nat, v: nat): (s: Bytes)
    ensures |s| == width
  {
    if width == 0 then [] else [v % 256] + Le(width - 1, v / 256)
  }

  function ValueLe(s: Bytes): nat
  {
    if s == [] then 0 else s[0] + 256 * ValueLe(s[1..])
  }

  lemma {:induction false} LeRoundTrip(width: nat, v: nat)
    ensures v < Pow256(width) ==> ValueLe(Le(width, v)) == v
  {
    if width > 0 {
      LeRoundTrip(width - 1, v / 256);
      assert Le(width, v)[1..] == Le(width - 1, v / 256);
    }
  }

  lemma {:induction false} LeBytes(width: nat, v: nat, i: nat)
    requires i < width
    ensures Le(width, v)[i] == v / Pow256(i) % 256
  {
    if i > 0 {
      LeBytes(width - 1, v / 256, i - 1);
      DivTwice(v, 256, Pow256(i - 1));
    } else {
      assert v / Pow256(0) == v;
    }
  }

  lemma LeSmall(v: nat)
    requires v < 256
    ensures Le(1, v) == [v] && Le(2, v) == [v, 0] && Le(4, v) == [v, 0, 0, 0] && Le(8, v) == [v, 0, 0, 0, 0, 0, 0, 0]
  {
    hide Le;
    LeNext(0, 0);
    LeNext(1, 0);
    LeNext(2, 0);
    LeNext(3, 0);
    LeNext(4, 0);
    LeNext(5, 0);
    LeNext(6, 0);
    LeNext(0, v);
    LeNext(1, v);
    LeNext(3, v);
    LeNext(7, v);
  }

  lemma {:induction false} LeNext(width: nat, v: nat)
    requires v < 256
    ensures Le(width + 1, v) == [v] + Le(width, 0) && Le(0, 0) == []
  {
    assert v / 256 == 0 && v % 256 == v;
  }

  function ReadLe(width: nat, s: Bytes): Read<nat>
  {
    if |s| < width then Fail else Got(ValueLe(s[..width]), s[width..])
  }

  function ReadU8(s: Bytes): Read<nat> { ReadLe(1, s) }
  function ReadU16(s: Bytes): Read<nat> { ReadLe(2, s) }
  function ReadU32(s: Bytes): Read<nat> { ReadLe(4, s) }
  function ReadU64(s: Bytes): Read<nat> { ReadLe(8, s) }

  lemma LeTrips(width: nat, v: nat, read: Bytes -> Read<nat>)
    requires v < Pow256(width) && forall s :: read(s) == ReadLe(width, s)
    ensures Trips(Le(width, v), read, v)
  {
    LeRoundTrip(width, v);
    var w := Le(width, v);
    forall t ensures read(w + t) == Got(v, t) {
      assert (w + t)[..width] == w && (w + t)[width..] == t;
    }
  }

  lemma Widths()
    ensures Pow256(1) == 0x100 && Pow256(2) == 0x1_0000 && Pow256(4) == 0x1_0000_0000 && Pow256(8) == TWO64
  {
    assert Pow256(1) == 256 * Pow256(0) && Pow256(2) == 256 * Pow256(1) && Pow256(3) == 256 * Pow256(2);
    assert Pow256(4) == 256 * Pow256(3) && Pow256(5) == 256 * Pow256(4) && Pow256(6) == 256 * Pow256(5);
    assert Pow256(7) == 256 * Pow256(6) && Pow256(8) == 256 * Pow256(7);
  }

  /** Two's complement. */
  function Unsigned(n: int): nat
  {
    n % TWO64
  }

  function Signed(u: nat): int
  {
    if u >= TWO63 then u - TWO64 else u
  }

  function WriteInt64(n: int): Bytes
  {
    Le(8, Unsigned(n))
  }

  function ReadInt64(s: Bytes): Read<int>
  {
    Bind(ReadU64(s), (u, t) => Got(Signed(u), t))
  }

  lemma Int64Trips(n: int)
    requires IsInt64(n)
    ensures Trips(WriteInt64(n), ReadInt64, n)
  {
    Widths();
    LeTrips(8, Unsigned(n), ReadU64);
    DoneTrips(n, s => Got(n, s));
    BindTrips(WriteInt64(n), ReadU64, Unsigned(n), [], s => Got(n, s), n, (u: nat, t) => Got(Signed(u), t), ReadInt64);
    assert WriteInt64(n) + [] == WriteInt64(n);
  }

  // ----- bytes -----

  /** The length is cut to 32 bits. */
  function WriteBytes(b: Bytes): Bytes
  {
    Le(4, |b| % 0x1_0000_0000) + b
  }

  function Take(n: nat, s: Bytes): Read<Bytes>
  {
    if |s| < n then Fail else Got(s[..n], s[n..])
  }

  function ReadBytes(s: Bytes): Read<Bytes>
  {
    Bind(ReadU32(s), (n: nat, t: Bytes) => Take(n, t))
  }

  lemma TakeTrips(b: Bytes, read: Bytes -> Read<Bytes>)
    requires forall s :: read(s) == Take(|b|, s)
    ensures Trips(b, read, b)
  {
    forall t ensures read(b + t) == Got(b, t) {
      assert (b + t)[..|b|] == b && (b + t)[|b|..] == t;
    }
  }

  lemma BytesTrips(b: Bytes)
    requires |b| < 0x1_0000_0000
    ensures Trips(WriteBytes(b), ReadBytes, b)
  {
    hide Le, ReadLe, Take, Trips, Bind, Pow256;
    var n := |b|;
    Widths();
    LeTrips(4, n, ReadU32);
    TakeTrips(b, s => Take(n, s));
    BindTrips<nat, Bytes>(Le(4, n), ReadU32, n, b, s => Take(n, s), b, (k: nat, t: Bytes) => Take(k, t), ReadBytes);
    assert n % 0x1_0000_0000 == n;
  }

  /** Bytes of 4 GiB or more lose all of their length but its low 32 bits, and do not read back. */
  lemma LongBytesDoNotTrip(b: Bytes)
    requires |b| >= 0x1_0000_0000
    ensures ReadBytes(WriteBytes(b)) != Got(b, [])
  {
    Widths();
    var n := |b| % 0x1_0000_0000;
    LeTrips(4, n, ReadU32);
    assert ReadU32(Le(4, n) + b) == Got(n, b);
  }

  // ----- readers made of readers -----

  function ReadPair<A, B>(r1: Bytes -> Read<A>, r2: Bytes -> Read<B>, s: Bytes): Read<(A, B)>
  {
    Bind(r1(s), (a, t) => Bind(r2(t), (b, u) => Got((a, b), u)))
  }

  function ReadMap<A, B>(r: Bytes -> Read<A>, f: A -> B, s: Bytes): Read<B>
  {
    Bind(r(s), (a, t) => Got(f(a), t))
  }

  lemma MapTrips<A(!new), B(!new)>(w: Bytes, r: Bytes -> Read<A>, x: A, f: A -> B, read: Bytes -> Read<B>)
    requires Trips(w, r, x) && forall s :: read(s) == ReadMap(r, f, s)
    ensures Trips(w, read, f(x))
  {
    var y := f(x);
    DoneTrips(y, s => Got(y, s));
    BindTrips(w, r, x, [], s => Got(y, s), y, (a: A, t: Bytes) => Got(f(a), t), read);
    assert w + [] == w;
  }

  lemma PairTrips<A(!new), B(!new)>(w1: Bytes, r1: Bytes -> Read<A>, x: A, w2: Bytes, r2: Bytes -> Read<B>, y: B,
                                    read: Bytes -> Read<(A, B)>)
    requires Trips(w1, r1, x) && Trips(w2, r2, y) && forall s :: read(s) == ReadPair(r1, r2, s)
    ensures Trips(w1 + w2, read, (x, y))
  {
    var tail := s => ReadMap(r2, b => (x, b), s);
    MapTrips(w2, r2, y, b => (x, b), tail);
    var next := (a: A, t: Bytes) => Bind(r2(t), (b: B, u: Bytes) => Got((a, b), u));
    assert forall t :: tail(t) == next(x, t);
    BindTrips(w1, r1, x, w2, tail, (x, y), next, read);
  }

  // ----- many of the same -----

  function Flat(ws: seq<Bytes>): Bytes
  {
    if ws == [] then [] else ws[0] + Flat(ws[1..])
  }

  function Written<T>(items: seq<T>, write: T -> Bytes): (ws: seq<Bytes>)
    ensures |ws| == |items| && forall i :: 0 <= i < |items| ==> ws[i] == write(items[i])
  {
    seq(|items|, i requires 0 <= i < |items| => write(items[i]))
  }

  function ReadMany<T>(n: nat, read: Bytes -> Read<T>, s: Bytes): Read<seq<T>>
  {
    if n == 0 then Got([], s)
    else Bind(read(s), (x, t) => Bind(ReadMany(n - 1, read, t), (xs, u) => Got([x] + xs, u)))
  }

  lemma {:induction false} ManyTrips<T(!new)>(ws: seq<Bytes>, items: seq<T>, read: Bytes -> Read<T>, all: Bytes -> Read<seq<T>>)
    requires |ws| == |items| && forall i :: 0 <= i < |items| ==> Trips(ws[i], read, items[i])
    requires forall s :: all(s) == ReadMany(|items|, read, s)
    ensures Trips(Flat(ws), all, items)
  {
    if items == [] {
      DoneTrips(items, all);
    } else {
      var x, rest := items[0], items[1..];
      var tail := s => ReadMany(|rest|, read, s);
      ManyTrips(ws[1..], rest, read, tail);
      var after := s => ReadMap(tail, xs => [x] + xs, s);
      MapTrips(Flat(ws[1..]), tail, rest, xs => [x] + xs, after);
      assert [x] + rest == items;
      ReadManyStep(|items|, read);
      var next := (y: T, t: Bytes) => Bind(ReadMany(|rest|, read, t), (xs: seq<T>, u: Bytes) => Got([y] + xs, u));
      assert forall t :: after(t) == next(x, t);
      BindTrips(ws[0], read, x, Flat(ws[1..]), after, items, next, all);
    }
  }

  lemma ReadManyStep<T(!new)>(n: nat, read: Bytes -> Read<T>)
    requires n > 0
    ensures forall s :: (ReadMany(n, read, s) ==
      Bind(read(s), (y: T, t: Bytes) => Bind(ReadMany(n - 1, read, t), (xs: seq<T>, u: Bytes) => Got([y] + xs, u))))
  {
  }

  function WriteCounted(ws: seq<Bytes>): Bytes
  {
    Le(8, |ws|) + Flat(ws)
  }

  function ReadCounted<T>(read: Bytes -> Read<T>, s: Bytes): Read<seq<T>>
  {
    Bind(ReadU64(s), (n: nat, t: Bytes) => ReadMany(n, read, t))
  }

  lemma CountedTrips<T(!new)>(ws: seq<Bytes>, items: seq<T>, read: Bytes -> Read<T>, all: Bytes -> Read<seq<T>>)
    requires |ws| == |items| < TWO64 && forall i :: 0 <= i < |items| ==> Trips(ws[i], read, items[i])
    requires forall s :: all(s) == ReadCounted(read, s)
    ensures Trips(WriteCounted(ws), all, items)
  {
    hide Trips, Le, ReadLe, Pow256, ReadMany, Bind;
    var n := |items|;
    Widths();
    LeTrips(8, n, ReadU64);
    var many := s => ReadMany(n, read, s);
    ManyTrips(ws, items, read, many);
    var next := (k: nat, t: Bytes) => ReadMany(k, read, t);
    assert forall t :: many(t) == next(n, t);
    BindTrips<nat, seq<T>>(Le(8, n), ReadU64, n, Flat(ws), many, items, next, all);
  }

  function Prefixed<T>(items: seq<T>, r: Read<seq<T>>): Read<seq<T>>
  {
    if r.Fail? then Fail else Got(items + r.value, r.rest)
  }

  /** The loop that reads `count` items one after the other. */
  method ReadItems<T>(count: nat, read: Bytes -> Read<T>, s: Bytes) returns (r: Read<seq<T>>)
    ensures r == ReadMany(count, read, s)
  {
    hide ReadMany;
    var items: seq<T> := [];
    var rest := s;
    var i := 0;
    NothingPrefixed(ReadMany(count, read, s));
    while i < count
      invariant 0 <= i <= count
      invariant ReadMany(count, read, s) == Prefixed(items, ReadMany(count - i, read, rest))
    {
      ReadOneMore(count - i, read, rest, items);
      match read(rest) {
        case Fail => return Fail;
        case Got(x, t) => items, rest := items + [x], t;
      }
      i := i + 1;
    }
    ReadNone(read, rest);
    assert items + [] == items;
    r := Got(items, rest);
  }

  lemma NothingPrefixed<T>(r: Read<seq<T>>)
    ensures Prefixed([], r) == r
  {
    assert r.Got? ==> [] + r.value == r.value;
  }

  lemma ReadNone<T>(read: Bytes -> Read<T>, s: Bytes)
    ensures ReadMany(0, read, s) == Got([], s)
  {
  }

  lemma ReadOneMore<T>(n: nat, read: Bytes -> Read<T>, s: Bytes, items: seq<T>)
    requires n > 0
    ensures var r := read(s);
      Prefixed(items, ReadMany(n, read, s)) ==
        if r.Fail? then Fail else Prefixed(items + [r.value], ReadMany(n - 1, read, r.rest))
  {
    var r := read(s);
    if r.Got? && ReadMany(n - 1, read, r.rest).Got? {
      Concat(items, [r.value], ReadMany(n - 1, read, r.rest).value);
    }
  }

  // ----- sections -----

  /** A reader held to the first `size` bytes of the stream, a size that is taken as a signed number; then what it left
      of them is skipped. A reader that fails, or a stream that ends before, fails. */
  function Limited<T>(size: nat, read: Bytes -> Read<T>, s: Bytes): Read<T>
  {
    var n := Signed(size);
    var cut := if n <= 0 then [] else if n < |s| then s[..n] else s;
    match read(cut)
    case Fail => Fail
    case Got(x, left) =>
      var consumed := if |left| <= |cut| then |cut| - |left| else 0;
      var remaining := n - consumed;
      if remaining <= 0 then Got(x, s[consumed..])
      else if |s| - consumed < remaining then Fail
      else Got(x, s[consumed + remaining..])
  }

  /** However much of its section a reader has consumed, the loader goes on exactly behind the section. */
  lemma LimitedEndsAtSection<T>(size: nat, read: Bytes -> Read<T>, s: Bytes)
    requires size < TWO63 && Limited(size, read, s).Got?
    ensures size <= |s| && Limited(size, read, s).rest == s[size..]
    ensures read(s[..size]).Got? && Limited(size, read, s).value == read(s[..size]).value
  {
    assert s[..|s|] == s && s[..0] == [];
  }

  /** From 2^63 on the size turns negative: the reader sees nothing and nothing is skipped. */
  lemma LimitedNegative<T>(size: nat, read: Bytes -> Read<T>, s: Bytes)
    requires TWO63 <= size < TWO64
    ensures Limited(size, read, s).Got? <==> read([]).Got?
    ensures read([]).Got? ==> Limited(size, read, s) == Got(read([]).value, s)
  {
  }

  lemma LimitedTrips<T(!new)>(w: Bytes, read: Bytes -> Read<T>, x: T, all: Bytes -> Read<T>)
    requires |w| < TWO63 && read(w).Got? && read(w).value == x
    requires forall s :: all(s) == Limited(|w|, read, s)
    ensures Trips(w, all, x)
  {
    forall t ensures all(w + t) == Got(x, t) {
      assert (w + t)[..|w|] == w && (w + t)[|w|..] == t;
      assert (t == [] ==> w + t == w) && (w == [] ==> w + t == t && t[0..] == t);
    }
  }

  /** A size and what has it: a section of the file, or an instance within the multiplexer's section. */
  function WriteSized(payload: Bytes): Bytes
  {
    Le(8, |payload| % TWO64) + payload
  }

  function ReadSized<T>(read: Bytes -> Read<T>, s: Bytes): Read<T>
  {
    Bind(ReadU64(s), (n: nat, t: Bytes) => Limited(n, read, t))
  }

  lemma SizedTrips<T(!new)>(w: Bytes, read: Bytes -> Read<T>, x: T, all: Bytes -> Read<T>)
    requires |w| < TWO63 && read(w).Got? && read(w).value == x
    requires forall s :: all(s) == ReadSized(read, s)
    ensures Trips(WriteSized(w), all, x)
  {
    hide Trips, Le, ReadLe, Pow256, Limited, Bind;
    var n := |w|;
    Widths();
    LeTrips(8, n, ReadU64);
    var limited := s => Limited(n, read, s);
    LimitedTrips(w, read, x, limited);
    var next := (k: nat, t: Bytes) => Limited(k, read, t);
    assert forall t :: limited(t) == next(n, t);
    BindTrips<nat, T>(Le(8, n), ReadU64, n, w, limited, x, next, all);
    assert n % TWO64 == n;
  }

  function WriteSection(id: Bytes, payload: Bytes): Bytes
  {
    WriteBytes(id) + WriteSized(payload)
  }

  function ReadSection<T>(deserialize: (Bytes, Bytes) -> Read<T>, s: Bytes): Read<(Bytes, T)>
  {
    Bind(ReadBytes(s), (id: Bytes, t: Bytes) =>
      ReadMap(u => ReadSized(v => deserialize(id, v), u), x => (id, x), t))
  }

  lemma SectionTrips<T(!new)>(id: Bytes, payload: Bytes, deserialize: (Bytes, Bytes) -> Read<T>, x: T,
                              all: Bytes -> Read<(Bytes, T)>)
    requires |id| < 0x1_0000_0000 && |payload| < TWO63
    requires deserialize(id, payload).Got? && deserialize(id, payload).value == x
    requires forall s :: all(s) == ReadSection(deserialize, s)
    ensures Trips(WriteSection(id, payload), all, (id, x))
  {
    hide Trips, Le, ReadLe, ReadSized, ReadMap, Bind, WriteBytes, ReadBytes, WriteSized;
    BytesTrips(id);
    var read := v => deserialize(id, v);
    var sized := u => ReadSized(read, u);
    SizedTrips(payload, read, x, sized);
    var tail := t => ReadMap(sized, y => (id, y), t);
    MapTrips(WriteSized(payload), sized, x, y => (id, y), tail);
    var next := (i: Bytes, t: Bytes) => ReadMap(u => ReadSized(v => deserialize(i, v), u), y => (i, y), t);
    assert forall t :: tail(t) == next(id, t);
    BindTrips<Bytes, (Bytes, T)>(WriteBytes(id), ReadBytes, id, WriteSized(payload), tail, (id, x), next, all);
  }

  // ----- the file -----

  const MAGIC: Bytes := [82, 67, 68, 66]      // RCDB
  const VERSION: nat := 1

  function WriteHeader(count: nat): Bytes
  {
    MAGIC + Le(2, VERSION) + Le(8, count % TWO64)
  }

  /** RCDB, version 1 in two bytes, the number of sections in eight. */
  lemma HeaderBytes(count: nat, i: nat)
    requires i < 8
    ensures |WriteHeader(count)| == 14 && WriteHeader(count)[..6] == [82, 67, 68, 66, 1, 0]
    ensures WriteHeader(count)[6 + i] == count % TWO64 / Pow256(i) % 256
  {
    LeBytes(2, VERSION, 0);
    LeBytes(2, VERSION, 1);
    LeBytes(8, count % TWO64, i);
    assert Pow256(0) == 1 && Pow256(1) == 256 * Pow256(0);
    assert Le(2, VERSION) == [1, 0];
    var h, tail := WriteHeader(count), Le(8, count % TWO64);
    assert h[6 + i] == tail[i];
  }

  /** Reads all three parts, then validates the first two. */
  function ReadHeader(s: Bytes): Read<nat>
  {
    Bind(ReadHeaderParts(s), (h: ((Bytes, nat), nat), t: Bytes) =>
      if h.0.0 == MAGIC && h.0.1 == VERSION then Got(h.1, t) else Fail)
  }

  function ReadMagic(s: Bytes): Read<Bytes> { Take(4, s) }

  function ReadHeaderParts(s: Bytes): Read<((Bytes, nat), nat)>
  {
    ReadPair(t => ReadPair(ReadMagic, ReadU16, t), ReadU64, s)
  }

  lemma HeaderTrips(count: nat)
    requires count < TWO64
    ensures Trips(WriteHeader(count), ReadHeader, count)
  {
    hide Trips, Le, ReadLe, Pow256, Take, Bind;
    Widths();
    TakeTrips(MAGIC, ReadMagic);
    LeTrips(2, VERSION, ReadU16);
    LeTrips(8, count, ReadU64);
    var start := t => ReadPair(ReadMagic, ReadU16, t);
    PairTrips<Bytes, nat>(MAGIC, ReadMagic, MAGIC, Le(2, VERSION), ReadU16, VERSION, start);
    PairTrips<(Bytes, nat), nat>(MAGIC + Le(2, VERSION), start, (MAGIC, VERSION), Le(8, count), ReadU64, count, ReadHeaderParts);
    var next := (h: ((Bytes, nat), nat), t: Bytes) => if h.0.0 == MAGIC && h.0.1 == VERSION then Got(h.1, t) else Fail;
    var done := t => Got(count, t);
    DoneTrips(count, done);
    assert forall t :: done(t) == next(((MAGIC, VERSION), count), t);
    BindTrips<((Bytes, nat), nat), nat>(WriteHeader(count), ReadHeaderParts, ((MAGIC, VERSION), count), [], done, count, next, ReadHeader);
    assert WriteHeader(count) + [] == WriteHeader(count);
  }

  /** The sections in whatever order the map of them is walked. */
  function WriteSnapshot(sections: seq<(Bytes, Bytes)>): Bytes
  {
    WriteHeader(|sections|) + Flat(Written(sections, (x: (Bytes, Bytes)) => WriteSection(x.0, x.1)))
  }

  function ReadSnapshot<T>(deserialize: (Bytes, Bytes) -> Read<T>, s: Bytes): Read<seq<(Bytes, T)>>
  {
    Bind(ReadHeader(s), (count: nat, t: Bytes) => ReadMany(count, u => ReadSection(deserialize, u), t))
  }

  /** A section goes to the engine of its name, whole, and comes back as `x` whatever the engine leaves unread. */
  ghost predicate Loads<T(!new)>(deserialize: (Bytes, Bytes) -> Read<T>, section: (Bytes, Bytes), x: (Bytes, T))
  {
    && x.0 == section.0 && |section.0| < 0x1_0000_0000 && |section.1| < TWO63
    && deserialize(section.0, section.1).Got? && deserialize(section.0, section.1).value == x.1
  }

  /** A saved snapshot loads back section by section, and no strict prefix of it loads. */
  lemma SnapshotTrips<T(!new)>(sections: seq<(Bytes, Bytes)>, deserialize: (Bytes, Bytes) -> Read<T>, values: seq<(Bytes, T)>,
                               all: Bytes -> Read<seq<(Bytes, T)>>)
    requires |sections| == |values| < TWO64
    requires forall i :: 0 <= i < |sections| ==> Loads(deserialize, sections[i], values[i])
    requires forall s :: all(s) == ReadSnapshot(deserialize, s)
    ensures Trips(WriteSnapshot(sections), all, values)
  {
    hide Trips, Bind, ReadHeader, ReadSection, ReadMany, WriteHeader, WriteSection, Flat;
    var n := |sections|;
    var ws := Written(sections, (x: (Bytes, Bytes)) => WriteSection(x.0, x.1));
    var read := u => ReadSection(deserialize, u);
    HeaderTrips(n);
    forall i | 0 <= i < n ensures Trips(ws[i], read, values[i]) {
      assert Loads(deserialize, sections[i], values[i]);
      SectionTrips(sections[i].0, sections[i].1, deserialize, values[i].1, read);
    }
    var many := t => ReadMany(n, read, t);
    ManyTrips(ws, values, read, many);
    var next := (count: nat, t: Bytes) => ReadMany(count, u => ReadSection(deserialize, u), t);
    assert forall t :: many(t) == next(n, t);
    BindTrips<nat, seq<(Bytes, T)>>(WriteHeader(n), ReadHeader, n, Flat(ws), many, values, next, all);
  }

  /** The writing loop. */
  method SaveSnapshot(sections: seq<(Bytes, Bytes)>) returns (s: Bytes)
    ensures s == WriteSnapshot(sections)
  {
    hide WriteHeader, WriteSection;
    s := WriteHeader(|sections|);
    ghost var ws := Written(sections, (x: (Bytes, Bytes)) => WriteSection(x.0, x.1));
    var i := 0;
    assert ws[..0] == [] && s + Flat(ws[..0]) == s;
    while i < |sections|
      invariant 0 <= i <= |sections| && s == WriteHeader(|sections|) + Flat(ws[..i])
    {
      FlatOneMore(ws, i);
      Concat(WriteHeader(|sections|), Flat(ws[..i]), ws[i]);
      s := s + WriteSection(sections[i].0, sections[i].1);
      i := i + 1;
    }
    assert ws[..i] == ws;
  }

  lemma {:induction false} FlatOneMore(ws: seq<Bytes>, i: nat)
    requires i < |ws|
    ensures Flat(ws[..i + 1]) == Flat(ws[..i]) + ws[i]
  {
    if i == 0 {
      assert ws[..1] == [ws[0]] && ws[1..1] == [] && ws[..0] == [];
      assert ws[0] + [] == ws[0] == [] + ws[0];
      assert ws[..1][1..] == [];
    } else {
      FlatOneMore(ws[1..], i - 1);
      assert ws[..i + 1][1..] == ws[1..][..i] && ws[..i][1..] == ws[1..][..i - 1];
      Concat(ws[0], Flat(ws[1..][..i - 1]), ws[i]);
    }
  }

  /** The reading loop: header, then section by section. */
  method LoadSnapshot<T>(deserialize: (Bytes, Bytes) -> Read<T>, s: Bytes) returns (r: Read<seq<(Bytes, T)>>)
    ensures r == ReadSnapshot(deserialize, s)
  {
    hide ReadHeader, ReadSection, ReadMany;
    match ReadHeader(s) {
      case Fail => r := Fail;
      case Got(count, rest) => r := ReadItems(count, u => ReadSection(deserialize, u), rest);
    }
  }
}
