/** The text of a log line: what each engine writes for a record, and what replay reads from it. */
module LogCodec {
  import opened Ordering
  import opened Collections
  import opened Multiplexers
  import opened Recovery
  import opened Text
  import opened Decimal
  import SortedSets
  import K = KvStorage
  import L = ListStorage
  import S = SetStorage
  import Z = ZSetStorage

  /** How scores and times are written and read is the library's. */
  datatype Formats = Formats(
    score: Score -> string,
    parseScore: string -> Option<Score>,
    time: int -> string,
    parseTime: string -> Option<int>)
  {
    /** The score reads back as it was written. */
    predicate ScoreReads(x: Score)
    {
      Clean(score(x)) && parseScore(score(x)) == Some(x)
    }

    predicate TimeReads(t: int)
    {
      Clean(time(t)) && time(t) != "PERSISTENT" && parseTime(time(t)) == Some(t)
    }
  }

  datatype Fields = Fields(action: string, args: seq<string>)

  function Flag(b: bool): string
  {
    if b then "true" else "false"
  }

  function Itoa(n: int): string
  {
    ToText(FormatInt(n))
  }

  function Atoi(s: string): Option<int>
  {
    ParseInt(FromText(s))
  }

  lemma AtoiItoa(n: int)
    requires IsInt64(n)
    ensures Atoi(Itoa(n)) == Some(n) && Clean(Itoa(n))
  {
    ParseOfFormat(n);
    FromToText(FormatInt(n));
  }

  function Keys(keys: seq<Bytes>): (r: seq<string>)
    ensures |r| == |keys| && forall i :: 0 <= i < |keys| ==> r[i] == Escape(keys[i])
  {
    seq(|keys|, i requires 0 <= i < |keys| => Escape(keys[i]))
  }

  function Values(values: seq<Bytes>): (r: seq<string>)
    ensures |r| == |values| && forall i :: 0 <= i < |values| ==> r[i] == Base64(values[i])
  {
    seq(|values|, i requires 0 <= i < |values| => Base64(values[i]))
  }

  // ----- reading fields; what cannot be read -----

  /** A key that cannot be unescaped: the kv engine and half of the list engine take it as it stands. */
  function KeyOr(s: string, otherwise: Bytes): Bytes
  {
    var key := Unescape(s);
    if key.Some? then key.value else otherwise
  }

  function ValueOr(s: string, otherwise: Bytes): Bytes
  {
    var value := UnBase64(s);
    if value.Some? then value.value else otherwise
  }

  function ReadKeys(args: seq<string>): seq<Bytes>
  {
    seq(|args|, i requires 0 <= i < |args| => KeyOr(args[i], []))
  }

  function ReadElements(args: seq<string>): seq<Bytes>
  {
    seq(|args|, i requires 0 <= i < |args| => ValueOr(args[i], FromText(args[i])))
  }

  /** Members that cannot be decoded are skipped. */
  function ReadMembers(args: seq<string>): seq<Bytes>
  {
    if args == [] then []
    else
      var value := UnBase64(args[0]);
      (if value.Some? then [value.value] else []) + ReadMembers(args[1..])
  }

  lemma KeysRead(keys: seq<Bytes>)
    ensures ReadKeys(Keys(keys)) == keys && forall f :: f in Keys(keys) ==> Clean(f)
  {
    forall i | 0 <= i < |keys| ensures Unescape(Keys(keys)[i]) == Some(keys[i]) && Clean(Keys(keys)[i]) {
      UnescapeEscape(keys[i]);
    }
  }

  lemma {:induction false} ValuesRead(values: seq<Bytes>)
    ensures ReadElements(Values(values)) == values == ReadMembers(Values(values))
    ensures forall f :: f in Values(values) ==> Clean(f)
  {
    forall i | 0 <= i < |values| ensures UnBase64(Values(values)[i]) == Some(values[i]) && Clean(Values(values)[i]) {
      UnBase64Base64(values[i]);
    }
    if values != [] {
      ValuesRead(values[1..]);
      assert Values(values)[1..] == Values(values[1..]);
      assert values == [values[0]] + values[1..];
    }
  }

  lemma WordsClean()
    ensures Clean("SET") && Clean("DELETE") && Clean("PERSISTENT") && Clean("true") && Clean("false")
    ensures Clean("kv") && Clean("list") && Clean("set") && Clean("zset")
  {
  }

  lemma ListWordsClean()
    ensures Clean("LPUSH") && Clean("RPUSH") && Clean("LPOP") && Clean("RPOP") && Clean("MOVE")
    ensures Clean("REPLACE") && Clean("INSERT") && Clean("REMOVE")
  {
  }

  lemma SetWordsClean()
    ensures Clean("SADD") && Clean("SREM") && Clean("SPOP") && Clean("SMOVE")
    ensures Clean("SINTERSTORE") && Clean("SUNIONSTORE") && Clean("SDIFFSTORE")
  {
  }

  lemma ZSetWordsClean()
    ensures Clean("ZADD") && Clean("ZREM") && Clean("ZPOPMAX") && Clean("ZPOPMIN") && Clean("ZINCRBY")
  {
  }

  lemma LineWordsPlain()
    ensures Plain("tx") && Plain("TX_BEGIN") && Plain("TX_COMMIT")
    ensures Plain("mux") && Plain("CREATE_INSTANCE") && Plain("DELETE_INSTANCE")
    ensures Plain("kv") && Plain("list") && Plain("set") && Plain("zset")
  {
  }

  // ----- the key-value engine -----

  function KvFields(r: K.KRecord, f: Formats): Fields
  {
    match r
    case SetRecord(key, value, deadline) =>
      Fields("SET", [Escape(key), Base64(value), if deadline.Some? then f.time(deadline.value) else "PERSISTENT"])
    case DeleteRecord(key) => Fields("DELETE", [Escape(key)])
  }

  /** `None` for a line that replay ignores. */
  function ReadKv(x: Fields, f: Formats): Option<K.KRecord>
  {
    if x.action == "DELETE" && |x.args| >= 1 then Some(K.DeleteRecord(KeyOr(x.args[0], FromText(x.args[0]))))
    else if x.action == "SET" && |x.args| >= 3 then
      var key, value := KeyOr(x.args[0], FromText(x.args[0])), ValueOr(x.args[1], FromText(x.args[1]));
      if x.args[2] == "PERSISTENT" then Some(K.SetRecord(key, value, None))
      else if f.parseTime(x.args[2]).None? then None
      else Some(K.SetRecord(key, value, f.parseTime(x.args[2])))
    else None
  }

  predicate KvReads(r: K.KRecord, f: Formats)
  {
    r.SetRecord? && r.deadline.Some? ==> f.TimeReads(r.deadline.value)
  }

  predicate AllClean(x: Fields)
  {
    x.args != [] && Clean(x.action) && forall a :: a in x.args ==> Clean(a)
  }

  lemma KvRoundTrip(r: K.KRecord, f: Formats)
    requires KvReads(r, f)
    ensures ReadKv(KvFields(r, f), f) == Some(r) && AllClean(KvFields(r, f))
  {
    hide Escape, Unescape, Base64, UnBase64;
    UnescapeEscape(r.key);
    if r.SetRecord? {
      UnBase64Base64(r.value);
    }
  }

  // ----- the list engine -----

  function ListFields(r: L.LRecord): Fields
  {
    match r
    case PushRecord(left, key, values) =>
      Fields(if left then "LPUSH" else "RPUSH", [Escape(key), "PERSISTENT"] + Values(values))
    case PopRecord(left, key) => Fields(if left then "LPOP" else "RPOP", [Escape(key)])
    case MoveRecord(from, to, srcLeft, dstLeft) => Fields("MOVE", [Escape(from), Escape(to), Flag(srcLeft), Flag(dstLeft)])
    case ReplaceRecord(key, index, value) => Fields("REPLACE", [Escape(key), Itoa(index), Base64(value)])
    case InsertRecord(key, pivot, value, before) =>
      Fields("INSERT", [Escape(key), Base64(pivot), Base64(value), Flag(before)])
    case RemoveRecord(key, count, value) => Fields("REMOVE", [Escape(key), Itoa(count), Base64(value)])
    case ListDeleteRecord(key) => Fields("DELETE", [Escape(key)])
  }

  function ReadList(x: Fields): Option<L.LRecord>
  {
    if (x.action == "LPUSH" || x.action == "RPUSH") && |x.args| >= 2 then
      Some(L.PushRecord(x.action == "LPUSH", KeyOr(x.args[0], FromText(x.args[0])), ReadElements(x.args[2..])))
    else if (x.action == "LPOP" || x.action == "RPOP") && |x.args| >= 1 then
      Some(L.PopRecord(x.action == "LPOP", KeyOr(x.args[0], FromText(x.args[0]))))
    else if x.action == "MOVE" && |x.args| >= 4 then
      Some(L.MoveRecord(KeyOr(x.args[0], []), KeyOr(x.args[1], []), x.args[2] == "true", x.args[3] == "true"))
    else if x.action == "REPLACE" && |x.args| >= 3 then
      var index := Atoi(x.args[1]);
      if index.None? then None
      else Some(L.ReplaceRecord(KeyOr(x.args[0], []), index.value, ValueOr(x.args[2], FromText(x.args[2]))))
    else if x.action == "INSERT" && |x.args| >= 4 then
      Some(L.InsertRecord(KeyOr(x.args[0], []), ValueOr(x.args[1], []), ValueOr(x.args[2], []), x.args[3] == "true"))
    else if x.action == "REMOVE" && |x.args| >= 3 then
      var count := Atoi(x.args[1]);
      Some(L.RemoveRecord(KeyOr(x.args[0], []), if count.Some? then count.value else 0, ValueOr(x.args[2], [])))
    else if x.action == "DELETE" && |x.args| >= 1 then Some(L.ListDeleteRecord(KeyOr(x.args[0], [])))
    else None
  }

  /** The source's indices and counts are 64-bit. */
  predicate ListReads(r: L.LRecord)
  {
    (r.ReplaceRecord? ==> IsInt64(r.index)) && (r.RemoveRecord? ==> IsInt64(r.count))
  }

  lemma ListFieldsClean(r: L.LRecord)
    requires ListReads(r)
    ensures AllClean(ListFields(r))
  {
    hide Clean, Escape, Unescape, Base64, UnBase64, Itoa, Atoi, ReadElements, ReadMembers;
    WordsClean();
    ListWordsClean();
    match r {
      case PushRecord(left, key, values) =>
        UnescapeEscape(key);
        ValuesRead(values);
      case PopRecord(left, key) => UnescapeEscape(key);
      case MoveRecord(from, to, srcLeft, dstLeft) =>
        UnescapeEscape(from);
        UnescapeEscape(to);
      case ReplaceRecord(key, index, value) =>
        UnescapeEscape(key);
        AtoiItoa(index);
        UnBase64Base64(value);
      case InsertRecord(key, pivot, value, before) =>
        UnescapeEscape(key);
        UnBase64Base64(pivot);
        UnBase64Base64(value);
      case RemoveRecord(key, count, value) =>
        UnescapeEscape(key);
        AtoiItoa(count);
        UnBase64Base64(value);
      case ListDeleteRecord(key) => UnescapeEscape(key);
    }
  }

  lemma ListRoundTrip(r: L.LRecord)
    requires ListReads(r)
    ensures ReadList(ListFields(r)) == Some(r)
  {
    hide Escape, Unescape, Base64, UnBase64, Itoa, Atoi, ReadElements, ReadMembers;
    match r {
      case PushRecord(left, key, values) => PushRoundTrip(r);
      case PopRecord(left, key) => UnescapeEscape(key);
      case MoveRecord(from, to, srcLeft, dstLeft) =>
        UnescapeEscape(from);
        UnescapeEscape(to);
      case ReplaceRecord(key, index, value) =>
        UnescapeEscape(key);
        AtoiItoa(index);
        UnBase64Base64(value);
      case InsertRecord(key, pivot, value, before) =>
        UnescapeEscape(key);
        UnBase64Base64(pivot);
        UnBase64Base64(value);
      case RemoveRecord(key, count, value) =>
        UnescapeEscape(key);
        AtoiItoa(count);
        UnBase64Base64(value);
      case ListDeleteRecord(key) => UnescapeEscape(key);
    }
  }

  lemma PushRoundTrip(r: L.LRecord)
    requires r.PushRecord?
    ensures ReadList(ListFields(r)) == Some(r)
  {
    hide Escape, Unescape, Base64, UnBase64, ReadElements, ReadMembers, Values;
    UnescapeEscape(r.key);
    ValuesRead(r.values);
    assert ListFields(r).args[2..] == Values(r.values);
  }

  // ----- the set engine -----

  function StoreAction(op: S.Algebra): string
  {
    match op
    case Inter => "SINTERSTORE"
    case Union => "SUNIONSTORE"
    case Diff => "SDIFFSTORE"
  }

  function SetFields(r: S.SRecord): Fields
  {
    match r
    case SAddRecord(key, members) => Fields("SADD", [Escape(key), "PERSISTENT"] + Values(members))
    case SRemRecord(key, members) => Fields("SREM", [Escape(key)] + Values(members))
    case SPopRecord(key, members) => Fields("SPOP", [Escape(key)] + Values(members))
    case SMoveRecord(from, to, member) => Fields("SMOVE", [Escape(from), Escape(to), Base64(member)])
    case SStoreRecord(op, to, keys) => Fields(StoreAction(op), [Escape(to)] + Keys(keys))
    case SDeleteRecord(key) => Fields("DELETE", [Escape(key)])
  }

  function ReadSet(x: Fields): Option<S.SRecord>
  {
    if x.action == "SADD" && |x.args| >= 2 then Some(S.SAddRecord(KeyOr(x.args[0], []), ReadMembers(x.args[2..])))
    else if x.action == "SREM" && |x.args| >= 1 then Some(S.SRemRecord(KeyOr(x.args[0], []), ReadMembers(x.args[1..])))
    else if x.action == "SPOP" && |x.args| >= 1 then Some(S.SPopRecord(KeyOr(x.args[0], []), ReadMembers(x.args[1..])))
    else if x.action == "SMOVE" && |x.args| >= 3 then
      var member := UnBase64(x.args[2]);
      if member.None? then None else Some(S.SMoveRecord(KeyOr(x.args[0], []), KeyOr(x.args[1], []), member.value))
    else if x.action == "SINTERSTORE" && |x.args| >= 1 then
      Some(S.SStoreRecord(S.Inter, KeyOr(x.args[0], []), ReadKeys(x.args[1..])))
    else if x.action == "SUNIONSTORE" && |x.args| >= 1 then
      Some(S.SStoreRecord(S.Union, KeyOr(x.args[0], []), ReadKeys(x.args[1..])))
    else if x.action == "SDIFFSTORE" && |x.args| >= 1 then
      Some(S.SStoreRecord(S.Diff, KeyOr(x.args[0], []), ReadKeys(x.args[1..])))
    else if x.action == "DELETE" && |x.args| >= 1 then Some(S.SDeleteRecord(KeyOr(x.args[0], [])))
    else None
  }

  lemma SetFieldsClean(r: S.SRecord)
    ensures AllClean(SetFields(r))
  {
    hide Clean, Escape, Unescape, Base64, UnBase64, ReadKeys, ReadElements, ReadMembers;
    WordsClean();
    SetWordsClean();
    match r {
      case SMoveRecord(from, to, member) =>
        UnescapeEscape(from);
        UnescapeEscape(to);
        UnBase64Base64(member);
      case SStoreRecord(op, to, keys) =>
        UnescapeEscape(to);
        KeysRead(keys);
      case SDeleteRecord(key) => UnescapeEscape(key);
      case _ =>
        UnescapeEscape(r.key);
        ValuesRead(r.members);
    }
  }

  lemma SetRoundTrip(r: S.SRecord)
    ensures ReadSet(SetFields(r)) == Some(r)
  {
    hide Escape, Unescape, Base64, UnBase64, ReadKeys, ReadElements, ReadMembers;
    match r {
      case SMoveRecord(from, to, member) =>
        UnescapeEscape(from);
        UnescapeEscape(to);
        UnBase64Base64(member);
      case SStoreRecord(op, to, keys) => StoreRoundTrip(r);
      case SDeleteRecord(key) => UnescapeEscape(key);
      case _ => MembersRoundTrip(r);
    }
  }

  lemma StoreRoundTrip(r: S.SRecord)
    requires r.SStoreRecord?
    ensures ReadSet(SetFields(r)) == Some(r)
  {
    hide Escape, Unescape, ReadKeys, Keys;
    UnescapeEscape(r.to);
    KeysRead(r.keys);
    assert SetFields(r).args[1..] == Keys(r.keys);
  }

  lemma MembersRoundTrip(r: S.SRecord)
    requires r.SAddRecord? || r.SRemRecord? || r.SPopRecord?
    ensures ReadSet(SetFields(r)) == Some(r)
  {
    hide Escape, Unescape, ReadMembers, ReadElements, Values;
    UnescapeEscape(r.key);
    ValuesRead(r.members);
    assert SetFields(r).args[if r.SAddRecord? then 2 else 1..] == Values(r.members);
  }

  // ----- the sorted-set engine -----

  /** Score and member, member by member. */
  function ScoredFirst(members: seq<Pair>, f: Formats): seq<string>
  {
    if members == [] then []
    else [f.score(members[0].score), Base64(members[0].ele)] + ScoredFirst(members[1..], f)
  }

  /** Member and score, member by member. */
  function ScoredLast(members: seq<Pair>, f: Formats): seq<string>
  {
    if members == [] then []
    else [Base64(members[0].ele), f.score(members[0].score)] + ScoredLast(members[1..], f)
  }

  function ZSetFields(r: Z.ZRecord, f: Formats): Fields
  {
    match r
    case ZAddRecord(key, members) => Fields("ZADD", [Escape(key), "PERSISTENT"] + ScoredFirst(members, f))
    case ZRemRecord(key, names) => Fields("ZREM", [Escape(key)] + Values(names))
    case ZPopRecord(highest, key, members) =>
      Fields(if highest then "ZPOPMAX" else "ZPOPMIN", [Escape(key)] + ScoredLast(members, f))
    case ZIncrByRecord(key, increment, member) => Fields("ZINCRBY", [Escape(key), f.score(increment), Base64(member)])
    case ZDeleteRecord(key) => Fields("DELETE", [Escape(key)])
  }

  /** A pair of fields that cannot be read is skipped, and so is an odd last field. */
  function ReadScored(args: seq<string>, f: Formats): seq<Pair>
  {
    if |args| < 2 then []
    else
      var score, member := f.parseScore(args[0]), UnBase64(args[1]);
      (if score.Some? && member.Some? then [Pair(score.value, member.value)] else []) + ReadScored(args[2..], f)
  }

  /** Every other field, whatever is in between. */
  function ReadNames(args: seq<string>): seq<Bytes>
  {
    if args == [] then []
    else
      var member := UnBase64(args[0]);
      (if member.Some? then [member.value] else []) + if |args| < 2 then [] else ReadNames(args[2..])
  }

  /** Replay takes only the names of what was popped: a removal. */
  function ReadZSet(x: Fields, f: Formats): Option<Z.ZRecord>
  {
    if x.action == "ZADD" && |x.args| >= 2 then Some(Z.ZAddRecord(KeyOr(x.args[0], []), ReadScored(x.args[2..], f)))
    else if x.action == "ZREM" && |x.args| >= 1 then Some(Z.ZRemRecord(KeyOr(x.args[0], []), ReadMembers(x.args[1..])))
    else if (x.action == "ZPOPMAX" || x.action == "ZPOPMIN") && |x.args| >= 1 then
      Some(Z.ZRemRecord(KeyOr(x.args[0], []), ReadNames(x.args[1..])))
    else if x.action == "ZINCRBY" && |x.args| >= 3 then
      var increment, member := f.parseScore(x.args[1]), UnBase64(x.args[2]);
      if increment.None? || member.None? then None
      else Some(Z.ZIncrByRecord(KeyOr(x.args[0], []), increment.value, member.value))
    else if x.action == "DELETE" && |x.args| >= 1 then Some(Z.ZDeleteRecord(KeyOr(x.args[0], [])))
    else None
  }

  predicate ZSetReads(r: Z.ZRecord, f: Formats)
  {
    && (r.ZAddRecord? || r.ZPopRecord? ==> forall p :: p in r.members ==> f.ScoreReads(p.score))
    && (r.ZIncrByRecord? ==> f.ScoreReads(r.increment))
  }

  /** What replay reads from the line of a record: a pop as a removal, anything else as it was. */
  function AsRead(r: Z.ZRecord): Z.ZRecord
  {
    if r.ZPopRecord? then Z.ZRemRecord(r.key, SortedSets.Members(r.members)) else r
  }

  lemma {:induction false} ScoredRead(members: seq<Pair>, f: Formats)
    requires forall p :: p in members ==> f.ScoreReads(p.score)
    ensures ReadScored(ScoredFirst(members, f), f) == members && ReadNames(ScoredLast(members, f)) == SortedSets.Members(members)
    ensures forall a :: a in ScoredFirst(members, f) ==> Clean(a)
    ensures forall a :: a in ScoredLast(members, f) ==> Clean(a)
  {
    hide Base64, UnBase64;
    if members != [] {
      assert members[0] in members;
      ScoredRead(members[1..], f);
      UnBase64Base64(members[0].ele);
      assert ScoredFirst(members, f)[2..] == ScoredFirst(members[1..], f);
      assert ScoredLast(members, f)[2..] == ScoredLast(members[1..], f);
      assert members == [members[0]] + members[1..];
      assert SortedSets.Members(members) == [members[0].ele] + SortedSets.Members(members[1..]);
    }
  }

  lemma ZSetFieldsClean(r: Z.ZRecord, f: Formats)
    requires ZSetReads(r, f)
    ensures AllClean(ZSetFields(r, f))
  {
    hide Clean, Escape, Unescape, Base64, UnBase64, ReadScored, ReadNames, ReadMembers, ReadElements, ScoredFirst, ScoredLast;
    WordsClean();
    ZSetWordsClean();
    UnescapeEscape(r.key);
    match r {
      case ZAddRecord(key, members) => ScoredRead(members, f);
      case ZRemRecord(key, names) => ValuesRead(names);
      case ZPopRecord(highest, key, members) => ScoredRead(members, f);
      case ZIncrByRecord(key, increment, member) => UnBase64Base64(member);
      case ZDeleteRecord(key) =>
    }
  }

  lemma ZSetRoundTrip(r: Z.ZRecord, f: Formats)
    requires ZSetReads(r, f)
    ensures ReadZSet(ZSetFields(r, f), f) == Some(AsRead(r))
  {
    hide Escape, Unescape, Base64, UnBase64, ReadScored, ReadNames, ReadMembers, ReadElements, ScoredFirst, ScoredLast;
    UnescapeEscape(r.key);
    match r {
      case ZAddRecord(key, members) =>
        ScoredRead(members, f);
        assert ZSetFields(r, f).args[2..] == ScoredFirst(members, f);
      case ZRemRecord(key, names) =>
        ValuesRead(names);
        assert ZSetFields(r, f).args[1..] == Values(names);
      case ZPopRecord(highest, key, members) =>
        ScoredRead(members, f);
        assert ZSetFields(r, f).args[1..] == ScoredLast(members, f);
      case ZIncrByRecord(key, increment, member) => UnBase64Base64(member);
      case ZDeleteRecord(key) =>
    }
  }

  // ----- lines -----

  function KindName(kind: Kind): string
  {
    match kind
    case Kv => "kv"
    case List => "list"
    case Set => "set"
    case ZSet => "zset"
  }

  function ReadKind(s: string): Option<Kind>
  {
    if s == "kv" then Some(Kv) else if s == "list" then Some(List)
    else if s == "set" then Some(Set) else if s == "zset" then Some(ZSet)
    else None
  }

  /** The engine's line with the instance's uuid before its own arguments. */
  function Scoped(kind: Kind, uuid: Bytes, x: Fields): seq<string>
  {
    [KindName(kind), x.action, ToText(uuid)] + x.args
  }

  function LineFields(l: Line<Record>, f: Formats): (fields: seq<string>)
    ensures fields != []
  {
    match l
    case Begin(id) => ["tx", "TX_BEGIN", ToText(id)]
    case Commit(id) => ["tx", "TX_COMMIT", ToText(id)]
    case Entry(KvRecord(uuid, r)) => Scoped(Kv, uuid, KvFields(r, f))
    case Entry(ListRecord(uuid, r)) => Scoped(List, uuid, ListFields(r))
    case Entry(SetRecord(uuid, r)) => Scoped(Set, uuid, SetFields(r))
    case Entry(ZSetRecord(uuid, r)) => Scoped(ZSet, uuid, ZSetFields(r, f))
    case Entry(CreateRecord(kind, uuid)) => ["mux", "CREATE_INSTANCE", KindName(kind), ToText(uuid)]
    case Entry(DropRecord(kind, uuid)) => ["mux", "DELETE_INSTANCE", KindName(kind), ToText(uuid)]
  }

  function Wrapped<R>(r: Option<R>, wrap: R -> Record): Option<Line<Record>>
  {
    if r.None? then None else Some(Entry(wrap(r.value)))
  }

  /** What the replay loop makes of the fields of a line; `None` when it is skipped or is an error. */
  function ReadFields(parts: seq<string>, f: Formats): Option<Line<Record>>
  {
    if |parts| < 3 then None
    else
      var engine, action, first := parts[0], parts[1], parts[2];
      if engine == "tx" then
        if action == "TX_BEGIN" then Some(Begin(FromText(first)))
        else if action == "TX_COMMIT" then Some(Commit(FromText(first)))
        else None
      else if engine == "mux" then
        var kind := ReadKind(first);
        if |parts| < 4 || kind.None? then None
        else if action == "CREATE_INSTANCE" then Some(Entry(CreateRecord(kind.value, FromText(parts[3]))))
        else if action == "DELETE_INSTANCE" then Some(Entry(DropRecord(kind.value, FromText(parts[3]))))
        else None
      else
        var uuid, x := FromText(first), Fields(action, parts[3..]);
        match ReadKind(engine)
        case None => None
        case Some(Kv) => Wrapped(ReadKv(x, f), r => KvRecord(uuid, r))
        case Some(List) => Wrapped(ReadList(x), r => ListRecord(uuid, r))
        case Some(Set) => Wrapped(ReadSet(x), r => SetRecord(uuid, r))
        case Some(ZSet) => Wrapped(ReadZSet(x, f), r => ZSetRecord(uuid, r))
  }

  /** Fit to be the last field of a line. */
  predicate CanEnd(id: Bytes)
  {
    Plain(ToText(id)) && !EndsInReturn(ToText(id))
  }

  /** Ids come without bars or newlines, nor a carriage return at the end of the line, numbers fit 64 bits, and scores
      and times read as they were written. */
  predicate Loggable(l: Line<Record>, f: Formats)
  {
    match l
    case Begin(id) => CanEnd(id)
    case Commit(id) => CanEnd(id)
    case Entry(r) =>
      Plain(ToText(r.uuid)) &&
      match r
      case KvRecord(_, kv) => KvReads(kv, f)
      case ListRecord(_, l) => ListReads(l)
      case SetRecord(_, _) => true
      case ZSetRecord(_, z) => ZSetReads(z, f)
      case _ => CanEnd(r.uuid)
  }

  function RecordAsRead(r: Record): Record
  {
    if r.ZSetRecord? then r.(z := AsRead(r.z)) else r
  }

  function LineAsRead(l: Line<Record>): Line<Record>
  {
    if l.Entry? then Entry(RecordAsRead(l.record)) else l
  }

  lemma FieldsRead(l: Line<Record>, f: Formats)
    requires Loggable(l, f)
    ensures ReadFields(LineFields(l, f), f) == Some(LineAsRead(l))
  {
    hide Clean, ToText, FromText, ReadKv, ReadList, ReadSet, ReadZSet, KvFields, ListFields, SetFields, ZSetFields, AsRead;
    match l {
      case Begin(id) => FromToText(id);
      case Commit(id) => FromToText(id);
      case Entry(r) =>
        FromToText(r.uuid);
        match r {
          case KvRecord(uuid, kv) =>
            KvRoundTrip(kv, f);
            assert LineFields(l, f)[3..] == KvFields(kv, f).args;
          case ListRecord(uuid, x) =>
            ListRoundTrip(x);
            assert LineFields(l, f)[3..] == ListFields(x).args;
          case SetRecord(uuid, x) =>
            SetRoundTrip(x);
            assert LineFields(l, f)[3..] == SetFields(x).args;
          case ZSetRecord(uuid, z) =>
            ZSetRoundTrip(z, f);
            assert LineFields(l, f)[3..] == ZSetFields(z, f).args;
          case _ =>
        }
    }
  }

  lemma CleanCanEnd(s: string)
    requires Clean(s)
    ensures Plain(s) && !EndsInReturn(s)
  {
  }

  lemma ScopedPlain(kind: Kind, uuid: Bytes, x: Fields)
    requires AllClean(x) && Plain(ToText(uuid))
    ensures var fields := Scoped(kind, uuid, x);
      && (forall y :: y in fields ==> Plain(y))
      && !EndsInReturn(fields[|fields| - 1])
  {
    hide Clean, Plain, ToText, EndsInReturn;
    WordsClean();
    CleanCanEnd(KindName(kind));
    CleanCanEnd(x.action);
    forall a | a in x.args ensures Plain(a) && !EndsInReturn(a) {
      CleanCanEnd(a);
    }
  }

  lemma FieldsPlain(l: Line<Record>, f: Formats)
    requires Loggable(l, f)
    ensures var fields := LineFields(l, f);
      && (forall x :: x in fields ==> Plain(x))
      && !EndsInReturn(fields[|fields| - 1])
  {
    hide Clean, Plain, ToText, EndsInReturn, AllClean, Scoped, KvFields, ListFields, SetFields, ZSetFields;
    LineWordsPlain();
    if l.Entry? {
      match l.record {
        case KvRecord(uuid, kv) => KvRoundTrip(kv, f); ScopedPlain(Kv, uuid, KvFields(kv, f));
        case ListRecord(uuid, x) => ListFieldsClean(x); ScopedPlain(List, uuid, ListFields(x));
        case SetRecord(uuid, x) => SetFieldsClean(x); ScopedPlain(Set, uuid, SetFields(x));
        case ZSetRecord(uuid, z) => ZSetFieldsClean(z, f); ScopedPlain(ZSet, uuid, ZSetFields(z, f));
        case _ =>
      }
    }
  }

  function LineText(l: Line<Record>, f: Formats): string
  {
    Join(LineFields(l, f), '|')
  }

  function ReadLine(text: string, f: Formats): Option<Line<Record>>
  {
    ReadFields(Split(text, '|'), f)
  }

  /** Splitting a logged line at the bars and undoing the encodings gives the record back, whatever bytes its keys and
      values hold; and the line holds no newline and ends in no carriage return. */
  lemma LineRoundTrip(l: Line<Record>, f: Formats)
    requires Loggable(l, f)
    ensures ReadLine(LineText(l, f), f) == Some(LineAsRead(l))
    ensures '\n' !in LineText(l, f) && !EndsInReturn(LineText(l, f))
  {
    hide ReadFields, LineFields;
    FieldsRead(l, f);
    FieldsPlain(l, f);
    forall x | x in LineFields(l, f) ensures '|' !in x {
    }
    SplitJoin(LineFields(l, f), '|');
    JoinPlain(LineFields(l, f));
  }

  // ----- the text of each line, field by field between the bars -----

  lemma InARow<T>(a: T, b: T, c: T, d: T, e: T, f: T, g: T)
    ensures [a, b, c] + [d] == [a, b, c, d] && [a, b, c] + [d, e] == [a, b, c, d, e]
    ensures [a, b, c] + [d, e, f] == [a, b, c, d, e, f] && [a, b, c] + [d, e, f, g] == [a, b, c, d, e, f, g]
  {
  }

  lemma KvLine(uuid: Bytes, r: K.KRecord, f: Formats)
    ensures var u, key, text := ToText(uuid), Escape(r.key), LineText(Entry(KvRecord(uuid, r)), f);
      && (r.SetRecord? ==>
            text == Join(["kv", "SET", u, key, Base64(r.value),
                          if r.deadline.Some? then f.time(r.deadline.value) else "PERSISTENT"], '|'))
      && (r.DeleteRecord? ==> text == Join(["kv", "DELETE", u, key], '|'))
  {
    hide Escape, Base64, ToText, Join;
    var args := KvFields(r, f).args;
    InARow("kv", KvFields(r, f).action, ToText(uuid), args[0], if r.SetRecord? then args[1] else "",
           if r.SetRecord? then args[2] else "", "");
  }

  lemma ListLine(uuid: Bytes, r: L.LRecord, f: Formats)
    ensures var u, text := ToText(uuid), LineText(Entry(ListRecord(uuid, r)), f);
      && (r.PushRecord? ==>
            text == Join(["list", if r.left then "LPUSH" else "RPUSH", u, Escape(r.key), "PERSISTENT"] + Values(r.values), '|'))
      && (r.PopRecord? ==> text == Join(["list", if r.left then "LPOP" else "RPOP", u, Escape(r.key)], '|'))
      && (r.MoveRecord? ==>
            text == Join(["list", "MOVE", u, Escape(r.from), Escape(r.to),
                          if r.srcLeft then "true" else "false", if r.dstLeft then "true" else "false"], '|'))
      && (r.ReplaceRecord? ==> text == Join(["list", "REPLACE", u, Escape(r.key), Itoa(r.index), Base64(r.value)], '|'))
      && (r.InsertRecord? ==>
            text == Join(["list", "INSERT", u, Escape(r.key), Base64(r.pivot), Base64(r.value),
                          if r.before then "true" else "false"], '|'))
      && (r.RemoveRecord? ==> text == Join(["list", "REMOVE", u, Escape(r.key), Itoa(r.count), Base64(r.value)], '|'))
      && (r.ListDeleteRecord? ==> text == Join(["list", "DELETE", u, Escape(r.key)], '|'))
  {
    hide Escape, Base64, ToText, Join, Values, Itoa;
    var action, args, u := ListFields(r).action, ListFields(r).args, ToText(uuid);
    InARow("list", action, u, args[0], if |args| > 1 then args[1] else "", if |args| > 2 then args[2] else "",
           if |args| > 3 then args[3] else "");
    if r.PushRecord? {
      Concat(["list", action, u], [Escape(r.key), "PERSISTENT"], Values(r.values));
    }
  }

  lemma SetLine(uuid: Bytes, r: S.SRecord, f: Formats)
    ensures var u, text := ToText(uuid), LineText(Entry(SetRecord(uuid, r)), f);
      && (r.SAddRecord? ==> text == Join(["set", "SADD", u, Escape(r.key), "PERSISTENT"] + Values(r.members), '|'))
      && (r.SRemRecord? ==> text == Join(["set", "SREM", u, Escape(r.key)] + Values(r.members), '|'))
      && (r.SPopRecord? ==> text == Join(["set", "SPOP", u, Escape(r.key)] + Values(r.members), '|'))
      && (r.SMoveRecord? ==> text == Join(["set", "SMOVE", u, Escape(r.from), Escape(r.to), Base64(r.member)], '|'))
      && (r.SStoreRecord? ==>
            text == Join(["set", if r.op.Inter? then "SINTERSTORE" else if r.op.Union? then "SUNIONSTORE" else "SDIFFSTORE",
                          u, Escape(r.to)] + Keys(r.keys), '|'))
      && (r.SDeleteRecord? ==> text == Join(["set", "DELETE", u, Escape(r.key)], '|'))
  {
    hide Escape, Base64, ToText, Join, Values, Keys;
    var start, args := ["set", SetFields(r).action, ToText(uuid)], SetFields(r).args;
    InARow("set", start[1], start[2], args[0], if |args| > 1 then args[1] else "", if |args| > 2 then args[2] else "", "");
    if r.SAddRecord? {
      Concat(start, [Escape(r.key), "PERSISTENT"], Values(r.members));
    } else if r.SRemRecord? || r.SPopRecord? {
      Concat(start, [Escape(r.key)], Values(r.members));
    } else if r.SStoreRecord? {
      Concat(start, [Escape(r.to)], Keys(r.keys));
    }
  }

  /** ZADD writes the score before the member, a pop the member before the score. */
  lemma ZSetLine(uuid: Bytes, r: Z.ZRecord, f: Formats)
    ensures var u, key, text := ToText(uuid), Escape(r.key), LineText(Entry(ZSetRecord(uuid, r)), f);
      && (r.ZAddRecord? ==> text == Join(["zset", "ZADD", u, key, "PERSISTENT"] + ScoredFirst(r.members, f), '|'))
      && (r.ZRemRecord? ==> text == Join(["zset", "ZREM", u, key] + Values(r.names), '|'))
      && (r.ZPopRecord? ==>
            text == Join(["zset", if r.highest then "ZPOPMAX" else "ZPOPMIN", u, key] + ScoredLast(r.members, f), '|'))
      && (r.ZIncrByRecord? ==> text == Join(["zset", "ZINCRBY", u, key, f.score(r.increment), Base64(r.member)], '|'))
      && (r.ZDeleteRecord? ==> text == Join(["zset", "DELETE", u, key], '|'))
  {
    hide Escape, Base64, ToText, Join, Values, ScoredFirst, ScoredLast;
    var start, args := ["zset", ZSetFields(r, f).action, ToText(uuid)], ZSetFields(r, f).args;
    InARow("zset", start[1], start[2], args[0], if |args| > 1 then args[1] else "", if |args| > 2 then args[2] else "", "");
    if r.ZAddRecord? {
      Concat(start, [Escape(r.key), "PERSISTENT"], ScoredFirst(r.members, f));
    } else if r.ZRemRecord? {
      Concat(start, [Escape(r.key)], Values(r.names));
    } else if r.ZPopRecord? {
      Concat(start, [Escape(r.key)], ScoredLast(r.members, f));
    }
  }

  /** Where the score and the member of the i-th pair stand. */
  lemma {:induction false} ScoredAt(members: seq<Pair>, f: Formats, i: nat)
    requires i < |members|
    ensures var first, last := ScoredFirst(members, f), ScoredLast(members, f);
      && |first| == |last| == 2 * |members|
      && first[2 * i] == last[2 * i + 1] == f.score(members[i].score)
      && first[2 * i + 1] == last[2 * i] == Base64(members[i].ele)
  {
    hide Base64;
    if i > 0 {
      ScoredAt(members[1..], f, i - 1);
    } else if |members| > 1 {
      ScoredAt(members[1..], f, 0);
    } else {
      assert members[1..] == [];
    }
  }

  lemma OtherLines(kind: Kind, id: Bytes, f: Formats)
    ensures LineText(Begin(id), f) == Join(["tx", "TX_BEGIN", ToText(id)], '|')
    ensures LineText(Commit(id), f) == Join(["tx", "TX_COMMIT", ToText(id)], '|')
    ensures LineText(Entry(CreateRecord(kind, id)), f) == Join(["mux", "CREATE_INSTANCE", KindName(kind), ToText(id)], '|')
    ensures LineText(Entry(DropRecord(kind, id)), f) == Join(["mux", "DELETE_INSTANCE", KindName(kind), ToText(id)], '|')
    ensures KindName(Kv) == "kv" && KindName(List) == "list" && KindName(Set) == "set" && KindName(ZSet) == "zset"
  {
  }

  // ----- the whole log -----

  function Texts(log: seq<Line<Record>>, f: Formats): (texts: seq<string>)
    ensures |texts| == |log| && forall i :: 0 <= i < |log| ==> texts[i] == LineText(log[i], f)
  {
    seq(|log|, i requires 0 <= i < |log| => LineText(log[i], f))
  }

  /** The lines the scanner finds in the file, as far as they can be read. */
  function ReadTexts(texts: seq<string>, f: Formats): seq<Line<Record>>
  {
    if texts == [] then []
    else
      var front, l := ReadTexts(texts[..|texts| - 1], f), ReadLine(texts[|texts| - 1], f);
      if l.None? then front else front + [l.value]
  }

  function AllAsRead(log: seq<Line<Record>>): (r: seq<Line<Record>>)
    ensures |r| == |log| && forall i :: 0 <= i < |log| ==> r[i] == LineAsRead(log[i])
  {
    seq(|log|, i requires 0 <= i < |log| => LineAsRead(log[i]))
  }

  lemma {:induction false} TextsRead(log: seq<Line<Record>>, f: Formats)
    requires forall l :: l in log ==> Loggable(l, f)
    ensures ReadTexts(Texts(log, f), f) == AllAsRead(log)
    ensures forall t :: t in Texts(log, f) ==> '\n' !in t && !EndsInReturn(t)
  {
    hide ReadLine, LineText, LineAsRead, Loggable;
    if log != [] {
      var n := |log| - 1;
      TextsRead(log[..n], f);
      LineRoundTrip(log[n], f);
      assert Texts(log, f) == Texts(log[..n], f) + [LineText(log[n], f)];
      assert AllAsRead(log) == AllAsRead(log[..n]) + [LineAsRead(log[n])];
    }
  }

  /** What is read of a record has the same effect. */
  lemma SameEffect(m: Mux, r: Record, now: int)
    ensures Apply(m, RecordAsRead(r), now) == Apply(m, r, now)
  {
  }

  function RecordsAsRead(records: seq<Record>): (r: seq<Record>)
    ensures |r| == |records| && forall i :: 0 <= i < |records| ==> r[i] == RecordAsRead(records[i])
  {
    seq(|records|, i requires 0 <= i < |records| => RecordAsRead(records[i]))
  }

  lemma {:induction false} ReplaySame(m: Mux, records: seq<Record>, now: int)
    ensures Replay(m, RecordsAsRead(records), now) == Replay(m, records, now)
  {
    hide RecordAsRead, Apply;
    if records != [] {
      var n := |records| - 1;
      ReplaySame(m, records[..n], now);
      assert RecordsAsRead(records)[..n] == RecordsAsRead(records[..n]);
      var before := Replay(m, records[..n], now);
      if before.Some? {
        SameEffect(before.value, records[n], now);
      }
    }
  }

  lemma {:induction false} RecoveredAsRead(log: seq<Line<Record>>, incomplete: set<Bytes>)
    ensures Active(AllAsRead(log)) == Active(log) && Current(AllAsRead(log)) == Current(log)
    ensures Taken(AllAsRead(log), incomplete) == RecordsAsRead(Taken(log, incomplete))
  {
    hide RecordAsRead;
    if log != [] {
      var n := |log| - 1;
      RecoveredAsRead(log[..n], incomplete);
      assert AllAsRead(log)[..n] == AllAsRead(log[..n]);
      if log[n].Entry? {
        var t := Taken(log[..n], incomplete);
        assert RecordsAsRead(t + [log[n].record]) == RecordsAsRead(t) + [RecordAsRead(log[n].record)];
      }
    }
  }

  /** Restoring from the text of the log is restoring from the log. */
  lemma TextRestoresSame(saved: Mux, log: seq<Line<Record>>, f: Formats, now: int)
    requires forall l :: l in log ==> Loggable(l, f)
    ensures var read := ReadTexts(Scanned(File(Texts(log, f))), f);
      Replay(saved, Recovered(read), now) == Replay(saved, Recovered(log), now)
  {
    hide Replay, Loggable, ReadTexts, Active, Taken;
    TextsRead(log, f);
    ScannedFile(Texts(log, f));
    RecoveredAsRead(log, Active(log));
    ReplaySame(saved, Taken(log, Active(log)), now);
  }
}
