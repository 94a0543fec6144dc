/** What the second pass of a recovery takes when the first pass, whose error is ignored, saw only part of the log. */
module FirstPass {
  import opened Ordering
  import opened Collections
  import opened Recovery

  // ----- where a number of lines ends -----

  /** The `m` lines end strictly inside a block. */
  ghost predicate EndsInside<R>(blocks: seq<Block<R>>, m: nat)
  {
    |Lines(blocks[..Whole(blocks, m)])| < m
  }

  /** It is a transaction, of which the lines hold the beginning and the first records. */
  lemma InsideTx<R>(blocks: seq<Block<R>>, m: nat)
    requires m <= |Lines(blocks)|
    ensures var w := Whole(blocks, m);
      && |Lines(blocks[..w])| <= m
      && (EndsInside(blocks, m) ==>
        && w < |blocks| && blocks[w].Tx?
        && 0 < m - |Lines(blocks[..w])| <= |blocks[w].records| + 1)
  {
    hide Lines, Whole;
    WholeIsMost(blocks, m);
    var w := Whole(blocks, m);
    assert blocks[..|blocks|] == blocks;
    if w < |blocks| {
      LinesGrow(blocks[..w], blocks[w]);
      assert blocks[..w + 1] == blocks[..w] + [blocks[w]];
    }
  }

  /** The records of the transaction the `m` lines end in, as far as they go. */
  ghost function Tail<R>(blocks: seq<Block<R>>, m: nat): seq<R>
    requires m <= |Lines(blocks)|
  {
    InsideTx(blocks, m);
    var w := Whole(blocks, m);
    if EndsInside(blocks, m) then blocks[w].records[..m - |Lines(blocks[..w])| - 1] else []
  }

  /** The lines are those of whole blocks and of a transaction's beginning. */
  lemma PrefixShape<R>(blocks: seq<Block<R>>, m: nat)
    requires m <= |Lines(blocks)|
    ensures var w := Whole(blocks, m);
      if EndsInside(blocks, m)
      then w < |blocks| && blocks[w].Tx?
        && Lines(blocks)[..m] == Lines(blocks[..w]) + [Begin(blocks[w].id)] + Entries(Tail(blocks, m))
      else Lines(blocks)[..m] == Lines(blocks[..w])
  {
    hide Lines, Whole;
    InsideTx(blocks, m);
    var w := Whole(blocks, m);
    LinesSplit(blocks, w);
    TakeConcat(Lines(blocks[..w]), Lines(blocks[w..]), m);
    if EndsInside(blocks, m) {
      var r := m - |Lines(blocks[..w])|;
      FirstLines(blocks[w..], r);
      CutLines(blocks[w].id, blocks[w].records, r);
      Concat(Lines(blocks[..w]), [Begin(blocks[w].id)], Entries(blocks[w].records[..r - 1]));
    } else {
      assert Lines(blocks[..w])[..m] == Lines(blocks[..w]);
    }
  }

  lemma {:induction false} LinesSplit<R>(blocks: seq<Block<R>>, w: nat)
    requires w <= |blocks|
    ensures Lines(blocks) == Lines(blocks[..w]) + Lines(blocks[w..])
    ensures Records(blocks) == Records(blocks[..w]) + Records(blocks[w..])
  {
    hide BlockLines, BlockRecords, Lines, Records;
    NoLines<R>();
    if w == |blocks| {
      assert blocks[..w] == blocks && blocks[w..] == [];
      assert Lines(blocks) + [] == Lines(blocks) && Records(blocks) + [] == Records(blocks);
    } else {
      var n := |blocks| - 1;
      LinesSplit(blocks[..n], w);
      Snoc(blocks);
      LinesGrow(blocks[..n], blocks[n]);
      assert blocks[..n][..w] == blocks[..w] && blocks[w..] == blocks[..n][w..] + [blocks[n]];
      LinesGrow(blocks[..n][w..], blocks[n]);
      Concat(Lines(blocks[..w]), Lines(blocks[..n][w..]), BlockLines(blocks[n]));
      Concat(Records(blocks[..w]), Records(blocks[..n][w..]), BlockRecords(blocks[n]));
    }
  }

  lemma FirstLines<R>(blocks: seq<Block<R>>, r: nat)
    requires blocks != [] && r <= |BlockLines(blocks[0])|
    ensures r <= |Lines(blocks)| && Lines(blocks)[..r] == BlockLines(blocks[0])[..r]
  {
    hide Lines, BlockLines;
    LinesSplit(blocks, 1);
    NoLines<R>();
    assert blocks[..1] == [] + [blocks[0]];
    LinesGrow([], blocks[0]);
    assert [] + BlockLines(blocks[0]) == BlockLines(blocks[0]);
    TakeConcat(BlockLines(blocks[0]), Lines(blocks[1..]), r);
  }

  // ----- ids -----

  lemma {:induction false} IdsHave<R>(blocks: seq<Block<R>>, i: nat)
    requires i < |blocks| && blocks[i].Tx?
    ensures blocks[i].id in Ids(blocks)
  {
    if i < |blocks| - 1 {
      IdsHave(blocks[..|blocks| - 1], i);
    }
  }

  lemma {:induction false} NewIdAt<R>(log: seq<Line<R>>, blocks: seq<Block<R>>, j: nat)
    requires NewIds(log, blocks) && j < |blocks|
    ensures NewIds(log, blocks[..j])
    ensures blocks[j].Tx? ==> blocks[j].id != [] && blocks[j].id !in Begun(log) + Ids(blocks[..j])
  {
    var n := |blocks| - 1;
    if j < n {
      NewIdAt(log, blocks[..n], j);
      assert blocks[..n][..j] == blocks[..j];
    }
  }

  lemma DifferentIds<R>(blocks: seq<Block<R>>, i: nat, j: nat)
    requires NewIds([], blocks) && i < j < |blocks| && blocks[i].Tx? && blocks[j].Tx?
    ensures blocks[i].id != blocks[j].id
  {
    NewIdAt([], blocks, j);
    IdsHave(blocks[..j], i);
  }

  // ----- what the passes see -----

  /** The records of all blocks but the given transactions. */
  function RecordsBut<R>(blocks: seq<Block<R>>, incomplete: set<Bytes>): seq<R>
  {
    if blocks == [] then []
    else
      var last := blocks[|blocks| - 1];
      RecordsBut(blocks[..|blocks| - 1], incomplete) + if last.Tx? && last.id in incomplete then [] else BlockRecords(last)
  }

  lemma {:induction false} WholeBlocks<R>(blocks: seq<Block<R>>, incomplete: set<Bytes>)
    requires NewIds([], blocks)
    ensures var log := Lines(blocks);
      && Active(log) == {} && Current(log) == []
      && Taken(log, incomplete) == RecordsBut(blocks, incomplete)
  {
    hide Active, Current, Taken, Begun, BlockLines;
    NoLines<R>();
    NothingLogged<R>();
    if blocks != [] {
      var front, last := blocks[..|blocks| - 1], blocks[|blocks| - 1];
      var log := Lines(front);
      Snoc(blocks);
      LinesGrow(front, last);
      WholeBlocks(front, incomplete);
      match last {
        case Single(r) => OneLine(log, r, incomplete);
        case Tx(id, records) => OneTx(log, id, records, incomplete);
      }
    }
  }

  lemma OneLine<R>(log: seq<Line<R>>, r: R, incomplete: set<Bytes>)
    requires Current(log) == []
    ensures var log' := log + BlockLines(Single(r));
      Active(log') == Active(log) && Current(log') == [] && Taken(log', incomplete) == Taken(log, incomplete) + [r]
  {
    hide Active, Current, Taken, Begun;
    Push(log, Entry(r));
    PushTaken(log, Entry(r), incomplete);
  }

  lemma OneTx<R>(log: seq<Line<R>>, id: Bytes, records: seq<R>, incomplete: set<Bytes>)
    requires id != [] && id !in Active(log)
    ensures var log' := log + BlockLines(Tx(id, records));
      && Active(log') == Active(log) && Current(log') == []
      && Taken(log', incomplete) == Taken(log, incomplete) + if id in incomplete then [] else records
  {
    hide Active, Current, Taken, Begun;
    var unfinished := log + [Begin(id)] + Entries(records);
    Unfinished(log, id, records, incomplete);
    assert log + BlockLines(Tx(id, records)) == unfinished + [Commit(id)];
    assert Active(log) + {id} - {id} == Active(log);
    Push(unfinished, Commit(id));
    PushTaken(unfinished, Commit(id), incomplete);
    assert Taken(unfinished, incomplete) + [] == Taken(unfinished, incomplete);
  }

  lemma {:induction false} NewIdsPrefix<R>(blocks: seq<Block<R>>, w: nat)
    requires NewIds([], blocks) && w <= |blocks|
    ensures NewIds([], blocks[..w])
  {
    if w == |blocks| {
      assert blocks[..w] == blocks;
    } else {
      NewIdAt([], blocks, w);
    }
  }

  /** What either pass makes of the first `m` lines. */
  lemma PrefixSeen<R>(blocks: seq<Block<R>>, m: nat, incomplete: set<Bytes>)
    requires NewIds([], blocks) && m <= |Lines(blocks)|
    ensures var w, log := Whole(blocks, m), Lines(blocks)[..m];
      if EndsInside(blocks, m)
      then w < |blocks| && blocks[w].Tx? && Active(log) == {blocks[w].id}
        && Taken(log, incomplete) == RecordsBut(blocks[..w], incomplete) + if blocks[w].id in incomplete then [] else Tail(blocks, m)
      else Active(log) == {} && Taken(log, incomplete) == RecordsBut(blocks[..w], incomplete)
  {
    hide Active, Current, Taken, Begun, Lines, Whole, RecordsBut, Tail, EndsInside;
    var w := Whole(blocks, m);
    PrefixShape(blocks, m);
    NewIdsPrefix(blocks, w);
    WholeBlocks(blocks[..w], incomplete);
    if EndsInside(blocks, m) {
      NewIdAt([], blocks, w);
      Unfinished(Lines(blocks[..w]), blocks[w].id, Tail(blocks, m), incomplete);
      assert {} + {blocks[w].id} == {blocks[w].id};
    }
  }

  // ----- a first pass that saw `k` of `n` lines -----

  /** The `k` lines end inside a transaction that is whole within the `n` lines: it counts as incomplete. */
  ghost predicate Loses<R>(blocks: seq<Block<R>>, n: nat, k: nat)
  {
    EndsInside(blocks, k) && Whole(blocks, k) < Whole(blocks, n)
  }

  /** The `k` lines end before the transaction that the `n` lines end in: it does not count as incomplete. */
  ghost predicate Takes<R>(blocks: seq<Block<R>>, n: nat, k: nat)
  {
    EndsInside(blocks, n) && k <= |Lines(blocks[..Whole(blocks, n)])|
  }

  /** The transaction that is lost has records. */
  ghost predicate LosesRecords<R>(blocks: seq<Block<R>>, n: nat, k: nat)
    requires k <= n <= |Lines(blocks)|
  {
    InsideTx(blocks, k);
    Loses(blocks, n, k) && blocks[Whole(blocks, k)].records != []
  }

  /** The transaction that is taken has records among the lines. */
  ghost predicate TakesRecords<R>(blocks: seq<Block<R>>, n: nat, k: nat)
    requires k <= n <= |Lines(blocks)|
  {
    Takes(blocks, n, k) && Tail(blocks, n) != []
  }

  lemma {:induction false} LinesLonger<R>(blocks: seq<Block<R>>, v: nat, w: nat)
    requires v <= w <= |blocks|
    ensures |Lines(blocks[..v])| <= |Lines(blocks[..w])|
  {
    hide Lines;
    LinesSplit(blocks[..w], v);
    assert blocks[..w][..v] == blocks[..v];
  }

  lemma WholeGrows<R>(blocks: seq<Block<R>>, k: nat, n: nat)
    requires k <= n
    ensures Whole(blocks, k) <= Whole(blocks, n)
    ensures Whole(blocks, k) < Whole(blocks, n) ==> k < |Lines(blocks[..Whole(blocks, n)])|
  {
    hide Lines, Whole;
    WholeIsMost(blocks, k);
    WholeIsMost(blocks, n);
    var v, w := Whole(blocks, k), Whole(blocks, n);
    if w < v {
      LinesLonger(blocks, w + 1, v);
    } else if v < w {
      LinesLonger(blocks, v + 1, w);
    }
  }

  lemma {:induction false} RecordsButNone<R>(blocks: seq<Block<R>>, incomplete: set<Bytes>)
    requires Ids(blocks) * incomplete == {}
    ensures RecordsBut(blocks, incomplete) == Records(blocks)
  {
    if blocks != [] {
      var front, last := blocks[..|blocks| - 1], blocks[|blocks| - 1];
      assert Ids(front) * incomplete == {} by {
        if x :| x in Ids(front) * incomplete {
          assert x in Ids(blocks) * incomplete;
        }
      }
      RecordsButNone(front, incomplete);
      if last.Tx? {
        assert last.id in Ids(blocks);
        assert last.id !in Ids(blocks) * incomplete;
      }
    }
  }

  lemma RecordsButGrow<R>(blocks: seq<Block<R>>, b: Block<R>, incomplete: set<Bytes>)
    ensures RecordsBut(blocks + [b], incomplete) ==
            RecordsBut(blocks, incomplete) + if b.Tx? && b.id in incomplete then [] else BlockRecords(b)
  {
    assert (blocks + [b])[..|blocks|] == blocks;
  }

  /** With one transaction left out, the records before it and those behind it remain. */
  lemma {:induction false} RecordsButOne<R>(blocks: seq<Block<R>>, v: nat)
    requires NewIds([], blocks) && v < |blocks| && blocks[v].Tx?
    ensures RecordsBut(blocks, {blocks[v].id}) == Records(blocks[..v]) + Records(blocks[v + 1..])
    ensures Records(blocks) == Records(blocks[..v]) + blocks[v].records + Records(blocks[v + 1..])
  {
    hide NewIds, Begun, Ids, Records, RecordsBut, BlockRecords, Lines;
    var n, id := |blocks| - 1, blocks[v].id;
    var front, last := blocks[..n], blocks[n];
    NewIdAt([], blocks, n);
    Snoc(blocks);
    LinesGrow(front, last);
    RecordsButGrow(front, last, {id});
    if v == n {
      NotAmong(Ids(front), id);
      RecordsButNone(front, {id});
      NoLines<R>();
      assert blocks[v + 1..] == [];
      TxRecords(last);
    } else {
      var before, behind := Records(blocks[..v]), Records(front[v + 1..]);
      assert front[..v] == blocks[..v] && blocks[v + 1..] == front[v + 1..] + [last];
      RecordsButOne(front, v);
      LinesGrow(front[v + 1..], last);
      if last.Tx? {
        DifferentIds(blocks, v, n);
      }
      Concat(before, behind, BlockRecords(last));
      Concat(before + blocks[v].records, behind, BlockRecords(last));
    }
  }

  lemma TxRecords<R>(b: Block<R>)
    requires b.Tx?
    ensures BlockRecords(b) == b.records
  {
  }

  lemma RecordsButWithin<R>(blocks: seq<Block<R>>, v: nat, w: nat)
    requires NewIds([], blocks) && v <= w <= |blocks| && v < |blocks| && blocks[v].Tx?
    ensures RecordsBut(blocks[..w], {blocks[v].id}) ==
            if v < w then Records(blocks[..v]) + Records(blocks[v + 1..w]) else Records(blocks[..w])
    ensures v < w < |blocks| && blocks[w].Tx? ==> blocks[w].id != blocks[v].id
  {
    hide RecordsBut, Records, NewIds, Ids, Begun;
    NewIdsPrefix(blocks, w);
    if v < w {
      RecordsButOne(blocks[..w], v);
      assert blocks[..w][..v] == blocks[..v] && blocks[..w][v + 1..] == blocks[v + 1..w];
      if w < |blocks| && blocks[w].Tx? {
        DifferentIds(blocks, v, w);
      }
    } else {
      NewIdAt([], blocks, v);
      NotAmong(Ids(blocks[..v]), blocks[v].id);
      RecordsButNone(blocks[..v], {blocks[v].id});
    }
  }

  lemma NotAmong<T>(s: set<T>, x: T)
    requires x !in s
    ensures s * {x} == {}
  {
  }

  /** Exactly what the second pass takes: all whole blocks but the one the first pass saw only the beginning of, and the
      records of an unfinished transaction that it saw nothing of. */
  lemma PartlySeen<R>(blocks: seq<Block<R>>, n: nat, k: nat)
    requires NewIds([], blocks) && k <= n <= |Lines(blocks)|
    ensures var v, w, log := Whole(blocks, k), Whole(blocks, n), Lines(blocks)[..n];
      && Recovered(log) == Records(blocks[..w])
      && Taken(log, Active(log[..k])) ==
           (if Loses(blocks, n, k) then Records(blocks[..v]) + Records(blocks[v + 1..w]) else Records(blocks[..w])) +
           (if Takes(blocks, n, k) then Tail(blocks, n) else [])
  {
    hide Recovered, Active, Taken, Begun, Lines, Whole, RecordsBut, Records, Tail, EndsInside, NewIds, Ids;
    var v, w, log := Whole(blocks, k), Whole(blocks, n), Lines(blocks)[..n];
    CrashAtomic(blocks, n);
    assert log[..k] == Lines(blocks)[..k];
    WholeGrows(blocks, k, n);
    PrefixSeen(blocks, k, {});
    var incomplete := Active(log[..k]);
    PrefixSeen(blocks, n, incomplete);
    NewIdsPrefix(blocks, w);
    if EndsInside(blocks, k) {
      SeenInside(blocks, n, k);
      RecordsButWithin(blocks, v, w);
    } else {
      NothingAmong(Ids(blocks[..w]));
      RecordsButNone(blocks[..w], {});
      EndsOutside(blocks, n, k);
    }
  }

  lemma NothingAmong<T>(s: set<T>)
    ensures s * {} == {}
  {
  }

  /** The block the `k` lines end inside is whole within the `n` lines, or it is the one these end in. */
  lemma SeenInside<R>(blocks: seq<Block<R>>, n: nat, k: nat)
    requires k <= n <= |Lines(blocks)| && EndsInside(blocks, k)
    ensures if Whole(blocks, k) < Whole(blocks, n) then EndsInside(blocks, n) ==> Takes(blocks, n, k)
            else Whole(blocks, k) == Whole(blocks, n) && EndsInside(blocks, n) && !Takes(blocks, n, k)
  {
    hide Lines, Whole;
    InsideTx(blocks, k);
    InsideTx(blocks, n);
    WholeGrows(blocks, k, n);
  }

  lemma EndsOutside<R>(blocks: seq<Block<R>>, n: nat, k: nat)
    requires k <= n <= |Lines(blocks)| && !EndsInside(blocks, k)
    ensures EndsInside(blocks, n) ==> Takes(blocks, n, k)
  {
    hide Lines, Whole;
    WholeGrows(blocks, k, n);
    InsideTx(blocks, k);
  }

  ghost predicate Different<T>(s: seq<T>)
  {
    forall i, j :: 0 <= i < j < |s| ==> s[i] != s[j]
  }

  lemma DifferentParts<T>(a: seq<T>, b: seq<T>)
    requires Different(a + b)
    ensures Different(a) && Different(b) && forall x :: x in a ==> x !in b
  {
    var s := a + b;
    forall i, j | 0 <= i < j < |a| ensures a[i] != a[j] {
      assert s[i] == a[i] && s[j] == a[j];
    }
    forall i, j | 0 <= i < j < |b| ensures b[i] != b[j] {
      assert s[|a| + i] == b[i] && s[|a| + j] == b[j];
    }
    forall x | x in a ensures x !in b {
      var i :| 0 <= i < |a| && a[i] == x;
      forall j | 0 <= j < |b| ensures b[j] != x {
        assert s[i] == x && s[|a| + j] == b[j];
      }
    }
  }

  lemma DifferentPrefix<T>(a: seq<T>, b: seq<T>)
    requires a <= b && Different(b)
    ensures Different(a)
  {
  }

  /** The records a first pass that saw `k` of `n` lines loses, and those it lets through. */
  ghost function Lost<R>(blocks: seq<Block<R>>, n: nat, k: nat): seq<R>
    requires k <= n <= |Lines(blocks)|
  {
    InsideTx(blocks, k);
    if Loses(blocks, n, k) then blocks[Whole(blocks, k)].records else []
  }

  ghost function LetThrough<R>(blocks: seq<Block<R>>, n: nat, k: nat): seq<R>
    requires k <= n <= |Lines(blocks)|
  {
    if Takes(blocks, n, k) then Tail(blocks, n) else []
  }

  /** Before, lost and behind make up what should be recovered; before, behind and let through what is taken. */
  lemma LostAndLetThrough<R>(blocks: seq<Block<R>>, n: nat, k: nat) returns (before: seq<R>, behind: seq<R>)
    requires NewIds([], blocks) && k <= n <= |Lines(blocks)|
    ensures var log := Lines(blocks)[..n];
      && Recovered(log) == before + Lost(blocks, n, k) + behind
      && Taken(log, Active(log[..k])) == before + behind + LetThrough(blocks, n, k)
      && before + Lost(blocks, n, k) + behind + LetThrough(blocks, n, k) <= Records(blocks)
  {
    hide Recovered, Active, Taken, Begun, Lines, Whole, Records, Tail, EndsInside, NewIds, Ids, BlockRecords;
    var v, w, log := Whole(blocks, k), Whole(blocks, n), Lines(blocks)[..n];
    PartlySeen(blocks, n, k);
    TailFollows(blocks, n);
    if Loses(blocks, n, k) {
      InsideTx(blocks, k);
      NewIdsPrefix(blocks, w);
      RecordsButOne(blocks[..w], v);
      assert blocks[..w][..v] == blocks[..v] && blocks[..w][v + 1..] == blocks[v + 1..w];
      before, behind := Records(blocks[..v]), Records(blocks[v + 1..w]);
    } else {
      before, behind := Records(blocks[..w]), [];
      assert before + [] + [] == before && before + [] == before;
    }
    if !Takes(blocks, n, k) {
      assert Records(blocks[..w]) + [] == Records(blocks[..w]);
      assert Records(blocks[..w]) <= Records(blocks[..w]) + Tail(blocks, n);
    }
  }

  lemma TailFollows<R>(blocks: seq<Block<R>>, n: nat)
    requires n <= |Lines(blocks)|
    ensures Records(blocks[..Whole(blocks, n)]) + Tail(blocks, n) <= Records(blocks)
  {
    hide Lines, Whole, Records;
    var w := Whole(blocks, n);
    InsideTx(blocks, n);
    LinesSplit(blocks, w);
    if EndsInside(blocks, n) {
      LinesGrow(blocks[..w], blocks[w]);
      assert blocks[..w + 1] == blocks[..w] + [blocks[w]];
      LinesSplit(blocks, w + 1);
      var a, rs, t := Records(blocks[..w]), blocks[w].records, Tail(blocks, n);
      assert t <= rs;
      assert a + t <= a + rs;
    } else {
      assert Records(blocks[..w]) + [] == Records(blocks[..w]);
    }
  }

  /** When reading the log fails part-way in the first pass, an error Restore ignores, recovery is still right unless
      that pass ended inside a transaction with records that the log holds whole, which is lost, or before an
      unfinished one of which the log holds records, which are taken. If all records are different it is right just then,
      and exactly those records are lost and taken. */
  lemma FirstPassExactly<R>(blocks: seq<Block<R>>, n: nat, k: nat)
    requires NewIds([], blocks) && k <= n <= |Lines(blocks)|
    ensures var log := Lines(blocks)[..n];
      var taken, right := Taken(log, Active(log[..k])), Recovered(log);
      && |taken| - |right| == |LetThrough(blocks, n, k)| - |Lost(blocks, n, k)|
      && (LosesRecords(blocks, n, k) <==> Lost(blocks, n, k) != [])
      && (TakesRecords(blocks, n, k) <==> LetThrough(blocks, n, k) != [])
      && (!LosesRecords(blocks, n, k) && !TakesRecords(blocks, n, k) ==> taken == right)
      && (LosesRecords(blocks, n, k) && !TakesRecords(blocks, n, k) ==> |taken| < |right|)
      && (!LosesRecords(blocks, n, k) && TakesRecords(blocks, n, k) ==> |taken| > |right|)
      && (Different(Records(blocks)) ==>
            && (taken == right <==> !LosesRecords(blocks, n, k) && !TakesRecords(blocks, n, k))
            && (forall r :: r in right && r !in taken <==> r in Lost(blocks, n, k))
            && (forall r :: r in taken && r !in right <==> r in LetThrough(blocks, n, k)))
  {
    hide Recovered, Active, Taken, Begun, Lines, Whole, Records, Tail, EndsInside, NewIds, Ids;
    var lost, through := Lost(blocks, n, k), LetThrough(blocks, n, k);
    var before, behind := LostAndLetThrough(blocks, n, k);
    if Different(Records(blocks)) {
      DifferentPrefix(before + lost + behind + through, Records(blocks));
      FourParts(before, lost, behind, through);
    }
    assert before + [] + behind == before + behind && before + behind + [] == before + behind;
  }

  lemma FourParts<T>(before: seq<T>, lost: seq<T>, behind: seq<T>, through: seq<T>)
    requires Different(before + lost + behind + through)
    ensures var right, taken := before + lost + behind, before + behind + through;
      && (forall x :: x in right && x !in taken <==> x in lost)
      && (forall x :: x in taken && x !in right <==> x in through)
      && (taken == right <==> lost == [] && through == [])
  {
    DifferentParts(before + lost + behind, through);
    DifferentParts(before + lost, behind);
    DifferentParts(before, lost);
    var right, taken := before + lost + behind, before + behind + through;
    if lost != [] {
      assert lost[0] in lost && lost[0] in right;
    }
    if through != [] {
      assert through[0] in through && through[0] in taken;
    }
    if lost == [] && through == [] {
      assert taken == before + behind == right;
    }
  }

  /** An unfinished transaction is applied: the first pass saw one line of the three. */
  lemma UnfinishedIsApplied()
    ensures var log: seq<Line<int>> := [Entry(5), Begin([1]), Entry(6)];
      Recovered(log) == [5] && Taken(log, Active(log[..1])) == [5, 6]
  {
    hide Active, Current, Taken, Begun;
    var log: seq<Line<int>> := [Entry(5), Begin([1]), Entry(6)];
    var none: seq<Line<int>> := [];
    NothingLogged<int>();
    OneLine(none, 5, {});
    assert none + [Entry(5)] == log[..1];
    ActiveWereBegun(log[..1]);
    BegunAppend(none, Entry(5));
    AppendSingle(none, 5);
    AppendUnfinished(log[..1], [1], [6]);
    Unfinished(log[..1], [1], [6], {});
    assert log[..1] + [Begin([1])] + Entries([6]) == log;
    assert [] + [5] == [5] && [5] + [6] == [5, 6];
  }

  /** A committed transaction is lost: the first pass saw only its first line. */
  lemma FirstPassCutShort<R>(id: Bytes, records: seq<R>)
    requires id != []
    ensures var log := BlockLines(Tx(id, records));
      Recovered(log) == records && Taken(log, Active(log[..1])) == []
  {
    hide Active, Current, Taken, Begun;
    var none: seq<Line<R>> := [];
    var unfinished, log := none + [Begin(id)] + Entries(records), BlockLines(Tx(id, records));
    NothingLogged<R>();
    AppendTx(none, id, records);
    Unfinished(none, id, records, {id});
    PushTaken(unfinished, Commit(id), {id});
    Push(none, Begin(id));
    assert log == none + log == unfinished + [Commit(id)] && log[..1] == none + [Begin(id)];
    assert {} + {id} == {id};
  }
}
