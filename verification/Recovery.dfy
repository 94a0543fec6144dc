/** The log as lines, blocks of a transaction in it, and which of its records a restart takes. */
module Recovery {
  import opened Ordering
  import opened Collections

  datatype Line<+R> = Begin(id: Bytes) | Commit(id: Bytes) | Entry(record: R)

  // ----- what the two passes see in a log -----

  /** The transactions begun and not committed since. */
  function Active<R>(log: seq<Line<R>>): set<Bytes>
  {
    if log == [] then {}
    else
      var before := Active(log[..|log| - 1]);
      match log[|log| - 1]
      case Begin(id) => before + {id}
      case Commit(id) => before - {id}
      case Entry(_) => before
  }

  /** The transaction the second pass takes the next entry to be in; empty for none. */
  function Current<R>(log: seq<Line<R>>): Bytes
  {
    if log == [] then []
    else
      match log[|log| - 1]
      case Begin(id) => id
      case Commit(_) => []
      case Entry(_) => Current(log[..|log| - 1])
  }

  /** The records outside the given transactions. */
  function Taken<R>(log: seq<Line<R>>, incomplete: set<Bytes>): seq<R>
  {
    if log == [] then []
    else
      var front := log[..|log| - 1];
      match log[|log| - 1]
      case Begin(_) => Taken(front, incomplete)
      case Commit(_) => Taken(front, incomplete)
      case Entry(r) => Taken(front, incomplete) + if Current(front) != [] && Current(front) in incomplete then [] else [r]
  }

  function Recovered<R>(log: seq<Line<R>>): seq<R>
  {
    Taken(log, Active(log))
  }

  /** The log ends inside a transaction that was begun and not committed. */
  predicate Dangling<R>(log: seq<Line<R>>)
  {
    Current(log) != [] && Current(log) in Active(log)
  }

  function Begun<R>(log: seq<Line<R>>): set<Bytes>
  {
    set i | 0 <= i < |log| && log[i].Begin? :: log[i].id
  }

  // ----- what is written -----

  datatype Block<+R> = Single(record: R) | Tx(id: Bytes, records: seq<R>)

  function Entries<R>(records: seq<R>): (lines: seq<Line<R>>)
    ensures |lines| == |records| && forall i :: 0 <= i < |records| ==> lines[i] == Entry(records[i])
  {
    seq(|records|, i requires 0 <= i < |records| => Entry(records[i]))
  }

  function BlockLines<R>(b: Block<R>): seq<Line<R>>
  {
    match b
    case Single(r) => [Entry(r)]
    case Tx(id, records) => [Begin(id)] + Entries(records) + [Commit(id)]
  }

  function BlockRecords<R>(b: Block<R>): seq<R>
  {
    match b
    case Single(r) => [r]
    case Tx(_, records) => records
  }

  function Lines<R>(blocks: seq<Block<R>>): seq<Line<R>>
  {
    if blocks == [] then [] else Lines(blocks[..|blocks| - 1]) + BlockLines(blocks[|blocks| - 1])
  }

  function Records<R>(blocks: seq<Block<R>>): seq<R>
  {
    if blocks == [] then [] else Records(blocks[..|blocks| - 1]) + BlockRecords(blocks[|blocks| - 1])
  }

  /** How many blocks lie wholly within the first `n` lines. */
  function Whole<R>(blocks: seq<Block<R>>, n: nat): (w: nat)
    ensures w <= |blocks|
    ensures w < |blocks| ==> n < |Lines(blocks)|
  {
    if |Lines(blocks)| <= n then |blocks| else Whole(blocks[..|blocks| - 1], n)
  }

  function Ids<R>(blocks: seq<Block<R>>): set<Bytes>
  {
    if blocks == [] then {}
    else
      var last := blocks[|blocks| - 1];
      Ids(blocks[..|blocks| - 1]) + if last.Tx? then {last.id} else {}
  }

  /** Transactions have non-empty ids, each a new one. */
  ghost predicate NewIds<R>(log: seq<Line<R>>, blocks: seq<Block<R>>)
  {
    blocks == [] ||
    var front, last := blocks[..|blocks| - 1], blocks[|blocks| - 1];
    NewIds(log, front) && (last.Tx? ==> last.id != [] && last.id !in Begun(log) + Ids(front))
  }

  // ----- appending to a log -----

  lemma {:induction false} ActiveWereBegun<R>(log: seq<Line<R>>)
    ensures Active(log) <= Begun(log)
    ensures Current(log) != [] ==> Current(log) in Begun(log)
  {
    if log != [] {
      ActiveWereBegun(log[..|log| - 1]);
    }
  }

  lemma BegunAppend<R>(log: seq<Line<R>>, line: Line<R>)
    ensures Begun(log + [line]) == Begun(log) + if line.Begin? then {line.id} else {}
  {
    var all := log + [line];
    forall id | id in Begun(log) ensures id in Begun(all) {
      var i :| 0 <= i < |log| && log[i].Begin? && log[i].id == id;
      assert all[i] == log[i];
    }
    if line.Begin? {
      assert all[|log|] == line;
    }
  }

  /** A transaction that the log does not begin can be counted as incomplete or not. */
  lemma {:induction false} TakenIgnores<R>(log: seq<Line<R>>, incomplete: set<Bytes>, id: Bytes)
    requires id !in Begun(log)
    ensures Taken(log, incomplete + {id}) == Taken(log, incomplete)
  {
    if log != [] {
      var front, last := log[..|log| - 1], log[|log| - 1];
      BegunAppend(front, last);
      assert front + [last] == log;
      TakenIgnores(front, incomplete, id);
      ActiveWereBegun(front);
    }
  }

  /** What one more line does to each of the notions above. */
  lemma Push<R>(log: seq<Line<R>>, line: Line<R>)
    ensures var log' := log + [line];
      && Active(log') == (if line.Begin? then Active(log) + {line.id} else if line.Commit? then Active(log) - {line.id} else Active(log))
      && Current(log') == (if line.Begin? then line.id else if line.Commit? then [] else Current(log))
      && Begun(log') == Begun(log) + if line.Begin? then {line.id} else {}
  {
    assert (log + [line])[..|log|] == log;
    BegunAppend(log, line);
  }

  lemma PushTaken<R>(log: seq<Line<R>>, line: Line<R>, incomplete: set<Bytes>)
    ensures Taken(log + [line], incomplete) == Taken(log, incomplete) +
      if line.Entry? && (Current(log) == [] || Current(log) !in incomplete) then [line.record] else []
  {
    assert (log + [line])[..|log|] == log;
  }

  /** A record after a dangling transaction is lost; any other is recovered. */
  lemma AppendSingle<R>(log: seq<Line<R>>, r: R)
    ensures var log' := log + [Entry(r)];
      && Recovered(log') == Recovered(log) + (if Dangling(log) then [] else [r])
      && (Dangling(log') <==> Dangling(log)) && Begun(log') == Begun(log)
  {
    hide Active, Current, Taken, Begun;
    Push(log, Entry(r));
    PushTaken(log, Entry(r), Active(log));
  }

  lemma {:induction false} Unfinished<R>(log: seq<Line<R>>, id: Bytes, records: seq<R>, incomplete: set<Bytes>)
    requires id != []
    ensures var log' := log + [Begin(id)] + Entries(records);
      && Active(log') == Active(log) + {id} && Current(log') == id && Begun(log') == Begun(log) + {id}
      && Taken(log', incomplete) == Taken(log, incomplete) + if id in incomplete then [] else records
  {
    hide Active, Current, Taken, Begun;
    var log' := log + [Begin(id)] + Entries(records);
    if records == [] {
      assert log' == log + [Begin(id)];
      Push(log, Begin(id));
      PushTaken(log, Begin(id), incomplete);
    } else {
      var n := |records| - 1;
      var front := log + [Begin(id)] + Entries(records[..n]);
      Unfinished(log, id, records[..n], incomplete);
      assert log' == front + [Entry(records[n])] && records == records[..n] + [records[n]];
      Push(front, Entry(records[n]));
      PushTaken(front, Entry(records[n]), incomplete);
    }
  }

  /** The lines of an unfinished transaction take nothing away and give nothing. */
  lemma AppendUnfinished<R>(log: seq<Line<R>>, id: Bytes, records: seq<R>)
    requires id != [] && id !in Begun(log)
    ensures var log' := log + [Begin(id)] + Entries(records);
      Recovered(log') == Recovered(log) && Dangling(log') && Begun(log') == Begun(log) + {id}
  {
    hide Active, Current, Taken, Begun;
    Unfinished(log, id, records, Active(log) + {id});
    TakenIgnores(log, Active(log), id);
  }

  /** A whole transaction gives its records, whatever came before. */
  lemma AppendTx<R>(log: seq<Line<R>>, id: Bytes, records: seq<R>)
    requires id != [] && id !in Begun(log)
    ensures var log' := log + BlockLines(Tx(id, records));
      && Recovered(log') == Recovered(log) + records
      && !Dangling(log') && Begun(log') == Begun(log) + {id}
  {
    hide Active, Current, Taken, Begun;
    var unfinished := log + [Begin(id)] + Entries(records);
    ActiveWereBegun(log);
    Unfinished(log, id, records, Active(log));
    assert log + BlockLines(Tx(id, records)) == unfinished + [Commit(id)];
    assert Active(log) + {id} - {id} == Active(log);
    Push(unfinished, Commit(id));
    PushTaken(unfinished, Commit(id), Active(log));
  }

  // ----- crashes -----

  lemma LinesGrow<R>(blocks: seq<Block<R>>, b: Block<R>)
    ensures Lines(blocks + [b]) == Lines(blocks) + BlockLines(b)
    ensures Records(blocks + [b]) == Records(blocks) + BlockRecords(b)
  {
    assert (blocks + [b])[..|blocks|] == blocks;
  }

  /** Blocks written after a log: all their records are recovered, but for the single records that come right after
      a transaction left dangling. */
  function Surviving<R>(blocks: seq<Block<R>>): (kept: seq<Block<R>>)
    ensures kept == [] <==> forall i :: 0 <= i < |blocks| ==> blocks[i].Single?
  {
    if blocks == [] then []
    else
      var kept, last := Surviving(blocks[..|blocks| - 1]), blocks[|blocks| - 1];
      if kept == [] && last.Single? then [] else kept + [last]
  }

  lemma {:induction false} LaterBlocks<R>(log: seq<Line<R>>, blocks: seq<Block<R>>)
    requires NewIds(log, blocks)
    ensures var all := log + Lines(blocks);
      && Recovered(all) == Recovered(log) + Records(if Dangling(log) then Surviving(blocks) else blocks)
      && (Dangling(all) <==> Dangling(log) && Surviving(blocks) == [])
      && Begun(all) == Begun(log) + Ids(blocks)
  {
    hide Recovered, Dangling, Begun, Lines, BlockLines, Records, BlockRecords;
    if blocks == [] {
      NoLines<R>();
      assert log + [] == log;
    } else {
      var n := |blocks| - 1;
      var front := log + Lines(blocks[..n]);
      LaterBlocks(log, blocks[..n]);
      LinesGrow(blocks[..n], blocks[n]);
      LinesGrow(Surviving(blocks[..n]), blocks[n]);
      Snoc(blocks);
      Concat(log, Lines(blocks[..n]), BlockLines(blocks[n]));
      AppendBlock(front, blocks[n]);
      Concat(Recovered(log), Records(blocks[..n]), BlockRecords(blocks[n]));
      Concat(Recovered(log), Records(Surviving(blocks[..n])), BlockRecords(blocks[n]));
    }
  }

  lemma NoLines<R>()
    ensures Lines<R>([]) == [] && Records<R>([]) == []
  {
  }

  lemma AppendBlock<R>(log: seq<Line<R>>, b: Block<R>)
    requires b.Tx? ==> b.id != [] && b.id !in Begun(log)
    ensures var log' := log + BlockLines(b);
      && Recovered(log') == Recovered(log) + (if Dangling(log) && b.Single? then [] else BlockRecords(b))
      && (Dangling(log') <==> Dangling(log) && b.Single?)
      && Begun(log') == Begun(log) + if b.Tx? then {b.id} else {}
  {
    hide Recovered, Dangling, Begun;
    match b {
      case Single(r) => AppendSingle(log, r);
      case Tx(id, records) => AppendTx(log, id, records);
    }
  }

  /** After a restart the old log and what is written later recover to what each recovers to, just when the old log
      does not dangle or the later lines do not start with a single record. */
  lemma LaterLogIsRecovered<R>(log: seq<Line<R>>, blocks: seq<Block<R>>)
    requires NewIds(log, blocks)
    ensures Recovered(log + Lines(blocks)) == Recovered(log) + Records(blocks) <==>
      !Dangling(log) || blocks == [] || blocks[0].Tx?
  {
    hide Recovered, Dangling;
    LaterBlocks(log, blocks);
    SurvivingAll(blocks);
    var kept := Surviving(blocks);
    if Dangling(log) && |Records(kept)| < |Records(blocks)| {
      assert |Recovered(log) + Records(kept)| < |Recovered(log) + Records(blocks)|;
    }
  }

  lemma {:induction false} SurvivingAll<R>(blocks: seq<Block<R>>)
    ensures blocks == [] || blocks[0].Tx? ==> Surviving(blocks) == blocks
    ensures blocks != [] && blocks[0].Single? ==> |Records(Surviving(blocks))| < |Records(blocks)|
  {
    if |blocks| > 1 {
      var n := |blocks| - 1;
      SurvivingAll(blocks[..n]);
      LinesGrow(Surviving(blocks[..n]), blocks[n]);
      Snoc(blocks);
    } else if |blocks| == 1 {
      assert blocks[..0] == [];
    }
  }

  /** A plain record written after a crash cut a transaction short is not recovered by the next restart. */
  lemma SingleAfterDanglingIsLost()
    ensures var log: seq<Line<int>> := [Begin([1]), Entry(5)];
      Dangling(log) && Recovered(log) == [] && Recovered(log + [Entry(6)]) == []
  {
    var log: seq<Line<int>> := [Begin([1]), Entry(5)];
    AppendUnfinished([], [1], [5]);
    assert [] + [Begin([1])] + Entries([5]) == log;
    AppendSingle(log, 6);
  }

  /** Crash atomicity: of any line-prefix of what was written, Restore takes every record of each whole block and
      none of an unfinished transaction. */
  lemma {:induction false} CrashAtomic<R>(blocks: seq<Block<R>>, n: nat)
    requires NewIds([], blocks) && n <= |Lines(blocks)|
    ensures Recovered(Lines(blocks)[..n]) == Records(blocks[..Whole(blocks, n)])
  {
    hide Recovered, Lines, Records, Begun, Ids, Whole, BlockLines;
    if n == |Lines(blocks)| {
      assert Lines(blocks)[..n] == Lines(blocks);
      WholeOfAll(blocks);
      AllRecovered(blocks);
    } else {
      NoLines<R>();
      var front, last := blocks[..|blocks| - 1], blocks[|blocks| - 1];
      Snoc(blocks);
      LinesGrow(front, last);
      WholeOfFront(front, last, n);
      TakeConcat(Lines(front), BlockLines(last), n);
      if n <= |Lines(front)| {
        CrashAtomic(front, n);
      } else {
        WholeOfAll(front);
        AllRecovered(front);
        CutBlock(Lines(front), last, n - |Lines(front)|);
      }
    }
  }

  /** They fit, and one more does not. */
  lemma {:induction false} WholeIsMost<R>(blocks: seq<Block<R>>, n: nat)
    ensures var w := Whole(blocks, n);
      |Lines(blocks[..w])| <= n && (w < |blocks| ==> n < |Lines(blocks[..w + 1])|)
  {
    hide Lines;
    assert blocks[..|blocks|] == blocks;
    NoLines<R>();
    if |Lines(blocks)| > n {
      var front := blocks[..|blocks| - 1];
      WholeIsMost(front, n);
      var w := Whole(front, n);
      assert front[..w] == blocks[..w];
      assert w < |front| ==> front[..w + 1] == blocks[..w + 1];
    }
  }

  lemma WholeOfAll<R>(blocks: seq<Block<R>>)
    ensures forall n: nat :: n >= |Lines(blocks)| ==> Whole(blocks, n) == |blocks|
    ensures blocks[..|blocks|] == blocks
  {
  }

  lemma WholeOfFront<R>(front: seq<Block<R>>, b: Block<R>, n: nat)
    requires n < |Lines(front + [b])|
    ensures var blocks := front + [b]; blocks[..Whole(blocks, n)] == front[..Whole(front, n)]
  {
    assert (front + [b])[..|front|] == front;
  }

  lemma AllRecovered<R>(blocks: seq<Block<R>>)
    requires NewIds([], blocks)
    ensures Recovered(Lines(blocks)) == Records(blocks) && Begun(Lines(blocks)) == Ids(blocks)
  {
    hide Lines, Records, Ids;
    var none: seq<Line<R>> := [];
    assert Recovered(none) == [] && !Dangling(none) && Begun(none) == {};
    LaterBlocks(none, blocks);
    assert none + Lines(blocks) == Lines(blocks) && Recovered(none) + Records(blocks) == Records(blocks);
  }

  lemma CutBlock<R>(log: seq<Line<R>>, b: Block<R>, n: nat)
    requires 0 < n < |BlockLines(b)| && (b.Tx? ==> b.id != [] && b.id !in Begun(log))
    ensures Recovered(log + BlockLines(b)[..n]) == Recovered(log)
  {
    hide Recovered, Begun;
    AppendUnfinished(log, b.id, b.records[..n - 1]);
    CutLines(b.id, b.records, n);
    Concat(log, [Begin(b.id)], Entries(b.records[..n - 1]));
  }

  lemma CutLines<R>(id: Bytes, records: seq<R>, n: nat)
    requires 0 < n < |records| + 2
    ensures BlockLines(Tx(id, records))[..n] == [Begin(id)] + Entries(records[..n - 1])
  {
  }

  lemma NothingLogged<R>()
    ensures var none: seq<Line<R>> := [];
      Active(none) == {} == Begun(none) && Current(none) == [] && Recovered(none) == [] && !Dangling(none)
      && forall incomplete :: Taken(none, incomplete) == []
  {
  }
}
