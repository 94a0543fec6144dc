/** The buffered log: lines wait in memory until a flush moves them to the physical log. */
module BufferedWals {
  import opened Collections

  /** The physical log: whole lines. A write, a sync or a truncation may fail; a failed write closes the file. */
  class PhysicalWal<Line> {
    var lines: seq<Line>
    var open: bool
    var synced: nat      // how many lines are known to be on stable storage

    ghost predicate Valid()
      reads this
    {
      synced <= |lines|
    }

    constructor ()
      ensures Valid() && lines == [] && open
    {
      lines, open, synced := [], true, 0;
    }

    method WriteRaw(line: Line) returns (ok: bool)
      requires Valid()
      modifies this
      ensures Valid() && synced == old(synced)
      ensures lines == if ok then old(lines) + [line] else old(lines)
      ensures ok == open && (open ==> old(open))
    {
      if open {
        open := *;
      }
      ok := open;
      if ok {
        lines := lines + [line];
      }
    }

    method SyncWal() returns (ok: bool)
      requires Valid()
      modifies this`synced
      ensures Valid() && synced == if ok then |lines| else old(synced)
    {
      ok := *;
      ok := ok && open;
      if ok {
        synced := |lines|;
      }
    }

    /** Reads the lines; a read that fails has seen only a prefix of them. */
    method RecoverFromWal() returns (ok: bool, seen: seq<Line>)
      ensures seen <= lines && (ok ==> seen == lines)
    {
      ok := *;
      ok := ok && open;
      var n :| 0 <= n <= |lines|;
      seen := if ok then lines else lines[..n];
    }

    method CloseWal() returns (ok: bool)
      requires Valid()
      modifies this`open
      ensures Valid() && !open && ok == old(open)
    {
      ok := open;
      open := false;
    }

    /** Goes through the path of the file, so it works on a closed file too. */
    method TruncateWal() returns (ok: bool)
      requires Valid()
      modifies this
      ensures Valid() && if ok then lines == [] && synced == 0 else lines == old(lines) && synced == old(synced)
    {
      ok := *;
      if ok {
        lines, synced := [], 0;
      }
    }

    /** What a crash leaves: some prefix of the lines, with at least those that were synced. */
    method Crash()
      requires Valid()
      modifies this
      ensures Valid() && lines <= old(lines) && |lines| >= synced == old(synced)
    {
      var n :| synced <= n <= |lines|;
      lines, open := lines[..n], true;
    }
  }

  class BufferedWal<Line> {
    const physicalWal: PhysicalWal<Line>
    var buffer: seq<Line>
    ghost var history: seq<Line>     // every line written since the last truncation that succeeded
    ghost var durable: nat           // how long the history was at the last flush that succeeded

    /** The physical lines followed by the buffered ones are the history. */
    ghost predicate Valid()
      reads this, physicalWal
    {
      && physicalWal.Valid()
      && history == physicalWal.lines + buffer
      && durable <= physicalWal.synced
    }

    /** The log of an earlier run is the history so far. */
    constructor (physicalWal: PhysicalWal<Line>)
      requires physicalWal.Valid()
      ensures Valid() && this.physicalWal == physicalWal && buffer == [] && history == physicalWal.lines
    {
      this.physicalWal, buffer := physicalWal, [];
      history, durable := physicalWal.lines, 0;
    }

    method WriteToWal(line: Line)
      requires Valid()
      modifies this`buffer, this`history
      ensures Valid() && history == old(history) + [line] && buffer == old(buffer) + [line]
    {
      Concat(physicalWal.lines, buffer, [line]);
      buffer := buffer + [line];
      history := history + [line];
    }

    /** Writes the buffered lines one by one until one fails, then syncs; says how many were written. */
    method ExportToWal() returns (written: nat, ok: bool)
      requires Valid()
      modifies physicalWal
      ensures physicalWal.Valid() && written <= |buffer| && (ok ==> written == |buffer|)
      ensures physicalWal.lines == old(physicalWal.lines) + buffer[..written]
      ensures physicalWal.synced >= old(physicalWal.synced) && (ok && buffer != [] ==> physicalWal.synced == |physicalWal.lines|)
    {
      if |buffer| == 0 {
        return 0, true;
      }
      written := 0;
      while written < |buffer|
        invariant written <= |buffer| && physicalWal.Valid() && physicalWal.synced == old(physicalWal.synced)
        invariant physicalWal.lines == old(physicalWal.lines) + buffer[..written]
      {
        ok := physicalWal.WriteRaw(buffer[written]);
        if !ok {
          return;
        }
        assert buffer[..written + 1] == buffer[..written] + [buffer[written]];
        Concat(old(physicalWal.lines), buffer[..written], [buffer[written]]);
        written := written + 1;
      }
      ok := physicalWal.SyncWal();
    }

    /** Lines leave the buffer only as they reach the physical log, even when the flush fails part-way. */
    method Flush() returns (ok: bool)
      requires Valid()
      modifies this`buffer, this`durable, physicalWal
      ensures Valid() && history == old(history) && old(physicalWal.lines) <= physicalWal.lines
      ensures durable >= old(durable) && (ok ==> buffer == [] && (old(buffer) != [] ==> durable == |history|))
    {
      var written: nat;
      written, ok := ExportToWal();
      assert buffer == buffer[..written] + buffer[written..];
      Concat(old(physicalWal.lines), buffer[..written], buffer[written..]);
      if ok && buffer != [] {
        durable := |history|;
      }
      buffer := buffer[written..];
    }

    method SyncWal() returns (ok: bool)
      requires Valid()
      modifies this`buffer, this`durable, physicalWal
      ensures Valid() && history == old(history) && old(physicalWal.lines) <= physicalWal.lines
      ensures durable >= old(durable) && (ok ==> buffer == [] && (old(buffer) != [] ==> durable == |history|))
    {
      ok := Flush();
    }

    /** Flushes first, so that what it reads is the whole history. */
    method RecoverFromWal() returns (ok: bool, seen: seq<Line>)
      requires Valid()
      modifies this`buffer, this`durable, physicalWal
      ensures Valid() && history == old(history) && seen <= history && (ok ==> seen == history)
      ensures ok ==> buffer == []
    {
      ok := Flush();
      if !ok {
        return false, [];
      }
      ok, seen := physicalWal.RecoverFromWal();
    }

    /** Closes the physical log even when the flush fails. */
    method CloseWal() returns (ok: bool)
      requires Valid()
      modifies this`buffer, this`durable, physicalWal
      ensures Valid() && history == old(history) && (ok ==> buffer == []) && !physicalWal.open
    {
      var flushed := Flush();
      var closed := physicalWal.CloseWal();
      ok := flushed && closed;
    }

    /** Drops the buffer first: when the physical truncation fails, what was buffered is lost, and so the history is
        conserved just when nothing was. */
    method TruncateWal() returns (ok: bool)
      requires Valid()
      modifies this, physicalWal
      ensures Valid() && buffer == []
      ensures ok ==> history == []
      ensures !ok ==> physicalWal.lines == old(physicalWal.lines) && (history == old(history) <==> old(buffer) == [])
    {
      buffer := [];
      ok := physicalWal.TruncateWal();
      history, durable := physicalWal.lines, if ok then 0 else durable;
    }

    /** A crash loses the buffer and leaves a prefix of the history, with at least what the last flush that succeeded
        made durable. */
    method Crash()
      requires Valid()
      modifies this, physicalWal
      ensures Valid() && buffer == []
      ensures history == physicalWal.lines <= old(physicalWal.lines) <= old(history) && |history| >= old(durable)
    {
      physicalWal.Crash();
      buffer, history, durable := [], physicalWal.lines, 0;
    }
  }
}
