/** The results writer: whole cells of rows, appended and flushed under one lock. */
module Recorder {

  /** Lines on their way to the compressed file. `flushed` lines survive a crash of the
      process; `torn` says that a failed write left an unfinished line at the end. */
  class ResultsWriter<T> {
    var lines: seq<T>
    var flushed: nat
    var torn: bool
    var rows: nat
    /** Writes and flushes that failed. */
    ghost var refused: nat

    ghost predicate Valid()
      reads this
    {
      flushed <= |lines| && rows <= flushed
    }

    constructor ()
      ensures Valid() && lines == [] && rows == 0 && !torn && refused == 0
    {
      lines, flushed, torn, rows, refused := [], 0, false, 0, 0;
    }

    /** A returned cell lies contiguously before the flush mark and is counted whole. A
        cell that failed to write is not counted and leaves a prefix of its lines. */
    method WriteCell(cell: seq<T>) returns (ok: bool)
      requires Valid()
      modifies this
      ensures Valid() && old(flushed) <= flushed
      ensures ok ==> lines == old(lines) + cell && flushed == |lines| && rows == old(rows) + |cell| && torn == old(torn)
      ensures refused == old(refused) + if ok then 0 else 1
      ensures !ok ==> rows == old(rows) && old(lines) <= lines <= old(lines) + cell
    {
      for i := 0 to |cell|
        invariant lines == old(lines) + cell[..i]
        invariant flushed == old(flushed) && rows == old(rows) && torn == old(torn) && refused == old(refused)
      {
        var written: bool := *;
        if !written {
          torn, refused := true, refused + 1;
          return false;
        }
        lines := lines + [cell[i]];
      }
      var drained: bool := *;
      if !drained {
        refused := refused + 1;
        return false;
      }
      flushed := |lines|;
      rows := rows + |cell|;
      return true;
    }
  }
}
