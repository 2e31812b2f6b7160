/** From the text of a log tail to what the run loop makes of it. */
module Readings {
  import opened Wrappers
  import opened Service
  import opened RunLoop
  import opened ReportRoundTrip
  import Config
  import Report

  /** A tail whose last REPORT line is a printed one makes a clean reply with exactly the printed fields. It passes as
      a cell's cold start if and only if an unbilled marker was printed on it, a restore marker on SnapStart. */
  lemma TailMakesColdReply(cell: Config.Cell, tail: string, pre: seq<string>, p: Printed, ending: string, post: seq<string>, end: string,
                           payload: Payload)
    requires p.Valid() && (ending == "" || ending == "\r") && (forall i :: 0 <= i < |pre| ==> '\n' !in pre[i])
    requires forall i :: 0 <= i < |post| ==> '\n' !in post[i] && !Report.Contains(post[i], Report.REQUEST)
    requires '\n' !in end && !Report.Contains(end, Report.REQUEST)
    requires tail == Unlines(pre + [p.Print() + ending] + post) + end || tail == Unlines(pre) + p.Print()
    requires cell.scenario.IsHttpFronted() ==> EnvelopeOk(payload)
    ensures var r := ReadTail(200, false, tail, payload);
      && Clean(cell, r) && r.report == Success(p.Fields())
      && (ColdReply(cell, r) <==> exists i :: 0 <= i < |p.fields| && p.fields[i].Cold? && !p.fields[i].billed
                                              && (cell.snapstart ==> p.fields[i].restored))
  {
    hide Report.ParseReport, Report.ParseHostCpu, Report.ParseLine, Unlines, Printed.Print;
    TailRoundTrip(tail, pre, p, ending, post, end);
    LineRoundTrip(p);
    ColdExactly(p);
    UnbilledExactly(p.fields, true);
  }

  lemma UnbilledExactly(fields: seq<Trailing>, restored: bool)
    requires forall i :: 0 <= i < |fields| ==> fields[i].Valid()
    ensures Unbilled(fields, restored).Some? <==>
      exists i :: 0 <= i < |fields| && fields[i].Cold? && !fields[i].billed && fields[i].restored == restored
  {
  }

  /** In a cell whose history ran uncut, which `RunCell` promises of every cell that was not cancelled, each written row
      carries what the parser reads from the log tail of that row's own invoke, and a host CPU only if it is the one
      read from the tail of the cycle's extra invoke. */
  lemma WrittenReport(cell: Config.Cell, counts: Config.Counts, before: seq<Event>, log: seq<Event>, ws: seq<Window>, c: nat, i: nat)
    requires CellRecord(cell, counts, log, ws) && Uncut(before, log) && (forall j :: 0 <= j < |ws| ==> |before| <= ws[j].at)
    requires c < counts.cold && i <= counts.warm
    ensures Place(c, i, counts.warm) < |AllRows(cell, ws)| && i < |ws[c].replies|
    ensures var row := AllRows(cell, ws)[Place(c, i, counts.warm)];
      && Report.ParseReport(ws[c].replies[i].tail) == Success(row.report)
      && (row.hostCpu.Some? ==> ws[c].asked.Ok? && Report.ParseHostCpu(ws[c].asked.value.tail) == row.hostCpu)
  {
    hide AllRows, Place, CpuHistory, Report.ParseReport, Report.ParseHostCpu;
    WrittenCell(cell, counts, log, ws, c, i);
    var w := ws[c];
    assert Witnessed(cell, counts.warm, log, w);
    SliceIndex(log, w.at, |w.replies| + 2, |w.replies| + 1);
    assert Answered(log, w.at + 1 + i) && Answered(log, w.at + 1 + |w.replies|);
  }
}
