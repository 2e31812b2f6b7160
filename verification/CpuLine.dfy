/** The host-CPU line: what a handler logs is what the parser reads, whatever is logged around it. */
module CpuLine {
  import opened Wrappers
  import opened Report
  import opened ReportRoundTrip

  predicate Blank(s: string) {
    forall i :: 0 <= i < |s| ==> In(s[i], Space) && s[i] != '\n'
  }

  /** A text that trimming leaves alone. */
  predicate Trimmed(s: string) {
    s != "" && '\n' !in s && !In(s[0], Space) && !In(s[|s| - 1], Space)
  }

  /** `line` logs `cpu` behind any prefix, with any white space around it. */
  ghost predicate Logs(line: string, cpu: string) {
    exists prefix, left, right ::
      && line == prefix + ("LAMBDABENCH_CPU " + (left + cpu + right))
      && '\n' !in prefix && !Contains(prefix, "LAMBDABENCH_CPU ") && Blank(left) && Blank(right)
  }

  /** `line` logs no CPU: it has no marker, or nothing but white space behind it. */
  ghost predicate Silent(line: string) {
    '\n' !in line && (!Contains(line, CPU_MARK) || Logs(line, ""))
  }

  // ---- Trimming -------------------------------------------------------------

  lemma {:induction false} TrimsStart(left: string, rest: string)
    requires Blank(left) && (rest == "" || !In(rest[0], Space))
    ensures TrimStart(left + rest) == rest
  {
    if left != "" {
      assert (left + rest)[1..] == left[1..] + rest;
      TrimsStart(left[1..], rest);
    } else {
      assert left + rest == rest;
    }
  }

  lemma {:induction false} TrimsEnd(rest: string, right: string)
    requires Blank(right) && (rest == "" || !In(rest[|rest| - 1], Space))
    ensures TrimEnd(rest + right) == rest
    decreases |right|
  {
    if right != "" {
      var n := |right| - 1;
      assert (rest + right)[..|rest| + n] == rest + right[..n];
      TrimsEnd(rest, right[..n]);
    } else {
      assert rest + right == rest;
    }
  }

  lemma TrimsBoth(left: string, cpu: string, right: string)
    requires Blank(left) && Blank(right) && (cpu == "" || Trimmed(cpu))
    ensures TrimEnd(TrimStart(left + cpu + right)) == cpu
  {
    if cpu == "" {
      assert left + cpu + right == (left + right) + "";
      TrimsStart(left + right, "");
    } else {
      assert left + cpu + right == left + (cpu + right);
      TrimsStart(left, cpu + right);
      TrimsEnd(cpu, right);
    }
  }

  // ---- The marker -----------------------------------------------------------

  /** The marker's one space is its last character, so it cannot begin inside a prefix that does not contain it. */
  lemma NotInPrefix(prefix: string, rest: string, p: nat)
    requires !Contains(prefix, CPU_MARK) && p < |prefix|
    ensures !At(prefix + (CPU_MARK + rest), p, CPU_MARK)
  {
    var s := prefix + (CPU_MARK + rest);
    if At(s, p, CPU_MARK) {
      if p + 16 <= |prefix| {
        forall i | 0 <= i < 16 ensures prefix[p + i] == CPU_MARK[i] {
          assert s[p + i] == CPU_MARK[i];
        }
        assert At(prefix, p, CPU_MARK);
      } else {
        var k := p + 15 - |prefix|;
        assert s[p + 15] == CPU_MARK[15] == ' ' && s[p + 15] == CPU_MARK[k];
        NoSpaceBefore(k);
      }
    }
  }

  lemma NoSpaceBefore(k: nat)
    requires k < 15
    ensures CPU_MARK[k] != ' '
  {
  }

  lemma {:induction false} FoundBehind(prefix: string, rest: string, from: nat)
    requires !Contains(prefix, CPU_MARK) && from <= |prefix|
    ensures AfterFirst(prefix + (CPU_MARK + rest), CPU_MARK, from) == Some(rest)
    decreases |prefix| - from
  {
    var s := prefix + (CPU_MARK + rest);
    if from < |prefix| {
      NotInPrefix(prefix, rest, from);
      FoundBehind(prefix, rest, from + 1);
    } else {
      assert s[|prefix| + |CPU_MARK|..] == rest;
      forall i | 0 <= i < |CPU_MARK| ensures s[from + i] == CPU_MARK[i] {
      }
    }
  }

  lemma {:induction false} NotFound(s: string, from: nat)
    requires !Contains(s, CPU_MARK) && from <= |s|
    ensures AfterFirst(s, CPU_MARK, from) == None
    decreases |s| - from
  {
    if from < |s| {
      NotFound(s, from + 1);
    }
  }

  // ---- Lines ----------------------------------------------------------------

  lemma LogsRead(line: string, cpu: string)
    requires Logs(line, cpu) && (cpu == "" || Trimmed(cpu))
    ensures AfterFirst(line, CPU_MARK, 0).Some? && TrimEnd(TrimStart(AfterFirst(line, CPU_MARK, 0).value)) == cpu
  {
    var prefix, left, right :|
      && line == prefix + (CPU_MARK + (left + cpu + right))
      && '\n' !in prefix && !Contains(prefix, CPU_MARK) && Blank(left) && Blank(right);
    FoundBehind(prefix, left + cpu + right, 0);
    TrimsBoth(left, cpu, right);
  }

  lemma LastOne(lines: seq<string>, line: string, cpu: string)
    requires lines != [] && lines[|lines| - 1] == line && Logs(line, cpu) && Trimmed(cpu)
    ensures LastCpu(lines) == Some(cpu)
  {
    hide TrimStart, TrimEnd, AfterFirst, Logs;
    LogsRead(line, cpu);
  }

  lemma SilentLast(lines: seq<string>)
    requires lines != [] && Silent(lines[|lines| - 1])
    ensures LastCpu(lines) == LastCpu(lines[..|lines| - 1])
  {
    hide TrimStart, TrimEnd, AfterFirst, Logs;
    var line := lines[|lines| - 1];
    if Contains(line, CPU_MARK) {
      LogsRead(line, "");
    } else {
      NotFound(line, 0);
    }
  }

  /** The last line that logs a CPU wins; lines that log none do not count. */
  lemma {:induction false} LastLogged(pre: seq<string>, line: string, cpu: string, post: seq<string>)
    requires Logs(line, cpu) && Trimmed(cpu)
    requires forall i :: 0 <= i < |post| ==> Silent(post[i])
    ensures LastCpu(pre + [line] + post) == Some(cpu)
    decreases |post|
  {
    hide LastCpu, Logs, Silent;
    var all := pre + [line] + post;
    if post == [] {
      LastOne(all, line, cpu);
    } else {
      var n := |post| - 1;
      assert all[|all| - 1] == post[n] && all[..|all| - 1] == pre + [line] + post[..n];
      SilentLast(all);
      LastLogged(pre, line, cpu, post[..n]);
    }
  }

  lemma {:induction false} NoneLogged(lines: seq<string>)
    requires forall i :: 0 <= i < |lines| ==> Silent(lines[i])
    ensures LastCpu(lines) == None
    decreases |lines|
  {
    hide Silent;
    if lines != [] {
      SilentLast(lines);
      NoneLogged(lines[..|lines| - 1]);
    }
  }

  // ---- Dropped carriage returns ---------------------------------------------

  lemma LogsDropped(line: string, cpu: string)
    requires Logs(line, cpu) && (cpu == "" || Trimmed(cpu))
    ensures Logs(DropReturn(line), cpu)
  {
    hide Contains, Trimmed, Blank, DropReturn;
    var prefix, left, right :|
      && line == prefix + ("LAMBDABENCH_CPU " + (left + cpu + right))
      && '\n' !in prefix && !Contains(prefix, "LAMBDABENCH_CPU ") && Blank(left) && Blank(right);
    var l, r := PartsDropped(prefix, "LAMBDABENCH_CPU ", left, cpu, right);
  }

  lemma PartsDropped(prefix: string, mark: string, left: string, cpu: string, right: string) returns (l: string, r: string)
    requires mark != "" && mark[|mark| - 1] == ' ' && Blank(left) && Blank(right) && (cpu == "" || Trimmed(cpu))
    ensures Blank(l) && Blank(r)
    ensures DropReturn(prefix + (mark + (left + cpu + right))) == prefix + (mark + (l + cpu + r))
  {
    hide Trimmed, Blank, DropReturn;
    l, r := left, right;
    if right != "" {
      r := DropReturn(right);
      BlankDropped(prefix + (mark + (left + cpu)), right);
      Regrouped(prefix, mark, left + cpu, right);
      Regrouped(prefix, mark, left + cpu, r);
    } else if cpu == "" && left != "" {
      l := DropReturn(left);
      BlankDropped(prefix + mark, left);
      Joined(prefix, mark, left);
      Joined(prefix, mark, l);
    } else {
      EndKept(prefix + (mark + (left + cpu + right)), cpu);
    }
  }

  lemma Joined(a: string, b: string, c: string)
    ensures a + (b + (c + "" + "")) == (a + b) + c
  {
  }

  lemma Regrouped(a: string, b: string, c: string, d: string)
    ensures a + (b + (c + d)) == (a + (b + c)) + d
  {
  }

  lemma BlankDropped(front: string, s: string)
    requires s != "" && Blank(s)
    ensures DropReturn(front + s) == front + DropReturn(s) && Blank(DropReturn(s))
  {
    assert (front + s)[..|front + s| - 1] == front + s[..|s| - 1];
  }

  /** A text that ends in a CPU, or in the marker, loses nothing. */
  lemma EndKept(line: string, cpu: string)
    requires cpu == "" || Trimmed(cpu)
    requires |line| >= |cpu| && line[|line| - |cpu|..] == cpu
    requires cpu == "" ==> line != "" && line[|line| - 1] == ' '
    ensures DropReturn(line) == line
  {
    if cpu != "" {
      LastKept(cpu);
      assert line[|line| - 1] == line[|line| - |cpu|..][|cpu| - 1];
    }
  }

  lemma LastKept(cpu: string)
    requires Trimmed(cpu)
    ensures cpu[|cpu| - 1] != '\r'
  {
  }

  lemma SilentDropped(line: string)
    requires Silent(line)
    ensures Silent(DropReturn(line))
  {
    hide Logs, At;
    if Contains(line, CPU_MARK) {
      LogsDropped(line, "");
      LogsNoBreak(DropReturn(line));
    } else {
      forall p | 0 <= p <= |DropReturn(line)| ensures !At(DropReturn(line), p, CPU_MARK) {
        AtPrefix(DropReturn(line), line, p, CPU_MARK);
      }
    }
  }

  lemma LogsNoBreak(line: string)
    requires Logs(line, "")
    ensures '\n' !in line
  {
  }

  lemma {:induction false} AllSilentDropped(lines: seq<string>)
    requires forall i :: 0 <= i < |lines| ==> Silent(lines[i])
    ensures forall i :: 0 <= i < |DropReturns(lines)| ==> Silent(DropReturns(lines)[i])
  {
    hide Silent;
    if lines != [] {
      AllSilentDropped(lines[1..]);
      SilentDropped(lines[0]);
    }
  }

  // ---- Whole tails ----------------------------------------------------------

  /** In a whole log tail the last CPU logged is read back without the white space around it, whatever the prefix of
      its line and whether or not that is the last line and has an ending. */
  lemma CpuRoundTrip(tail: string, pre: seq<string>, line: string, cpu: string, post: seq<string>, end: string)
    requires Logs(line, cpu) && Trimmed(cpu)
    requires forall i :: 0 <= i < |pre| ==> '\n' !in pre[i]
    requires (forall i :: 0 <= i < |post| ==> Silent(post[i])) && Silent(end)
    requires tail == Unlines(pre + [line] + post) + end || tail == Unlines(pre) + line
    ensures ParseHostCpu(tail) == Some(cpu)
  {
    hide Logs, Trimmed, Unlines, Lines, LastCpu, DropReturn, DropReturns;
    LogsClean(line, cpu);
    if tail == Unlines(pre) + line {
      LinesRoundTrip(pre, line);
      LastLogged(DropReturns(pre), line, cpu, []);
      assert DropReturns(pre) + [line] + [] == DropReturns(pre) + [line];
    } else {
      var last := if end == "" then [] else [end];
      Without(pre, line, post);
      LinesRoundTrip(pre + [line] + post, end);
      DroppedParts(pre, line, post);
      LogsDropped(line, cpu);
      AllSilentDropped(post);
      LastLogged(DropReturns(pre), DropReturn(line), cpu, DropReturns(post) + last);
      Regroup(DropReturns(pre) + [DropReturn(line)], DropReturns(post), last);
    }
  }

  lemma LogsClean(line: string, cpu: string)
    requires Logs(line, cpu) && Trimmed(cpu)
    ensures '\n' !in line && line != ""
  {
  }

  /** A tail in which no line logs a CPU reads as none. */
  lemma NoCpuLine(lines: seq<string>, end: string)
    requires (forall i :: 0 <= i < |lines| ==> Silent(lines[i])) && Silent(end)
    ensures ParseHostCpu(Unlines(lines) + end) == None
  {
    hide Logs, Unlines, Lines, LastCpu, DropReturn, DropReturns, Contains;
    LinesRoundTrip(lines, end);
    AllSilentDropped(lines);
    NoneLogged(DropReturns(lines) + if end == "" then [] else [end]);
  }
}
