/** `execute_lighthouse` and `get_reports` (lighthouse.py:31-53): one audit
    command per line of the URL file, each writing its report to a path
    derived from the URL's host name and path. `urlparse` and the shell are
    parameters: `parse` gives the parts of a URL, or None where `urlparse`
    raises ValueError; `run` gives the exit status of a command line. */
module ReportFetcher {
  import opened PyValues
  import opened Text

  /** The parts of `urlparse(url)` the script reads. */
  datatype UrlParts = UrlParts(hostname: Option<string>, path: string)

  /** `'{}'.format(o.hostname)`: a missing host name prints as None. */
  function HostText(host: Option<string>): string {
    match host
    case Some(h) => h
    case None => "None"
  }

  /** `o.path[1:]`: the path without its first character. */
  function DropFirst(s: string): (r: string)
    ensures |s| > 0 ==> r == s[1..]
    ensures |s| == 0 ==> r == []
  {
    if s == [] then [] else s[1..]
  }

  /** `o.path[1:].replace('/', '--')`. */
  function ReportName(parts: UrlParts): string {
    Replace(DropFirst(parts.path), "/", "--")
  }

  /** The report name holds no '/', and each '/' after the first character
      of the path became two characters. */
  lemma ReportNameFlat(parts: UrlParts)
    ensures '/' !in ReportName(parts)
    ensures |ReportName(parts)| == |DropFirst(parts.path)| + Count(DropFirst(parts.path), '/')
  {
    ReplaceCharRemoves(DropFirst(parts.path), '/', "--");
    ReplaceCharLength(DropFirst(parts.path), '/', "--");
  }

  /** The file name the report is written under: host, `--`, report name. */
  function ReportFile(parts: UrlParts): string {
    HostText(parts.hostname) + "--" + ReportName(parts) + ".json"
  }

  /** The `--output-path` given to the audit. */
  function ReportPath(parts: UrlParts): string {
    "./reports/" + ReportFile(parts)
  }

  /** The shell command line `execute_lighthouse` runs for `url`. */
  function Command(url: string, parts: UrlParts): string {
    "lighthouse " + url + " --emulated-form-factor=desktop --output=json --output-path=" + ReportPath(parts) + " --view"
  }

  /** A report path splits on '/' into ".", "reports" and the file name,
      provided the host name holds no '/' (`urlparse` never puts one there). */
  lemma ReportPathSplits(parts: UrlParts)
    requires '/' !in HostText(parts.hostname)
    ensures Split(ReportPath(parts), '/') == [".", "reports", ReportFile(parts)]
  {
    var f := ReportFile(parts);
    ReportNameFlat(parts);
    assert '/' !in f by {
      assert f == HostText(parts.hostname) + "--" + ReportName(parts) + ".json";
    }
    var pieces := [".", "reports", f];
    assert pieces[1..] == ["reports", f] && pieces[1..][1..] == [f];
    assert Join(pieces[1..][1..], '/') == f;
    assert Join(pieces[1..], '/') == "reports" + ['/'] + f;
    assert Join(pieces, '/') == "." + ['/'] + ("reports" + ['/'] + f);
    assert ReportPath(parts) == Join(pieces, '/');
    SplitJoin(pieces, '/');
  }

  /** Two different URL paths can share a report: '/' and '--' both become
      '--', so the second report overwrites the first. */
  lemma ReportNamesCollide()
    ensures UrlParts(Some("a.org"), "/x/y") != UrlParts(Some("a.org"), "/x--y")
    ensures ReportPath(UrlParts(Some("a.org"), "/x/y")) == ReportPath(UrlParts(Some("a.org"), "/x--y"))
  {
    assert DropFirst("/x/y") == "x/y";
    assert DropFirst("/x--y") == "x--y";
    assert Replace("x/y", "/", "--") == "x--y" by {
      assert "x/y"[1..] == "/y";
      assert "/y"[1..] == "y";
    }
    assert Replace("x--y", "/", "--") == "x--y" by {
      assert "x--y"[1..] == "--y";
      assert "--y"[1..] == "-y";
      assert "-y"[1..] == "y";
    }
  }

  /** What one call of `execute_lighthouse` did: the command it ran, if it
      got that far, and the exception it raised, if any. */
  datatype Step = Step(command: Option<string>, raised: Option<Error>)

  /** `execute_lighthouse(url)`: ValueError when `urlparse` fails; otherwise
      the command is run, and ShellError is raised exactly when its exit
      status is not 0. */
  function Execute(url: string, parse: string -> Option<UrlParts>, run: string -> int): (s: Step)
    ensures parse(url).None? ==> s == Step(None, Some(ValueError))
    ensures parse(url).Some? ==> s.command == Some(Command(url, parse(url).value))
    ensures parse(url).Some? ==> s.raised == if run(s.command.value) != 0 then Some(ShellError) else None
    ensures s.raised.Some? ==> s.raised.value in {ValueError, ShellError}
  {
    match parse(url)
    case None => Step(None, Some(ValueError))
    case Some(o) =>
      var cmd := Command(url, o);
      if run(cmd) != 0 then Step(Some(cmd), Some(ShellError)) else Step(Some(cmd), None)
  }

  /** `execute_lighthouse(url)` as a procedure: the command is built, handed
      to the shell, and its exit status checked. */
  method ExecuteLighthouse(url: string, parse: string -> Option<UrlParts>, run: string -> int) returns (s: Step)
    ensures s == Execute(url, parse, run)
  {
    var o := parse(url);
    if o.None? {
      return Step(None, Some(ValueError));
    }
    var cmd := Command(url, o.value);
    var status := run(cmd);
    if status != 0 {
      return Step(Some(cmd), Some(ShellError));
    }
    return Step(Some(cmd), None);
  }

  /** What `get_reports` did over some lines: the commands run, in order, and
      the exception that ended it early, if any. */
  datatype Run = Run(commands: seq<string>, error: Option<Error>)

  /** What `execute_lighthouse` does for each stripped line, in order. */
  function Steps(lines: seq<string>, parse: string -> Option<UrlParts>, run: string -> int): (ss: seq<Step>)
    ensures |ss| == |lines|
    ensures forall k {:trigger ss[k]} :: 0 <= k < |lines| ==> ss[k] == Execute(Strip(lines[k]), parse, run)
  {
    seq(|lines|, k requires 0 <= k < |lines| => Execute(Strip(lines[k]), parse, run))
  }

  /** The loop of `get_reports` over the steps of its lines: ShellError moves
      on to the next line, ValueError ends the loop and leaves the function. */
  function Sequence(ss: seq<Step>): Run
    decreases |ss|
  {
    if ss == [] then Run([], None)
    else
      var prev := Sequence(ss[..|ss| - 1]);
      var step := ss[|ss| - 1];
      if prev.error.Some? then prev
      else
        var cmds := prev.commands + (if step.command.Some? then [step.command.value] else []);
        if step.raised == Some(ValueError) then Run(cmds, Some(ValueError)) else Run(cmds, None)
  }

  /** `get_reports` over the lines of the URL file. Blank lines are not
      skipped. */
  function Fetch(lines: seq<string>, parse: string -> Option<UrlParts>, run: string -> int): Run {
    Sequence(Steps(lines, parse, run))
  }

  /** `get_reports` on the lines `readlines` returned. */
  method GetReports(lines: seq<string>, parse: string -> Option<UrlParts>, run: string -> int) returns (r: Run)
    ensures r == Fetch(lines, parse, run)
  {
    ghost var ss := Steps(lines, parse, run);
    var commands: seq<string> := [];
    var i := 0;
    while i < |lines|
      invariant 0 <= i <= |lines|
      invariant Sequence(ss[..i]) == Run(commands, None)
    {
      var step := ExecuteLighthouse(Strip(lines[i]), parse, run);
      assert ss[i] == step;
      SequenceNext(ss, i, commands);
      if step.command.Some? {
        commands := commands + [step.command.value];
      }
      if step.raised == Some(ValueError) {
        SequenceStops(ss, i + 1);
        return Run(commands, Some(ValueError));
      }
      i := i + 1;
    }
    assert ss[..i] == ss;
    return Run(commands, None);
  }

  /** One more step of the loop: its command, if any, is recorded, and
      ValueError ends the loop. */
  lemma SequenceNext(ss: seq<Step>, i: nat, commands: seq<string>)
    requires i < |ss| && Sequence(ss[..i]) == Run(commands, None)
    ensures var cmds := commands + (if ss[i].command.Some? then [ss[i].command.value] else []);
      Sequence(ss[..i + 1]) == if ss[i].raised == Some(ValueError) then Run(cmds, Some(ValueError)) else Run(cmds, None)
  {
    assert ss[..i + 1][..i] == ss[..i];
  }

  /** Once `urlparse` has failed, later lines are never read. */
  lemma {:induction false} SequenceStops(ss: seq<Step>, n: nat)
    requires n <= |ss| && Sequence(ss[..n]).error.Some?
    ensures Sequence(ss) == Sequence(ss[..n])
    decreases |ss| - n
  {
    if n < |ss| {
      var p := ss[..|ss| - 1];
      assert p[..n] == ss[..n];
      SequenceStops(p, n);
    } else {
      assert ss[..n] == ss;
    }
  }

  /** Steps that all run their command, whatever its status, are all
      recorded, in order, and the loop ends normally. */
  lemma {:induction false} SequenceAllRun(ss: seq<Step>)
    requires forall k :: 0 <= k < |ss| ==> ss[k].command.Some? && ss[k].raised != Some(ValueError)
    ensures Sequence(ss).error.None?
    ensures |Sequence(ss).commands| == |ss|
    ensures forall k :: 0 <= k < |ss| ==> Sequence(ss).commands[k] == ss[k].command.value
    decreases |ss|
  {
    if ss != [] {
      var p := ss[..|ss| - 1];
      assert forall k :: 0 <= k < |p| ==> p[k] == ss[k];
      SequenceAllRun(p);
    }
  }

  /** The command of a line `urlparse` accepts. */
  function LineCommand(line: string, parse: string -> Option<UrlParts>): string
    requires parse(Strip(line)).Some?
  {
    Command(Strip(line), parse(Strip(line)).value)
  }

  /** When `urlparse` accepts every line, every line is audited, in order,
      whatever the exit statuses, and `get_reports` returns normally. */
  lemma FetchAllLines(lines: seq<string>, parse: string -> Option<UrlParts>, run: string -> int)
    requires forall k :: 0 <= k < |lines| ==> parse(Strip(lines[k])).Some?
    ensures Fetch(lines, parse, run).error.None?
    ensures |Fetch(lines, parse, run).commands| == |lines|
    ensures forall k :: 0 <= k < |lines| ==> Fetch(lines, parse, run).commands[k] == LineCommand(lines[k], parse)
  {
    SequenceAllRun(Steps(lines, parse, run));
  }

  /** When `urlparse` first fails on line k, the lines before it are all
      audited, line k runs nothing, and ValueError leaves `get_reports`. */
  lemma FetchFirstFailure(lines: seq<string>, k: nat, parse: string -> Option<UrlParts>, run: string -> int)
    requires k < |lines| && parse(Strip(lines[k])).None?
    requires forall j :: 0 <= j < k ==> parse(Strip(lines[j])).Some?
    ensures Fetch(lines, parse, run).error == Some(ValueError)
    ensures |Fetch(lines, parse, run).commands| == k
    ensures forall j :: 0 <= j < k ==> Fetch(lines, parse, run).commands[j] == LineCommand(lines[j], parse)
  {
    var ss := Steps(lines, parse, run);
    forall j | 0 <= j <= k ensures ss[j] == Execute(Strip(lines[j]), parse, run) {
    }
    SequenceFirstFailure(ss, k);
  }

  /** Steps that run their command up to step k, where ValueError is
      raised: those commands are recorded and the loop ends with ValueError. */
  lemma SequenceFirstFailure(ss: seq<Step>, k: nat)
    requires k < |ss| && ss[k].raised == Some(ValueError) && ss[k].command.None?
    requires forall j :: 0 <= j < k ==> ss[j].command.Some? && ss[j].raised != Some(ValueError)
    ensures Sequence(ss).error == Some(ValueError)
    ensures |Sequence(ss).commands| == k
    ensures forall j :: 0 <= j < k ==> Sequence(ss).commands[j] == ss[j].command.value
  {
    var p := ss[..k];
    assert forall j :: 0 <= j < |p| ==> p[j] == ss[j];
    SequenceAllRun(p);
    SequenceNext(ss, k, Sequence(p).commands);
    SequenceStops(ss, k + 1);
  }

  /** A blank line is not skipped: `urlparse('')` has no host name and an
      empty path, so the audit writes "./reports/None--.json". */
  lemma BlankLineAudited(line: string, parse: string -> Option<UrlParts>)
    requires AllSpace(line)
    requires parse("") == Some(UrlParts(None, ""))
    ensures parse(Strip(line)).Some?
    ensures ReportPath(parse(Strip(line)).value) == "./reports/None--.json"
  {
    var i, j :| 0 <= i <= j <= |line| && Strip(line) == line[i..j] && AllSpace(line[..i]) && AllSpace(line[j..]);
    if i < j {
      assert IsSpace(line[i..j][0]) by {
        assert line[i..j][0] == line[i];
        assert line[..j][i] == line[i];
        assert IsSpace(line[i]);
      }
    }
    assert Strip(line) == "";
    NoHostPath();
  }

  /** The report path of a URL without host name and path. */
  lemma NoHostPath()
    ensures ReportPath(UrlParts(None, "")) == "./reports/None--.json"
  {
    var parts := UrlParts(None, "");
    assert ReportName(parts) == [];
    assert ReportFile(parts) == "None" + "--" + [] + ".json";
  }
}
