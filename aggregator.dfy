/** `aggregate_reports` and `generated_network_report` (lighthouse.py:56-63,
    132-136): both visit report files in order and stop at the first
    exception. `load` stands for opening a file and `json.load`-ing it,
    which gives the parsed document or the exception raised. */
module Aggregator {
  import opened PyValues
  import opened Text
  import ScoreExtractor
  import NetworkExtractor
  import ReportFetcher

  /** What a loop that stops at its first exception has done: the results
      of the items before it, and the exception, if any. */
  datatype Progress<T> = Progress(done: seq<T>, error: Option<Error>)

  /** A loop over per-item outcomes that stops at the first exception. */
  function Abort<T>(rs: seq<Result<T>>): Progress<T>
    decreases |rs|
  {
    if rs == [] then Progress([], None)
    else
      var prev := Abort(rs[..|rs| - 1]);
      if prev.error.Some? then prev
      else
        match rs[|rs| - 1]
        case Err(e) => Progress(prev.done, Some(e))
        case Ok(x) => Progress(prev.done + [x], None)
  }

  /** One more item of such a loop. */
  lemma AbortNext<T>(rs: seq<Result<T>>, i: nat, done: seq<T>)
    requires i < |rs| && Abort(rs[..i]) == Progress(done, None)
    ensures Abort(rs[..i + 1]) == match rs[i]
                                  case Err(e) => Progress(done, Some(e))
                                  case Ok(x) => Progress(done + [x], None)
  {
    assert rs[..i + 1][..i] == rs[..i];
  }

  /** After the first exception, later items are not visited. */
  lemma {:induction false} AbortStops<T>(rs: seq<Result<T>>, n: nat)
    requires n <= |rs| && Abort(rs[..n]).error.Some?
    ensures Abort(rs) == Abort(rs[..n])
    decreases |rs| - n
  {
    if n < |rs| {
      var p := rs[..|rs| - 1];
      assert p[..n] == rs[..n];
      AbortStops(p, n);
    } else {
      assert rs[..n] == rs;
    }
  }

  /** Without exceptions every item is visited and its result kept, in order. */
  lemma {:induction false} AbortAllOk<T>(rs: seq<Result<T>>)
    requires forall k :: 0 <= k < |rs| ==> rs[k].Ok?
    ensures Abort(rs).error.None?
    ensures |Abort(rs).done| == |rs|
    ensures forall k :: 0 <= k < |rs| ==> Abort(rs).done[k] == rs[k].value
    decreases |rs|
  {
    if rs != [] {
      var p := rs[..|rs| - 1];
      assert forall k :: 0 <= k < |p| ==> p[k] == rs[k];
      AbortAllOk(p);
    }
  }

  /** The first exception is the one the loop raises, and the results of
      the items before it are kept. */
  lemma AbortFirstError<T>(rs: seq<Result<T>>, k: nat)
    requires k < |rs| && rs[k].Err?
    requires forall j :: 0 <= j < k ==> rs[j].Ok?
    ensures Abort(rs).error == Some(rs[k].error)
    ensures |Abort(rs).done| == k
    ensures forall j :: 0 <= j < k ==> Abort(rs).done[j] == rs[j].value
  {
    var p := rs[..k];
    assert forall j :: 0 <= j < |p| ==> p[j] == rs[j];
    AbortAllOk(p);
    AbortNext(rs, k, Abort(p).done);
    AbortStops(rs, k + 1);
  }

  /** `compute_score(report_filename)`: the record of one report file. */
  function ReportScore(file: string, load: string -> Result<Json>): Result<Dict> {
    match load(file)
    case Err(e) => Err(e)
    case Ok(doc) => ScoreExtractor.Score(doc)
  }

  /** The record of each report file, in order. */
  function Scores(files: seq<string>, load: string -> Result<Json>): (rs: seq<Result<Dict>>)
    ensures |rs| == |files|
    ensures forall k {:trigger rs[k]} :: 0 <= k < |files| ==> rs[k] == ReportScore(files[k], load)
  {
    seq(|files|, k requires 0 <= k < |files| => ReportScore(files[k], load))
  }

  /** The rows `aggregate_reports` hands to the data frame, or the first
      exception of `compute_score`. */
  function Aggregate(files: seq<string>, load: string -> Result<Json>): Result<seq<Dict>> {
    var p := Abort(Scores(files, load));
    if p.error.Some? then Err(p.error.value) else Ok(p.done)
  }

  /** `compute_score` on a report file. */
  method ComputeReportScore(file: string, load: string -> Result<Json>) returns (r: Result<Dict>)
    ensures r == ReportScore(file, load)
  {
    var doc := load(file);
    if doc.Err? {
      return Err(doc.error);
    }
    r := ScoreExtractor.ComputeScore(doc.value);
  }

  /** `aggregate_reports`: the score of each report, in order. */
  method AggregateReports(files: seq<string>, load: string -> Result<Json>) returns (r: Result<seq<Dict>>)
    ensures r == Aggregate(files, load)
  {
    ghost var rs := Scores(files, load);
    var scores: seq<Dict> := [];
    var i := 0;
    while i < |files|
      invariant 0 <= i <= |files|
      invariant Abort(rs[..i]) == Progress(scores, None)
    {
      var score := ComputeReportScore(files[i], load);
      assert rs[i] == score;
      AbortNext(rs, i, scores);
      if score.Err? {
        AbortStops(rs, i + 1);
        return Err(score.error);
      }
      scores := scores + [score.value];
      i := i + 1;
    }
    assert rs[..i] == rs;
    return Ok(scores);
  }

  /** One row per report file, in the order of the files, each the record
      of that report, when every report can be scored. */
  lemma AggregateRows(files: seq<string>, load: string -> Result<Json>)
    requires forall k :: 0 <= k < |files| ==> ReportScore(files[k], load).Ok?
    ensures Aggregate(files, load).Ok?
    ensures |Aggregate(files, load).value| == |files|
    ensures forall k :: 0 <= k < |files| ==> Aggregate(files, load).value[k] == ReportScore(files[k], load).value
  {
    var rs := Scores(files, load);
    assert forall k :: 0 <= k < |files| ==> rs[k] == ReportScore(files[k], load);
    AbortAllOk(rs);
  }

  /** A report that cannot be scored makes `aggregate_reports` raise the
      exception of the first such report, and no CSV file is written. */
  lemma AggregateFirstError(files: seq<string>, load: string -> Result<Json>, k: nat)
    requires k < |files| && ReportScore(files[k], load).Err?
    requires forall j :: 0 <= j < k ==> ReportScore(files[j], load).Ok?
    ensures Aggregate(files, load) == Err(ReportScore(files[k], load).error)
  {
    var rs := Scores(files, load);
    assert forall j :: 0 <= j <= k ==> rs[j] == ReportScore(files[j], load);
    AbortFirstError(rs, k);
  }

  /** `report_filename.split('/')[2].replace('.json', '.csv')`: the third
      '/'-separated piece of the report path with every '.json' in it
      replaced; a path with fewer than two '/' raises IndexError. */
  function CsvName(file: string): (r: Result<string>)
    ensures r.Err? <==> |Split(file, '/')| < 3
    ensures r.Err? ==> r.error == IndexError
  {
    var parts := Split(file, '/');
    if |parts| < 3 then Err(IndexError) else Ok(Replace(parts[2], ".json", ".csv"))
  }

  /** A report written by `execute_lighthouse` gets the CSV name of its
      file name; when '.json' occurs in that name only as its extension,
      the CSV name is the same name with the extension '.csv'. */
  lemma CsvNameOfReport(parts: ReportFetcher.UrlParts)
    requires '/' !in ReportFetcher.HostText(parts.hostname)
    ensures CsvName(ReportFetcher.ReportPath(parts)) == Ok(Replace(ReportFetcher.ReportFile(parts), ".json", ".csv"))
    ensures var stem := ReportFetcher.HostText(parts.hostname) + "--" + ReportFetcher.ReportName(parts);
      (forall i :: 0 <= i < |stem| ==> !OccursAt(stem + ".json", ".json", i)) ==>
        CsvName(ReportFetcher.ReportPath(parts)) == Ok(stem + ".csv")
  {
    ReportFetcher.ReportPathSplits(parts);
    var stem := ReportFetcher.HostText(parts.hostname) + "--" + ReportFetcher.ReportName(parts);
    if forall i :: 0 <= i < |stem| ==> !OccursAt(stem + ".json", ".json", i) {
      ReplaceEnding(stem, ".json", ".csv");
    }
  }

  /** Every '.json' is replaced, not only the extension: the reports of the
      hosts `h.json` and `h.csv` share one CSV file. */
  lemma CsvNamesCollide(h: string)
    requires '.' !in h && '/' !in h
    ensures CsvName("./reports/" + (h + ".json--.json")) == Ok(h + ".csv--.csv")
    ensures CsvName("./reports/" + (h + ".csv--.json")) == Ok(h + ".csv--.csv")
  {
    var pat, rep := ".json", ".csv";
    CsvNameOfFile(h + ".json--.json");
    CsvNameOfFile(h + ".csv--.json");
    ReplaceKeepsPrefix(h, ".json--.json", pat, rep);
    ReplaceKeepsPrefix(h, ".csv--.json", pat, rep);
    ExtensionReplaced();
    CsvExtensionKept();
  }

  /** The CSV name of a report file under './reports/'. */
  lemma CsvNameOfFile(f: string)
    requires '/' !in f
    ensures CsvName("./reports/" + f) == Ok(Replace(f, ".json", ".csv"))
  {
    ReportFileSplits(f);
  }

  lemma ReportFileSplits(f: string)
    requires '/' !in f
    ensures Split("./reports/" + f, '/') == [".", "reports", f]
  {
    var pieces := [".", "reports", f];
    assert pieces[1..] == ["reports", f] && pieces[1..][1..] == [f];
    assert Join(pieces[1..][1..], '/') == f;
    assert Join(pieces[1..], '/') == "reports" + ['/'] + f;
    assert Join(pieces, '/') == "." + ['/'] + ("reports" + ['/'] + f);
    assert Join(pieces, '/') == "./reports/" + f;
    SplitJoin(pieces, '/');
  }

  lemma ExtensionReplaced()
    ensures Replace(".json--.json", ".json", ".csv") == ".csv--.csv"
  {
    ReplaceTwice(".json", "--", ".csv");
    assert ".json" + "--" + ".json" == ".json--.json";
    assert ".csv" + "--" + ".csv" == ".csv--.csv";
  }

  lemma CsvExtensionKept()
    ensures Replace(".csv--.json", ".json", ".csv") == ".csv--.csv"
  {
    ReplaceAfterMismatch('.', "csv--", ".json", ".csv");
    assert ['.'] + "csv--" + ".json" == ".csv--.json";
    assert ['.'] + "csv--" + ".csv" == ".csv--.csv";
  }

  /** A CSV file `generated_network_report` writes: its path and its rows. */
  datatype Written = Written(path: string, rows: seq<Dict>)

  /** What `generated_network_report` does for one report file: capture the
      requests, then name the CSV file; a file name without two '/' fails
      only after the capture. */
  function NetworkCsv(file: string, load: string -> Result<Json>, outputPath: string): Result<Written> {
    match load(file)
    case Err(e) => Err(e)
    case Ok(doc) =>
      match NetworkExtractor.Capture(doc)
      case Err(e) => Err(e)
      case Ok(rows) =>
        match CsvName(file)
        case Err(e) => Err(e)
        case Ok(name) => Ok(Written(outputPath + "/" + name, rows))
  }

  /** The CSV file of each report file, in order. */
  function NetworkCsvs(files: seq<string>, load: string -> Result<Json>, outputPath: string): (ws: seq<Result<Written>>)
    ensures |ws| == |files|
    ensures forall k {:trigger ws[k]} :: 0 <= k < |files| ==> ws[k] == NetworkCsv(files[k], load, outputPath)
  {
    seq(|files|, k requires 0 <= k < |files| => NetworkCsv(files[k], load, outputPath))
  }

  /** The files `generated_network_report` writes, in order, and the
      exception that stops it, if any. */
  function NetworkReport(files: seq<string>, load: string -> Result<Json>, outputPath: string): Progress<Written> {
    Abort(NetworkCsvs(files, load, outputPath))
  }

  /** The body of the `generated_network_report` loop for one file. */
  method ExportNetworkRequests(file: string, load: string -> Result<Json>, outputPath: string) returns (r: Result<Written>)
    ensures r == NetworkCsv(file, load, outputPath)
  {
    var doc := load(file);
    if doc.Err? {
      return Err(doc.error);
    }
    var networkReq := NetworkExtractor.CaptureNetworkRequests(doc.value);
    if networkReq.Err? {
      return Err(networkReq.error);
    }
    var name := CsvName(file);
    if name.Err? {
      return Err(name.error);
    }
    return Ok(Written(outputPath + "/" + name.value, networkReq.value));
  }

  /** `generated_network_report`: one CSV file per report, written in order
      until the first exception. */
  method GeneratedNetworkReport(files: seq<string>, load: string -> Result<Json>, outputPath: string) returns (r: Progress<Written>)
    ensures r == NetworkReport(files, load, outputPath)
  {
    ghost var ws := NetworkCsvs(files, load, outputPath);
    var written: seq<Written> := [];
    var i := 0;
    while i < |files|
      invariant 0 <= i <= |files|
      invariant Abort(ws[..i]) == Progress(written, None)
    {
      var w := ExportNetworkRequests(files[i], load, outputPath);
      assert ws[i] == w;
      AbortNext(ws, i, written);
      if w.Err? {
        AbortStops(ws, i + 1);
        return Progress(written, Some(w.error));
      }
      written := written + [w.value];
      i := i + 1;
    }
    assert ws[..i] == ws;
    return Progress(written, None);
  }

  /** When every report is captured and named, the k-th file written is the
      CSV of the k-th report, under the output directory, holding its
      captured requests. */
  lemma NetworkReportFiles(files: seq<string>, load: string -> Result<Json>, outputPath: string)
    requires forall k :: 0 <= k < |files| ==> NetworkCsv(files[k], load, outputPath).Ok?
    ensures NetworkReport(files, load, outputPath).error.None?
    ensures |NetworkReport(files, load, outputPath).done| == |files|
    ensures forall k :: 0 <= k < |files| ==>
      && load(files[k]).Ok?
      && NetworkExtractor.Capture(load(files[k]).value).Ok?
      && CsvName(files[k]).Ok?
      && NetworkReport(files, load, outputPath).done[k]
         == Written(outputPath + "/" + CsvName(files[k]).value, NetworkExtractor.Capture(load(files[k]).value).value)
  {
    var ws := NetworkCsvs(files, load, outputPath);
    assert forall k :: 0 <= k < |files| ==> ws[k] == NetworkCsv(files[k], load, outputPath);
    AbortAllOk(ws);
  }

  /** The first report that fails stops the loop: the files before it are
      written and its exception is raised. */
  lemma NetworkReportFirstError(files: seq<string>, load: string -> Result<Json>, outputPath: string, k: nat)
    requires k < |files| && NetworkCsv(files[k], load, outputPath).Err?
    requires forall j :: 0 <= j < k ==> NetworkCsv(files[j], load, outputPath).Ok?
    ensures NetworkReport(files, load, outputPath).error == Some(NetworkCsv(files[k], load, outputPath).error)
    ensures NetworkReport(files, load, outputPath).done
      == seq(k, j requires 0 <= j < k => NetworkCsv(files[j], load, outputPath).value)
  {
    var ws := NetworkCsvs(files, load, outputPath);
    assert forall j :: 0 <= j <= k ==> ws[j] == NetworkCsv(files[j], load, outputPath);
    AbortFirstError(ws, k);
  }
}
