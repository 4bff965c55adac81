# Lighthouse report scorer, modelled in Dafny

`lighthouse.py` is a Python 2 script that audits a list of web pages with
Google Lighthouse and summarises the reports. The model covers its core:

- `execute_lighthouse` derives a report file name from a URL's host name
  and path. It runs one `lighthouse` shell command and raises `ShellError`
  when the exit status is not 0. `get_reports` does this for every
  stripped line of a URL file and moves on past a `ShellError`.
- `compute_score` turns one JSON report into an ordered record. The
  record holds `url` (the report's `finalUrl`), then `date` (the day
  part of `fetchTime`, when it is truthy), then one score per category,
  rounded to two decimals and keyed by the category `id`.
  `aggregate_reports` computes that record for every report, in order.
- `capture_network_requests` keeps the XHR entries of a report's
  `network-requests` audit. Each becomes a record of seven copied fields
  plus `totalTime`; a bare `except:` drops any entry that fails.
  `generated_network_report` names one CSV file per report with
  `report_filename.split('/')[2].replace('.json', '.csv')`.
- `byteify` converts every `unicode` string of a parsed JSON value,
  dictionary keys included, to its UTF-8 `str`.

Modules, one per file:

| module | file | what it holds |
|---|---|---|
| `PyValues` | `pyvalues.dfy` | Python 2 values: JSON data, `unicode` and `str`, Python's `==` on keys, truthiness, `dict.get`, and `d[k] = v` on a dict or `OrderedDict` |
| `Text` | `text.dfy` | `strip`, `replace`, `split` and `join` |
| `Utf8` | `utf8.dfy` | `encode('utf-8')` and a decoder that inverts it |
| `Timestamp` | `timestamp.dfy` | `strptime` with `'%Y-%m-%dT%H:%M:%S.%fZ'` and `strftime` with `'%Y-%m-%d'` |
| `ReportFetcher` | `report_fetcher.dfy` | `execute_lighthouse` and `get_reports` |
| `ScoreExtractor` | `score_extractor.dfy` | `compute_score` |
| `NetworkExtractor` | `network_extractor.dfy` | `capture_network_requests` |
| `Aggregator` | `aggregator.dfy` | `aggregate_reports`, the CSV file name, and `generated_network_report` |
| `Byteify` | `byteify.dfy` | `byteify` |

Modelling choices:

- Each loop of the script is a method with a `while` loop. Its
  `ensures` ties the result to a specification function: a fold over the
  per-item outcomes, in order. Lemmas about that function then state what
  the loop promises.
- Exceptions are values: every operation returns a `Result` or a record
  that names the exception which stopped it.
- Things outside the script are parameters. `urlparse` is
  `parse: string -> Option<UrlParts>`, where `None` means it raised
  ValueError. The shell is `run: string -> int`, giving the exit status of
  a command line. Opening a file and calling `json.load` on it is
  `load: string -> Result<Json>`.
- A dictionary is an association list in iteration order, and keys are
  compared with Python 2's `==`. A `unicode` key equals a `str` key exactly
  when the `str` is ASCII and has the same text; numbers and booleans
  compare by value. Storing under an equal key keeps the old key object
  and its place.
- The functions `execute_lighthouse`, `compute_score`, the body of the
  `generated_network_report` loop and the first statements of
  `compute_score` are sequences of statements that the script's loops
  call. Each is a method (`ExecuteLighthouse`, `ComputeScore`,
  `ExportNetworkRequests`, `ScoreHead`, `ComputeReportScore`) proved equal
  to the function the loop specifications and lemmas use, so that the
  loop methods call a procedure as the script does.

Blank lines are not skipped: `get_reports` strips every line and audits
it, so an empty line writes `./reports/None--.json` (lighthouse.py:48-51,
`ReportFetcher.BlankLineAudited`).

## Model

| member | source | states |
|---|---|---|
| `PyValues.Lookup` | lighthouse.py:82-83 | `d.get(k)` finds a value exactly when some key equals `k`, and then it is the value stored under such a key |
| `PyValues.SetShape` | lighthouse.py:92 | `d[k] = v` keeps every key in its place; the key equal to `k` takes `v` and every other key keeps its value; without such a key, `(k, v)` is appended |
| `PyValues.Set` | lighthouse.py:92 | storing into a dictionary keeps its keys pairwise different |
| `PyValues.SetKeepsKeys` | lighthouse.py:92 | storing never removes a key, and the stored key is then present |
| `PyValues.KeyEqSymmetric` | lighthouse.py:92 | Python's key equality is symmetric |
| `PyValues.KeyEqTransitive` | lighthouse.py:92 | Python's key equality is transitive |
| `PyValues.KeyEqReflexive` | lighthouse.py:92 | every hashable key equals itself |
| `Text.Strip` | lighthouse.py:51 | `strip()` returns a slice of the line with only whitespace cut on either side, and it neither starts nor ends with whitespace |
| `Text.Replace` | lighthouse.py:136 | `str.replace`, every occurrence scanned left to right; its behaviour is stated by the `Replace` lemmas below |
| `Text.ReplaceAbsent` | lighthouse.py:136 | `replace` leaves text without an occurrence of the pattern unchanged |
| `Text.ReplaceEnding` | lighthouse.py:136 | when the pattern occurs only as the ending, `replace` swaps that ending alone |
| `Text.ReplaceKeepsPrefix` | lighthouse.py:136 | a prefix without the pattern's first character is kept as it is |
| `Text.ReplaceTwice` | lighthouse.py:136 | two occurrences separated by text that cannot start one are both replaced |
| `Text.ReplaceAfterMismatch` | lighthouse.py:136 | a partial match does not hide an occurrence that follows it |
| `Text.ReplaceCharRemoves` | lighthouse.py:33 | replacing '/' by a text without '/' removes every '/' |
| `Text.ReplaceCharLength` | lighthouse.py:33 | each replaced character grows the text by the replacement's length minus one |
| `Text.ReplaceCharConcat` | lighthouse.py:33 | replacing a character distributes over concatenation |
| `Text.Split` | lighthouse.py:136 | `split` returns at least one piece, no piece holds the separator, and joining the pieces gives the text back |
| `Text.SplitJoin` | lighthouse.py:136 | splitting pieces that were joined, none holding the separator, gives the pieces back |
| `Utf8.DecodeEncode` | lighthouse.py:72-73 | decoding the UTF-8 bytes of a text gives the text back |
| `Utf8.EncodeInjective` | lighthouse.py:72-73 | two different texts never share an encoding |
| `Utf8.EncodeAscii` | lighthouse.py:72-73 | ASCII text encodes to the same bytes as the `str` literal with that text |
| `Utf8.AsciiEncoding` | lighthouse.py:72-73 | the encoding is ASCII only when the text is |
| `Timestamp.Matches` | lighthouse.py:85 | the layout `%Y-%m-%dT%H:%M:%S.%fZ` with zero-padded fields; `ParseRender` and `RenderParse` show it is exactly the layout of `Render`, up to the case of T and Z |
| `Timestamp.Parse` | lighthouse.py:85 | an accepted timestamp has every field in the range `datetime` allows |
| `Timestamp.FormatDate` | lighthouse.py:86 | formatting fails exactly for years before 1900, with ValueError; a formatted date has ten ASCII characters |
| `Timestamp.ParseRender` | lighthouse.py:85 | every valid date and time is parsed back from its rendering |
| `Timestamp.RenderParse` | lighthouse.py:85 | an accepted timestamp is the rendering of what was parsed, up to the case of T and Z |
| `Timestamp.DateIsPrefix` | lighthouse.py:85-86 | the stored date of an accepted timestamp from 1900 on is its first ten characters |
| `ReportFetcher.ReportNameFlat` | lighthouse.py:33 | the report name holds no '/', and each '/' of the path after its first character became two characters |
| `ReportFetcher.ReportPathSplits` | lighthouse.py:36 | a report path splits on '/' into ".", "reports" and the file name |
| `ReportFetcher.ReportNamesCollide` | lighthouse.py:33 | the paths `/x/y` and `/x--y` of one host share a report file (a single example of a quirk of the naming) |
| `ReportFetcher.ReportName` | lighthouse.py:33 | `o.path[1:].replace('/', '--')`; `ReportNameFlat` states its shape |
| `ReportFetcher.ReportPath` | lighthouse.py:36 | `./reports/{hostname}--{report_name}.json`; `ReportPathSplits`, `NoHostPath` and `ReportNamesCollide` state its properties |
| `ReportFetcher.Command` | lighthouse.py:35-40 | the shell command line; `Execute` states that it is the one run |
| `ReportFetcher.Execute` | lighthouse.py:31-43 | a URL `urlparse` rejects raises ValueError and runs nothing; otherwise the command with the derived output path is run, and the call raises ShellError when its status is not 0 and nothing when it is 0 |
| `ReportFetcher.ExecuteLighthouse` | lighthouse.py:31-43 | the procedure builds, runs and checks the command as `Execute` states |
| `ReportFetcher.GetReports` | lighthouse.py:46-53 | the loop runs the lines' commands in order, passes over ShellError, and stops at ValueError, as `Fetch` states |
| `ReportFetcher.Sequence` | lighthouse.py:49-53 | the loop of `get_reports` over the outcomes of its lines; `SequenceStops`, `SequenceAllRun` and `SequenceFirstFailure` state its behaviour |
| `ReportFetcher.Fetch` | lighthouse.py:46-53 | `get_reports` over the lines of the URL file; `FetchAllLines`, `FetchFirstFailure` and `BlankLineAudited` state its behaviour |
| `ReportFetcher.SequenceStops` | lighthouse.py:49-53 | after a ValueError no later line is read |
| `ReportFetcher.SequenceAllRun` | lighthouse.py:49-53 | when every step ran its command, all commands are recorded in order and the loop ends normally |
| `ReportFetcher.SequenceFirstFailure` | lighthouse.py:49-53 | the commands before the first ValueError are recorded, and that ValueError ends the loop |
| `ReportFetcher.FetchAllLines` | lighthouse.py:46-53 | when `urlparse` accepts every line, every line is audited in order, whatever the exit statuses, and `get_reports` returns normally |
| `ReportFetcher.FetchFirstFailure` | lighthouse.py:46-53 | when `urlparse` first fails on line k, lines 0..k-1 are audited, and ValueError leaves `get_reports` |
| `ReportFetcher.BlankLineAudited` | lighthouse.py:48-51 | a blank line is not skipped: it is audited into `./reports/None--.json` |
| `ReportFetcher.NoHostPath` | lighthouse.py:33-36 | a URL without host name and path is reported under `./reports/None--.json` |
| `ScoreExtractor.Round2Idempotent` | lighthouse.py:92 | rounding a rounded score changes nothing |
| `ScoreExtractor.Round2OfHundredths` | lighthouse.py:92 | every multiple of 0.01 is its own rounding |
| `ScoreExtractor.Round2Bounds` | lighthouse.py:92 | the rounded score is within 0.005 of the score, and a score in [0, 1] stays in [0, 1] |
| `ScoreExtractor.Round2` | lighthouse.py:92 | `round(x, 2)` on exact values; `Round2Bounds`, `Round2Idempotent` and `Round2OfHundredths` state its behaviour |
| `ScoreExtractor.DateField` | lighthouse.py:84-86 | a date is stored only for a string `fetchTime`, and it is a string |
| `ScoreExtractor.CategoryField` | lighthouse.py:90-92 | a category that yields a field has a hashable id |
| `ScoreExtractor.FieldsHashable` | lighthouse.py:92 | every field keys the record by a hashable id |
| `ScoreExtractor.AddFields` | lighthouse.py:89-92 | the category loop keeps the record's keys pairwise different |
| `ScoreExtractor.Head` | lighthouse.py:82-86 | the record before the category loop has pairwise different keys |
| `ScoreExtractor.ComputeScore` | lighthouse.py:78-93 | the procedure returns or raises what `Score` states |
| `ScoreExtractor.Score` | lighthouse.py:78-93 | what `compute_score` returns or raises; `ScoreUrlFirst`, `ScoreDate`, `ScoreDatePresent`, `ScoreKeyOrder`, `ScoreCategoriesFields`, `ScoreBadTimestamp` and `ScoreWithoutCategories` state it |
| `ScoreExtractor.CategoryFields` | lighthouse.py:88-92 | `for y in cont` over the value of `categories`: absent adds nothing, a dict runs the loop, an empty list or string adds nothing, anything else raises TypeError |
| `ScoreExtractor.ScoreHead` | lighthouse.py:79-86 | the statements storing `url` and `date` give the head record |
| `ScoreExtractor.ScoreCategories` | lighthouse.py:88-92 | the category loop stores each entry's rounded score under its id, in order, and stops at the first failing entry |
| `ScoreExtractor.AddFieldsStops` | lighthouse.py:89-92 | later entries cannot undo a failure |
| `ScoreExtractor.AddFieldsOkIff` | lighthouse.py:89-92 | the loop completes exactly when every entry yields an id and a score |
| `ScoreExtractor.AddFieldsKeepKeys` | lighthouse.py:89-92 | keys already in the record keep their places |
| `ScoreExtractor.LastScoreWitness` | lighthouse.py:90-92 | a score is found for a key only when some category id equals it |
| `ScoreExtractor.LastScoreFinds` | lighthouse.py:90-92 | every category id finds a score |
| `ScoreExtractor.LastScoreRespectsKeyEq` | lighthouse.py:92 | equal keys find the same score |
| `ScoreExtractor.AddFieldsAllPresent` | lighthouse.py:89-92 | every category id has a field in the record |
| `ScoreExtractor.AddFieldsOnlyIds` | lighthouse.py:89-92 | every field the loop adds is keyed by a category id |
| `ScoreExtractor.AddFieldsLastWins` | lighthouse.py:89-92 | a field keyed by a category id holds the rounded score of the last category with that id, and every other field keeps its value |
| `ScoreExtractor.NewIds` | lighthouse.py:89-92 | the distinct category ids in the order they first occur, leaving out ids equal to a key already in the record |
| `ScoreExtractor.AddFieldsKeyOrder` | lighthouse.py:89-92 | after the category loop the record's keys are the keys it had, followed by one key per distinct new category id in the order the ids first occur |
| `ScoreExtractor.LastScore` | lighthouse.py:90-92 | the score of the last category with a given id; `LastScoreWitness`, `LastScoreFinds` and `AddFieldsLastWins` tie it to the record |
| `ScoreExtractor.ScoreUrlFirst` | lighthouse.py:82-92 | the first key is `url`; its value is `finalUrl` (None when absent) unless a category with id 'url' overwrote it |
| `ScoreExtractor.HeadFields` | lighthouse.py:82-86 | the head record is `url` alone, or `url` then `date` holding the first ten characters of a truthy `fetchTime` |
| `ScoreExtractor.ScoreDate` | lighthouse.py:83-92 | with a truthy `fetchTime` the second key is `date`, holding the day part of the timestamp unless a category with id 'date' overwrote it |
| `ScoreExtractor.ScoreDatePresent` | lighthouse.py:83-92 | a `date` key is present exactly when `fetchTime` is truthy or some category has the id 'date' |
| `ScoreExtractor.ScoreBadTimestamp` | lighthouse.py:84-86 | a truthy `fetchTime` that is not a well-formed timestamp aborts `compute_score` with the exception `strptime` or `strftime` raises |
| `ScoreExtractor.ScoreWithoutCategories` | lighthouse.py:82-88 | without `categories` the record's keys are `url`, then `date` when `fetchTime` is truthy, and nothing else |
| `ScoreExtractor.ScoreKeyOrder` | lighthouse.py:82-92 | the record's keys are `url`, then `date` when `fetchTime` is truthy, then one key per distinct category id in the order the ids first occur, an id equal to 'url' or 'date' adding none |
| `ScoreExtractor.ScoreCategoriesFields` | lighthouse.py:88-92 | with a `categories` dict, a record is produced exactly when every entry is a dict with a hashable id and a numeric score; each id then maps to the rounded score of the last category with that id |
| `ScoreExtractor.AddFieldsLookup` | lighthouse.py:89-92 | looking up a category id in the finished record gives the last score for that id |
| `ScoreExtractor.LookupLastWins` | lighthouse.py:92 | in a record holding the last scores, looking up an id with a score finds that score |
| `NetworkExtractor.Chars` | lighthouse.py:113 | iterating a string yields one string per character |
| `NetworkExtractor.CharsOfString` | lighthouse.py:113 | the k-th item of a string's iteration is the one-character string of its k-th character, of the same string type |
| `NetworkExtractor.Iterate` | lighthouse.py:113 | `for x in v` fails exactly on None, numbers and booleans, and visits a list's elements |
| `NetworkExtractor.CopyFields` | lighthouse.py:117-123 | the copy succeeds exactly when every field is present, and then holds each field's value in order |
| `NetworkExtractor.CaptureNetworkRequests` | lighthouse.py:108-129 | the procedure returns or raises what `Capture` states: the records of the items that yield one, in order |
| `NetworkExtractor.Capture` | lighthouse.py:108-129 | what `capture_network_requests` returns or raises; `CaptureOrigins`, `CaptureMissingSection` and `CaptureItemsShape` state it |
| `NetworkExtractor.NetworkItems` | lighthouse.py:112 | the chain of four `.get` calls; `CaptureMissingSection` and `CaptureItemsShape` state its failures |
| `NetworkExtractor.RequestRecord` | lighthouse.py:115-126 | the record one item contributes inside the `try`; `RequestRecordIff`, `RecordKeysOf`, `RecordValues`, `RecordXhr` and `RecordTotal` state it |
| `NetworkExtractor.IsXhr` | lighthouse.py:116 | `'XHR' == x['resourceType']`, a missing key counting as false; `RequestRecordIff` uses it |
| `NetworkExtractor.RequestRecordIff` | lighthouse.py:113-128 | an item yields a record exactly when it is a dict with `resourceType` equal to 'XHR', holding all seven fields, whose end and start times are numbers |
| `NetworkExtractor.CopyThenTime` | lighthouse.py:117-124 | copying the fields and subtracting the times both succeed exactly when all fields are present and both times are numbers |
| `NetworkExtractor.RecordKeysOf` | lighthouse.py:117-124 | a record's keys are the seven copied fields and `totalTime`, in order |
| `NetworkExtractor.RecordValues` | lighthouse.py:117-123 | a record holds the item's values of the seven fields |
| `NetworkExtractor.RecordXhr` | lighthouse.py:116-123 | every record's `resourceType` equals 'XHR' |
| `NetworkExtractor.RecordTotal` | lighthouse.py:124 | a record's `totalTime` is its `endTime` minus its `startTime` |
| `NetworkExtractor.RecordKeysOfMake` | lighthouse.py:117-124 | any record built from seven values has the eight keys in order |
| `NetworkExtractor.Origins` | lighthouse.py:113-128 | the listed item indices are within the items |
| `NetworkExtractor.OriginsIncreasing` | lighthouse.py:113-128 | one record is kept per listed index, and the indices increase |
| `NetworkExtractor.KeptAtOrigins` | lighthouse.py:113-128 | the j-th record kept is the one the j-th listed item yields |
| `NetworkExtractor.OriginsComplete` | lighthouse.py:113-128 | exactly the items that yield a record are listed |
| `NetworkExtractor.CaptureOrigins` | lighthouse.py:108-129 | the captured records are exactly those the items yield, in the items' order |
| `NetworkExtractor.CaptureMissingSection` | lighthouse.py:112 | a report without a dict at `audits`, `network-requests` or `details` raises AttributeError |
| `NetworkExtractor.CaptureItemsShape` | lighthouse.py:112-113 | missing `items` raise TypeError; items held in a string or a dict yield no record |
| `NetworkExtractor.NothingKept` | lighthouse.py:127-128 | when no item yields a record, the result is empty |
| `Aggregator.AbortStops` | lighthouse.py:58-60 | after the first exception no later report is visited |
| `Aggregator.AbortAllOk` | lighthouse.py:58-60 | without exceptions every report's result is kept, in order |
| `Aggregator.AbortFirstError` | lighthouse.py:58-60 | the first exception is the one raised, and the results before it are kept |
| `Aggregator.ComputeReportScore` | lighthouse.py:78-81 | the score of a file is `compute_score` of its parsed content, or the exception loading it raised |
| `Aggregator.AggregateReports` | lighthouse.py:56-63 | the loop scores every report in order and stops at the first exception, as `Aggregate` states |
| `Aggregator.ReportScore` | lighthouse.py:78-81 | loading a report, then `compute_score`; `ComputeReportScore` is proved equal to it |
| `Aggregator.Aggregate` | lighthouse.py:56-63 | the rows of `aggregate_reports` or its exception; `AggregateRows` and `AggregateFirstError` state it |
| `Aggregator.AggregateRows` | lighthouse.py:56-63 | when every report can be scored, row k is the record of report k, one row per report |
| `Aggregator.AggregateFirstError` | lighthouse.py:56-63 | the first report that cannot be scored makes `aggregate_reports` raise its exception |
| `Aggregator.CsvName` | lighthouse.py:136 | the CSV name fails exactly when the path has fewer than three '/'-separated pieces, and then with IndexError |
| `Aggregator.CsvNameOfReport` | lighthouse.py:136 | a report written by `execute_lighthouse` gets its file name with '.json' replaced; when '.json' occurs only as the extension, the name ends in '.csv' instead |
| `Aggregator.CsvNamesCollide` | lighthouse.py:136 | the reports of the hosts `h.json` and `h.csv` get the same CSV name |
| `Aggregator.CsvNameOfFile` | lighthouse.py:136 | a file directly under `./reports/` gets its name with every '.json' replaced |
| `Aggregator.ReportFileSplits` | lighthouse.py:136 | a path `./reports/f` splits into ".", "reports" and `f` |
| `Aggregator.ExtensionReplaced` | lighthouse.py:136 | `.json--.json` becomes `.csv--.csv` (a single example, a step of `CsvNamesCollide`) |
| `Aggregator.CsvExtensionKept` | lighthouse.py:136 | `.csv--.json` becomes `.csv--.csv` (a single example, a step of `CsvNamesCollide`) |
| `Aggregator.ExportNetworkRequests` | lighthouse.py:134-136 | one report is captured, then its CSV file is named under the output path |
| `Aggregator.GeneratedNetworkReport` | lighthouse.py:132-136 | the loop writes one CSV file per report, in order, until the first exception, as `NetworkReport` states |
| `Aggregator.NetworkCsv` | lighthouse.py:133-136 | capture, then the CSV name, for one report; `NetworkReportFiles` states it |
| `Aggregator.NetworkReport` | lighthouse.py:132-136 | the files `generated_network_report` writes; `NetworkReportFiles` and `NetworkReportFirstError` state them |
| `Aggregator.NetworkReportFiles` | lighthouse.py:132-136 | when every report succeeds, file k is at the output path plus the CSV name of report k and holds that report's captured requests |
| `Aggregator.NetworkReportFirstError` | lighthouse.py:132-136 | the first report that fails stops the loop: the files before it are written and its exception is raised |
| `Byteify.Store` | lighthouse.py:68-69 | the rebuilt dictionary has pairwise different keys |
| `Byteify.SetConverted` | lighthouse.py:68-69 | storing a converted pair keeps a converted dictionary converted |
| `Byteify.ByteifyHashable` | lighthouse.py:68 | conversion keeps a key hashable |
| `Byteify.ByteifyConverts` | lighthouse.py:66-75 | nothing `byteify` returns holds a `unicode` string, and every dictionary in it has hashable, pairwise different keys |
| `Byteify.StoreConverted` | lighthouse.py:68-69 | storing converted pairs gives a converted dictionary |
| `Byteify.SetAppends` | lighthouse.py:68-69 | storing a key that is not present appends the pair |
| `Byteify.ByteifyKeepsConverted` | lighthouse.py:66-75 | `byteify` leaves a converted value unchanged |
| `Byteify.StoreDistinct` | lighthouse.py:68-69 | pairs with pairwise different keys are stored as they are |
| `Byteify.ByteifyIdempotent` | lighthouse.py:66-75 | applying `byteify` twice is the same as applying it once |
| `Byteify.Byteify` | lighthouse.py:66-75 | `byteify` itself; `ByteifyConverts`, `ByteifyIdempotent`, `ByteifyKeys`, `ByteifyLoadedDict`, `ByteifyText`, `ByteifyList`, `ByteifyScalar` and `ByteifyMergesKeys` state it |
| `Byteify.ByteifyList` | lighthouse.py:70-71 | a list keeps its length and order, each element converted (one case of the definition, spelled out) |
| `Byteify.ByteifyScalar` | lighthouse.py:74-75 | None, numbers, booleans and `str` come back unchanged (one case of the definition, spelled out) |
| `Byteify.ByteifyText` | lighthouse.py:72-73 | a `unicode` string becomes a `str` whose bytes decode back to it; the two compare equal exactly when the text is ASCII |
| `Byteify.StoreHasKeys` | lighthouse.py:68-69 | every stored key is present |
| `Byteify.StoreOnlyKeys` | lighthouse.py:68-69 | no key is present that was not stored |
| `Byteify.ByteifyKeys` | lighthouse.py:67-69 | the keys of a converted dictionary are the converted keys: each of them is present, and nothing else |
| `Byteify.ByteifyLoadedDict` | lighthouse.py:67-69 | a dictionary with `unicode` keys only keeps each pair, converted, in its place |
| `Byteify.UnicodeKeysStayApart` | lighthouse.py:68-73 | two different `unicode` keys stay different once encoded |
| `Byteify.ByteifyMergesKeys` | lighthouse.py:67-73 | a non-ASCII `unicode` key and the `str` of its encoding are different keys, but the converted dictionary has one pair, holding the later value |

## Left out

- I/O: opening the URL file and the reports, `readlines`, `json.load` and
  `subprocess.call` are the parameters `lines`, `load` and `run`. The
  model assumes each gives the same answer for the same input. `load`
  returns IOError for a report `open` cannot read and ValueError for one
  that is not JSON; an unreadable URL file is not modelled, because
  `get_reports` receives its lines.
- `urlparse` is the parameter `parse`. The model does not say how a URL is
  split into host name and path. It only needs that a host name holds no
  '/', which is a precondition of `ReportFetcher.ReportPathSplits` and
  `Aggregator.CsvNameOfReport`.
- `pandas` (`DataFrame`, `to_csv`, `read_csv`), `matplotlib` and
  `show_aggregated_reports` are left out. The model stops at the rows
  handed to the data frame and the path of each CSV file.
- `clean_ensure_dir` and the `__main__` block (argument handling, `glob`
  and the output directories) are file-system plumbing, so they are left
  out.
- Floating point: numbers are exact reals. `ScoreExtractor.Round2` rounds
  halves away from zero, as Python 2's `round` does for the exact value;
  binary floating point, where `round(0.285, 2)` gives `0.28`, is not
  modelled.
- Timestamp.Parse: it accepts only zero-padded fields, whereas `strptime`
  also accepts shorter month, day, hour, minute, second and fraction
  fields, which the model rejects with ValueError. Leap seconds and the
  locale are ignored.
- Python 2 dictionary iteration order: a JSON object keeps the order of
  its association list. `byteify` builds a plain `dict`, whose real order
  is given by hashes; the model keeps the insertion order.
- ScoreExtractor.CategoryFields: when `categories` is a non-empty list or
  string, the model raises TypeError. The script always fails there too,
  but for a list the exception is TypeError, IndexError or KeyError
  depending on the elements, and the model does not tell them apart.
- Utf8.Decode: it inverts `Encode`, but it is not a full validating UTF-8
  decoder. Lone surrogates, which `json.load` produces for an escape such
  as `\ud800` and `encode('utf-8')` encodes, cannot be represented: Dafny
  `char` values are Unicode scalar values.
- `byteify` is never called by the script; it is modelled as written.
