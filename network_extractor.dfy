/** `capture_network_requests` (lighthouse.py:108-129): the XHR entries of
    the `network-requests` audit of one report, each copied into an ordered
    record with its total time. */
module NetworkExtractor {
  import opened PyValues

  /** The item fields copied into a record, in the order they are stored. */
  const CopiedFields: seq<Name> :=
    ["url", "startTime", "endTime", "transferSize", "statusCode", "mimeType", "resourceType"]

  /** The keys of a record: the copied fields, then `totalTime`. */
  const RecordKeys: seq<Json> :=
    [Key("url"), Key("startTime"), Key("endTime"), Key("transferSize"),
     Key("statusCode"), Key("mimeType"), Key("resourceType"), Key("totalTime")]

  /** The other names `capture_network_requests` reads. */
  const AuditsName: Name := "audits"
  const NetworkRequestsName: Name := "network-requests"
  const DetailsName: Name := "details"
  const ItemsName: Name := "items"
  const ResourceTypeName: Name := "resourceType"
  const StartTimeName: Name := "startTime"
  const EndTimeName: Name := "endTime"
  const Xhr: Name := "XHR"

  /** `v.get(name)`: None for a missing key; anything but a dict (None
      included) has no `.get` and raises AttributeError. */
  function GetAttr(v: Json, name: Name): (r: Result<Json>)
    ensures r.Err? <==> !v.JObject?
    ensures r.Ok? ==> r.value == GetOr(v.entries, name, JNull)
  {
    if v.JObject? then Ok(GetOr(v.entries, name, JNull)) else Err(AttributeError)
  }

  /** `content_json.get('audits').get('network-requests').get('details').get('items')`. */
  function NetworkItems(doc: Json): Result<Json> {
    match GetAttr(doc, AuditsName)
    case Err(e) => Err(e)
    case Ok(audits) =>
      match GetAttr(audits, NetworkRequestsName)
      case Err(e) => Err(e)
      case Ok(requests) =>
        match GetAttr(requests, DetailsName)
        case Err(e) => Err(e)
        case Ok(details) => GetAttr(details, ItemsName)
  }

  /** The one-character strings of a string, of the same string type. */
  function Chars(s: PyStr): (cs: seq<Json>)
    ensures |cs| == |Text(s)|
    ensures forall k :: 0 <= k < |cs| ==> cs[k].JStr?
  {
    match s
    case Unicode(u) => seq(|u|, k requires 0 <= k < |u| => JStr(Unicode([u[k]])))
    case Bytes(b) => seq(|b|, k requires 0 <= k < |b| => JStr(Bytes([b[k]])))
  }

  /** The k-th item is the one-character string of the k-th character, of
      the same string type. */
  lemma CharsOfString(s: PyStr)
    ensures forall k :: 0 <= k < |Chars(s)| ==>
      Chars(s)[k].s.Unicode? == s.Unicode? && Text(Chars(s)[k].s) == [Text(s)[k]]
  {
  }

  /** What `for x in v` visits: a list's elements, a dict's keys, a string's
      characters; None, numbers and bools are not iterable. */
  function Iterate(v: Json): (r: Result<seq<Json>>)
    ensures r.Err? <==> v.JNull? || v.JBool? || v.JNum?
    ensures v.JList? ==> r == Ok(v.items)
  {
    match v
    case JList(xs) => Ok(xs)
    case JObject(es) => Ok(Keys(es))
    case JStr(s) => Ok(Chars(s))
    case _ => Err(TypeError)
  }

  /** The values of the copied fields, in order, or None when one is missing. */
  function CopyFields(item: Dict, names: seq<Name>): (r: Option<seq<Json>>)
    ensures r.Some? <==> forall n :: 0 <= n < |names| ==> HasKey(item, Key(names[n]))
    ensures r.Some? ==>
      && |r.value| == |names|
      && forall n :: 0 <= n < |names| ==> Get(item, names[n]) == Some(r.value[n])
    decreases |names|
  {
    if names == [] then Some([])
    else
      match Get(item, names[0])
      case None => None
      case Some(v) =>
        match CopyFields(item, names[1..])
        case None =>
          assert forall n :: 1 <= n < |names| ==> names[1..][n - 1] == names[n];
          None
        case Some(vs) =>
          assert forall n :: 1 <= n < |names| ==> names[1..][n - 1] == names[n];
          Some([v] + vs)
  }

  /** The record built from the seven copied values and the total time. */
  function MakeRecord(vs: seq<Json>, total: Json): (rec: Dict)
    requires |vs| == 7
    ensures |rec| == 8 && rec[7] == (RecordKeys[7], total)
    ensures forall k :: 0 <= k < 7 ==> rec[k] == (RecordKeys[k], vs[k])
  {
    seq(8, k requires 0 <= k < 8 => (RecordKeys[k], if k < 7 then vs[k] else total))
  }

  /** The record one item contributes. The bare `except:` swallows every
      error inside the `try`: an item that is not a dict, a missing field,
      or a `startTime`/`endTime` that cannot be subtracted drops the item;
      so does a `resourceType` other than 'XHR', which leaves the record
      empty. */
  function RequestRecord(x: Json): Option<Dict> {
    if !x.JObject? || !IsXhr(x.entries) then None
    else
      match CopyFields(x.entries, CopiedFields)
      case None => None
      case Some(vs) => TimedRecord(vs)
  }

  /** `'XHR' == x['resourceType']`, a missing key counting as false. */
  predicate IsXhr(item: Dict) {
    match Get(item, ResourceTypeName)
    case None => false
    case Some(kind) => IsLiteral(kind, Xhr)
  }

  /** The record of the copied values, once `endTime - startTime` succeeds. */
  function TimedRecord(vs: seq<Json>): (r: Option<Dict>)
    requires |vs| == 7
    ensures r.Some? <==> AsNumber(vs[2]).Some? && AsNumber(vs[1]).Some?
    ensures r.Some? ==> r.value == MakeRecord(vs, JNum(AsNumber(vs[2]).value - AsNumber(vs[1]).value))
  {
    var end, start := AsNumber(vs[2]), AsNumber(vs[1]);
    if end.Some? && start.Some? then Some(MakeRecord(vs, JNum(end.value - start.value))) else None
  }

  /** What each item contributes, in order. */
  function Outcomes(items: seq<Json>): (os: seq<Option<Dict>>)
    ensures |os| == |items|
    ensures forall k {:trigger os[k]} :: 0 <= k < |items| ==> os[k] == RequestRecord(items[k])
  {
    seq(|items|, k requires 0 <= k < |items| => RequestRecord(items[k]))
  }

  /** The records kept by the loop after it has seen the outcomes `os`. */
  function Kept(os: seq<Option<Dict>>): seq<Dict>
    decreases |os|
  {
    if os == [] then []
    else
      var prev := Kept(os[..|os| - 1]);
      match os[|os| - 1]
      case None => prev
      case Some(rec) => prev + [rec]
  }

  /** What `capture_network_requests` returns or raises for a parsed report. */
  function Capture(doc: Json): Result<seq<Dict>> {
    match NetworkItems(doc)
    case Err(e) => Err(e)
    case Ok(list) =>
      match Iterate(list)
      case Err(e) => Err(e)
      case Ok(items) => Ok(Kept(Outcomes(items)))
  }

  /** `capture_network_requests` on an already parsed report. */
  method CaptureNetworkRequests(doc: Json) returns (r: Result<seq<Dict>>)
    ensures r == Capture(doc)
  {
    var listNetwork := NetworkItems(doc);
    if listNetwork.Err? {
      return Err(listNetwork.error);
    }
    var items := Iterate(listNetwork.value);
    if items.Err? {
      return Err(items.error);
    }
    var xs := items.value;
    ghost var os := Outcomes(xs);
    var networkReqs: seq<Dict> := [];
    var i := 0;
    while i < |xs|
      invariant 0 <= i <= |xs|
      invariant networkReqs == Kept(os[..i])
    {
      assert os[..i + 1][..i] == os[..i];
      var networkReq := RequestRecord(xs[i]);
      if networkReq.Some? {
        networkReqs := networkReqs + [networkReq.value];
      }
      i := i + 1;
    }
    assert os[..i] == os;
    return Ok(networkReqs);
  }

  /** An item yields a record exactly when it is a dict whose `resourceType`
      equals 'XHR', which holds all seven copied fields, and whose `endTime`
      and `startTime` are numbers. */
  lemma RequestRecordIff(x: Json)
    ensures RequestRecord(x).Some? <==>
      && x.JObject?
      && (forall n :: 0 <= n < |CopiedFields| ==> HasKey(x.entries, Key(CopiedFields[n])))
      && IsLiteral(GetOr(x.entries, ResourceTypeName, JNull), Xhr)
      && AsNumber(GetOr(x.entries, EndTimeName, JNull)).Some?
      && AsNumber(GetOr(x.entries, StartTimeName, JNull)).Some?
  {
    if x.JObject? {
      assert CopiedFields[1] == StartTimeName && CopiedFields[2] == EndTimeName;
      CopyThenTime(x.entries, CopiedFields);
    }
  }

  /** Copying the seven fields and subtracting the times both succeed
      exactly when every field is present and both times are numbers. */
  lemma CopyThenTime(item: Dict, names: seq<Name>)
    requires |names| == 7 && names[1] == StartTimeName && names[2] == EndTimeName
    ensures (CopyFields(item, names).Some? && TimedRecord(CopyFields(item, names).value).Some?) <==>
      && (forall n :: 0 <= n < |names| ==> HasKey(item, Key(names[n])))
      && AsNumber(GetOr(item, EndTimeName, JNull)).Some?
      && AsNumber(GetOr(item, StartTimeName, JNull)).Some?
  {
    if forall n :: 0 <= n < |names| ==> HasKey(item, Key(names[n])) {
      var vs := CopyFields(item, names).value;
      assert Get(item, names[1]) == Some(vs[1]);
      assert Get(item, names[2]) == Some(vs[2]);
    }
  }

  /** A record holds the eight keys in order. */
  lemma RecordKeysOf(x: Json)
    requires RequestRecord(x).Some?
    ensures Keys(RequestRecord(x).value) == RecordKeys
  {
    RequestRecordParts(x);
    var vs := CopyFields(x.entries, CopiedFields).value;
    RecordKeysOfMake(vs, JNum(AsNumber(vs[2]).value - AsNumber(vs[1]).value));
  }

  /** A record holds the seven copied values as found in the item. */
  lemma RecordValues(x: Json)
    requires RequestRecord(x).Some?
    ensures x.JObject?
    ensures var rec := RequestRecord(x).value;
      forall n :: 0 <= n < |CopiedFields| ==> Get(x.entries, CopiedFields[n]) == Some(rec[n].1)
  {
    RequestRecordParts(x);
  }

  /** A record's `resourceType` equals 'XHR'. */
  lemma RecordXhr(x: Json)
    requires RequestRecord(x).Some?
    ensures IsLiteral(RequestRecord(x).value[6].1, Xhr)
  {
    RequestRecordParts(x);
    var vs := CopyFields(x.entries, CopiedFields).value;
    assert Get(x.entries, CopiedFields[6]) == Some(vs[6]);
    assert CopiedFields[6] == "resourceType";
  }

  /** A record's `totalTime` is its end time minus its start time. */
  lemma RecordTotal(x: Json)
    requires RequestRecord(x).Some?
    ensures var rec := RequestRecord(x).value;
      rec[7].1 == JNum(AsNumber(rec[2].1).value - AsNumber(rec[1].1).value)
  {
    RequestRecordParts(x);
  }

  /** The keys of a record built from any seven values. */
  lemma RecordKeysOfMake(vs: seq<Json>, total: Json)
    requires |vs| == 7
    ensures Keys(MakeRecord(vs, total)) == RecordKeys
  {
    var rec := MakeRecord(vs, total);
    assert |RecordKeys| == 8;
    assert forall n :: 0 <= n < 8 ==> Keys(rec)[n] == RecordKeys[n];
  }

  /** How a record came about: an XHR item whose fields were all copied. */
  lemma RequestRecordParts(x: Json)
    requires RequestRecord(x).Some?
    ensures x.JObject? && IsXhr(x.entries)
    ensures CopyFields(x.entries, CopiedFields).Some?
    ensures RequestRecord(x) == TimedRecord(CopyFields(x.entries, CopiedFields).value)
  {
  }

  /** The indices of the items that yield a record, in increasing order. */
  function Origins(os: seq<Option<Dict>>): (idx: seq<nat>)
    ensures forall j :: 0 <= j < |idx| ==> idx[j] < |os|
    decreases |os|
  {
    if os == [] then []
    else
      var prev := Origins(os[..|os| - 1]);
      if os[|os| - 1].Some? then prev + [|os| - 1] else prev
  }

  /** One record is kept per index listed, in increasing index order. */
  lemma {:induction false} OriginsIncreasing(os: seq<Option<Dict>>)
    ensures |Kept(os)| == |Origins(os)|
    ensures forall j, j' :: 0 <= j < j' < |Origins(os)| ==> Origins(os)[j] < Origins(os)[j']
    decreases |os|
  {
    if os != [] {
      OriginsIncreasing(os[..|os| - 1]);
    }
  }

  /** The record kept at position j is the one of the item listed at j. */
  lemma {:induction false} KeptAtOrigins(os: seq<Option<Dict>>)
    ensures |Kept(os)| == |Origins(os)|
    ensures forall j :: 0 <= j < |Origins(os)| ==> os[Origins(os)[j]] == Some(Kept(os)[j])
    decreases |os|
  {
    OriginsIncreasing(os);
    if os != [] {
      var p := os[..|os| - 1];
      KeptAtOrigins(p);
      forall j | 0 <= j < |Origins(os)| ensures os[Origins(os)[j]] == Some(Kept(os)[j]) {
        if j < |Origins(p)| {
          assert Origins(os)[j] == Origins(p)[j] && Kept(os)[j] == Kept(p)[j];
          assert p[Origins(p)[j]] == os[Origins(p)[j]];
        }
      }
    }
  }

  /** Exactly the items that yield a record are listed. */
  lemma {:induction false} OriginsComplete(os: seq<Option<Dict>>)
    ensures forall k :: 0 <= k < |os| ==> (k in Origins(os) <==> os[k].Some?)
    decreases |os|
  {
    if os != [] {
      var p := os[..|os| - 1];
      OriginsComplete(p);
      forall k | 0 <= k < |os| ensures k in Origins(os) <==> os[k].Some? {
        if k < |p| {
          assert p[k] == os[k];
        }
      }
    }
  }

  /** For a report that gets as far as the loop, the captured records are
      those of the items that yield one, in their original order. */
  lemma CaptureOrigins(doc: Json)
    requires Capture(doc).Ok?
    ensures var items := Iterate(NetworkItems(doc).value).value;
      var idx := Origins(Outcomes(items));
      var out := Capture(doc).value;
      && |out| == |idx|
      && (forall j, j' :: 0 <= j < j' < |idx| ==> idx[j] < idx[j'])
      && (forall j :: 0 <= j < |idx| ==> RequestRecord(items[idx[j]]) == Some(out[j]))
      && (forall k :: 0 <= k < |items| ==> (k in idx <==> RequestRecord(items[k]).Some?))
  {
    var os := Outcomes(Iterate(NetworkItems(doc).value).value);
    OriginsIncreasing(os);
    KeptAtOrigins(os);
    OriginsComplete(os);
  }

  /** A report whose `audits`, `network-requests` or `details` is missing
      or not a dict raises AttributeError, and so does a report that is
      not a dict. */
  lemma CaptureMissingSection(doc: Json)
    requires
      || !doc.JObject?
      || !GetOr(doc.entries, AuditsName, JNull).JObject?
      || !GetOr(GetOr(doc.entries, AuditsName, JNull).entries, NetworkRequestsName, JNull).JObject?
      || !GetOr(GetOr(GetOr(doc.entries, AuditsName, JNull).entries, NetworkRequestsName, JNull).entries, DetailsName, JNull).JObject?
    ensures Capture(doc) == Err(AttributeError)
  {
  }

  /** Missing `items` (None) raise TypeError; items held in a dict or a
      string are keys or characters, never dicts, so nothing is captured. */
  lemma CaptureItemsShape(doc: Json)
    requires NetworkItems(doc).Ok?
    ensures NetworkItems(doc).value.JNull? ==> Capture(doc) == Err(TypeError)
    ensures var v := NetworkItems(doc).value;
      (v.JStr? || (v.JObject? && forall i :: 0 <= i < |v.entries| ==> Hashable(v.entries[i].0))) ==> Capture(doc) == Ok([])
  {
    var v := NetworkItems(doc).value;
    if v.JStr? || (v.JObject? && forall i :: 0 <= i < |v.entries| ==> Hashable(v.entries[i].0)) {
      var os := Outcomes(Iterate(v).value);
      assert forall k :: 0 <= k < |os| ==> os[k].None?;
      NothingKept(os);
    }
  }

  lemma {:induction false} NothingKept(os: seq<Option<Dict>>)
    requires forall k :: 0 <= k < |os| ==> os[k].None?
    ensures Kept(os) == []
    decreases |os|
  {
    if os != [] {
      NothingKept(os[..|os| - 1]);
    }
  }
}
