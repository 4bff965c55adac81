/** `compute_score` (lighthouse.py:78-93): one report document becomes an
    ordered record holding `url`, optionally `date`, then one rounded score
    per category, keyed by the category's `id`. */
module ScoreExtractor {
  import opened PyValues
  import Timestamp

  /** The key names `compute_score` reads and writes. */
  const UrlName: Name := "url"
  const DateName: Name := "date"
  const FinalUrlName: Name := "finalUrl"
  const FetchTimeName: Name := "fetchTime"
  const CategoriesName: Name := "categories"
  const IdName: Name := "id"
  const ScoreName: Name := "score"

  const UrlKey: Json := Key(UrlName)
  const DateKey: Json := Key(DateName)

  /** `round(x, 2)` on an exact value: the nearest multiple of 0.01, halves
      rounded away from zero. */
  function Round2(x: real): real {
    if x >= 0.0 then ((x * 100.0 + 0.5).Floor as real) / 100.0
    else -((((-x) * 100.0 + 0.5).Floor as real) / 100.0)
  }

  /** Rounding a rounded score changes nothing. */
  lemma Round2Idempotent(x: real)
    ensures Round2(Round2(x)) == Round2(x)
  {
    if x >= 0.0 {
      var k := (x * 100.0 + 0.5).Floor;
      Round2OfHundredths(k);
    } else {
      var k := ((-x) * 100.0 + 0.5).Floor;
      Round2OfHundredths(-k);
    }
  }

  /** A multiple of 0.01 is its own rounding. */
  lemma Round2OfHundredths(k: int)
    ensures Round2(k as real / 100.0) == k as real / 100.0
  {
    var y := k as real / 100.0;
    if k >= 0 {
      calc {
        y * 100.0 + 0.5;
        { HundredthsScale(k); }
        k as real + 0.5;
      }
      FloorHalf(k);
    } else {
      calc {
        (-y) * 100.0 + 0.5;
        { HundredthsScale(-k); }
        (-k) as real + 0.5;
      }
      FloorHalf(-k);
    }
  }

  lemma FloorHalf(k: int)
    ensures (k as real + 0.5).Floor == k
  {
  }

  lemma HundredthsScale(k: int)
    ensures (k as real / 100.0) * 100.0 == k as real
    ensures -(k as real / 100.0) == (-k) as real / 100.0
  {
  }

  /** The rounded score is within half a hundredth of the score, and a
      score in [0, 1] stays in [0, 1]. */
  lemma Round2Bounds(x: real)
    ensures -0.005 <= Round2(x) - x <= 0.005
    ensures 0.0 <= x <= 1.0 ==> 0.0 <= Round2(x) <= 1.0
  {
  }

  /** The value `compute_score` stores under `date` for a truthy
      `fetchTime`, or the exception `strptime`/`strftime` raises. */
  function DateField(fetch: Json): (r: Result<Json>)
    ensures r.Ok? ==> r.value.JStr? && fetch.JStr?
  {
    if !fetch.JStr? then Err(TypeError)
    else
      match Timestamp.Parse(Text(fetch.s))
      case Err(e) => Err(e)
      case Ok(t) =>
        match Timestamp.FormatDate(t)
        case Err(e) => Err(e)
        case Ok(d) => Ok(JStr(Lit(d)))
  }

  /** `cont[y]['id']` and `round(cont[y]['score'], 2)` for one category
      entry, or the exception the lookups, `round` or the record raise. */
  function CategoryField(entry: Json): (r: Result<(Json, real)>)
    ensures r.Ok? ==> Hashable(r.value.0)
  {
    if !entry.JObject? then Err(TypeError)
    else
      match Get(entry.entries, IdName)
      case None => Err(KeyError)
      case Some(id) =>
        match Get(entry.entries, ScoreName)
        case None => Err(KeyError)
        case Some(note) =>
          match AsNumber(note)
          case None => Err(TypeError)
          case Some(x) => if Hashable(id) then Ok((id, Round2(x))) else Err(TypeError)
  }

  /** What one category entry contributes: an id and a rounded score, or
      the exception that aborts `compute_score`. */
  type Field = Result<(Json, real)>

  /** The contribution of each entry of a categories dict, in order. */
  function Fields(cats: Dict): (fs: seq<Field>)
    ensures |fs| == |cats|
    ensures forall k {:trigger fs[k]} :: 0 <= k < |cats| ==> fs[k] == CategoryField(cats[k].1)
  {
    seq(|cats|, k requires 0 <= k < |cats| => CategoryField(cats[k].1))
  }

  /** Every successful field is keyed by a value a dict accepts. */
  predicate HashableIds(fs: seq<Field>) {
    forall k :: 0 <= k < |fs| && fs[k].Ok? ==> Hashable(fs[k].value.0)
  }

  lemma FieldsHashable(cats: Dict)
    ensures HashableIds(Fields(cats))
  {
  }

  /** The record after the category loop has stored the fields `fs`, in
      order; the first failing entry decides the error. */
  function AddFields(rec: Dict, fs: seq<Field>): (r: Result<Dict>)
    requires DistinctKeys(rec)
    ensures r.Ok? ==> DistinctKeys(r.value)
    decreases |fs|
  {
    if fs == [] then Ok(rec)
    else
      match AddFields(rec, fs[..|fs| - 1])
      case Err(e) => Err(e)
      case Ok(r) =>
        match fs[|fs| - 1]
        case Err(e) => Err(e)
        case Ok(f) => Ok(Set(r, f.0, JNum(f.1)))
  }

  /** `for y in cont` over the value of `categories` (the empty list when
      the key is absent). Iterating a list or a string yields elements that
      cannot index it into a dict, so only empty ones get through. */
  function CategoryFields(rec: Dict, cont: Option<Json>): (r: Result<Dict>)
    requires DistinctKeys(rec)
  {
    match cont
    case None => Ok(rec)
    case Some(JObject(cats)) => AddFields(rec, Fields(cats))
    case Some(JList(xs)) => if xs == [] then Ok(rec) else Err(TypeError)
    case Some(JStr(s)) => if Text(s) == [] then Ok(rec) else Err(TypeError)
    case Some(_) => Err(TypeError)
  }

  /** The record before the category loop: `url`, then `date` when
      `fetchTime` is truthy. */
  function Head(content: Dict): (r: Result<Dict>)
    ensures r.Ok? ==> DistinctKeys(r.value)
  {
    var url := Set([], UrlKey, GetOr(content, FinalUrlName, JNull));
    var fetch := GetOr(content, FetchTimeName, JNull);
    if !Truthy(fetch) then Ok(url)
    else
      match DateField(fetch)
      case Err(e) => Err(e)
      case Ok(d) => Ok(Set(url, DateKey, d))
  }

  /** Two different keys stored into a new record, in order. */
  lemma StoreTwo(k1: Json, v1: Json, k2: Json, v2: Json)
    requires !KeyEq(k1, k2)
    ensures Set([], k1, v1) == [(k1, v1)]
    ensures Set([(k1, v1)], k2, v2) == [(k1, v1), (k2, v2)]
  {
    assert [(k1, v1)][1..] == [];
  }

  /** What `compute_score` returns or raises for a parsed report. `.get` on
      anything but a dict raises AttributeError. */
  function Score(doc: Json): Result<Dict> {
    if !doc.JObject? then Err(AttributeError)
    else
      match Head(doc.entries)
      case Err(e) => Err(e)
      case Ok(head) => CategoryFields(head, Get(doc.entries, CategoriesName))
  }

  /** `compute_score` on an already parsed report. */
  method ComputeScore(doc: Json) returns (r: Result<Dict>)
    ensures r == Score(doc)
  {
    if !doc.JObject? {
      return Err(AttributeError);
    }
    var content := doc.entries;
    var head := ScoreHead(content);
    if head.Err? {
      return Err(head.error);
    }
    var score := head.value;
    var cont := Get(content, CategoriesName);
    if cont.None? {
      return Ok(score);
    }
    var categories := cont.value;
    if categories.JObject? {
      r := ScoreCategories(score, categories.entries);
    } else if categories == JList([]) || (categories.JStr? && Text(categories.s) == []) {
      r := Ok(score);
    } else {
      r := Err(TypeError);
    }
  }

  /** The statements of `compute_score` that store `url` and `date`. */
  method ScoreHead(content: Dict) returns (r: Result<Dict>)
    ensures r == Head(content)
  {
    var score: Dict := [];
    score := Set(score, UrlKey, GetOr(content, FinalUrlName, JNull));
    var date := GetOr(content, FetchTimeName, JNull);
    if Truthy(date) {
      var formatted := DateField(date);
      if formatted.Err? {
        return Err(formatted.error);
      }
      score := Set(score, DateKey, formatted.value);
    }
    return Ok(score);
  }

  /** The `for y in cont` loop of `compute_score` over a categories dict. */
  method ScoreCategories(head: Dict, cats: Dict) returns (r: Result<Dict>)
    requires DistinctKeys(head)
    ensures r == AddFields(head, Fields(cats))
  {
    ghost var fs := Fields(cats);
    var score := head;
    var i := 0;
    while i < |cats|
      invariant 0 <= i <= |cats|
      invariant DistinctKeys(score)
      invariant AddFields(head, fs[..i]) == Ok(score)
    {
      assert fs[..i + 1][..i] == fs[..i];
      var field := CategoryField(cats[i].1);
      if field.Err? {
        AddFieldsStops(head, fs[..i + 1], fs[i + 1..]);
        assert fs[..i + 1] + fs[i + 1..] == fs;
        return Err(field.error);
      }
      score := Set(score, field.value.0, JNum(field.value.1));
      i := i + 1;
    }
    assert fs[..i] == fs;
    return Ok(score);
  }

  /** Once an entry fails, later entries cannot undo the failure. */
  lemma {:induction false} AddFieldsStops(rec: Dict, p: seq<Field>, q: seq<Field>)
    requires DistinctKeys(rec) && AddFields(rec, p).Err?
    ensures AddFields(rec, p + q) == AddFields(rec, p)
    decreases |q|
  {
    if q == [] {
      assert p + q == p;
    } else {
      var pq := p + q;
      assert pq[..|pq| - 1] == p + q[..|q| - 1];
      AddFieldsStops(rec, p, q[..|q| - 1]);
    }
  }

  /** One step of the category loop: the record so far takes the last field. */
  lemma AddFieldsStep(rec: Dict, fs: seq<Field>)
    requires DistinctKeys(rec) && fs != [] && AddFields(rec, fs).Ok?
    ensures AddFields(rec, fs[..|fs| - 1]).Ok? && fs[|fs| - 1].Ok?
    ensures var f := fs[|fs| - 1].value;
      AddFields(rec, fs) == Ok(Set(AddFields(rec, fs[..|fs| - 1]).value, f.0, JNum(f.1)))
  {
  }

  /** The loop completes exactly when every category entry yields an id and
      a score. */
  lemma {:induction false} AddFieldsOkIff(rec: Dict, fs: seq<Field>)
    requires DistinctKeys(rec)
    ensures AddFields(rec, fs).Ok? <==> forall k :: 0 <= k < |fs| ==> fs[k].Ok?
    decreases |fs|
  {
    if fs != [] {
      var p := fs[..|fs| - 1];
      AddFieldsOkIff(rec, p);
      assert forall k :: 0 <= k < |p| ==> p[k] == fs[k];
    }
  }

  /** Keys already in the record keep their place. */
  lemma {:induction false} AddFieldsKeepKeys(rec: Dict, fs: seq<Field>)
    requires DistinctKeys(rec) && AddFields(rec, fs).Ok?
    ensures var r := AddFields(rec, fs).value;
      |r| >= |rec| && forall i :: 0 <= i < |rec| ==> r[i].0 == rec[i].0
    decreases |fs|
  {
    if fs != [] {
      AddFieldsStep(rec, fs);
      AddFieldsKeepKeys(rec, fs[..|fs| - 1]);
      var f := fs[|fs| - 1].value;
      SetShape(AddFields(rec, fs[..|fs| - 1]).value, f.0, JNum(f.1));
    }
  }

  /** Whether some key of `ks` equals `key`. */
  predicate KeyIn(ks: seq<Json>, key: Json) {
    exists i :: 0 <= i < |ks| && KeyEq(ks[i], key)
  }

  lemma HasKeyIn(d: Dict, key: Json)
    ensures HasKey(d, key) <==> KeyIn(Keys(d), key)
  {
    if HasKey(d, key) {
      var i :| 0 <= i < |d| && KeyEq(d[i].0, key);
      assert Keys(d)[i] == d[i].0;
    }
    if KeyIn(Keys(d), key) {
      var i :| 0 <= i < |Keys(d)| && KeyEq(Keys(d)[i], key);
      assert Keys(d)[i] == d[i].0;
    }
  }

  /** The category ids in the order they first occur, leaving out an id
      equal to a key of `rec` or to an earlier id: the keys the category
      loop adds, in the order it adds them. */
  function NewIds(rec: Dict, fs: seq<Field>): seq<Json>
    decreases |fs|
  {
    if fs == [] then []
    else
      var prev := NewIds(rec, fs[..|fs| - 1]);
      var f := fs[|fs| - 1];
      if f.Ok? && !KeyIn(Keys(rec) + prev, f.value.0) then prev + [f.value.0] else prev
  }

  /** The record's keys are its keys before the loop, followed by one key
      per distinct category id, in the order the ids first occur. */
  lemma {:induction false} AddFieldsKeyOrder(rec: Dict, fs: seq<Field>)
    requires DistinctKeys(rec) && AddFields(rec, fs).Ok?
    ensures Keys(AddFields(rec, fs).value) == Keys(rec) + NewIds(rec, fs)
    decreases |fs|
  {
    if fs != [] {
      var p := fs[..|fs| - 1];
      AddFieldsStep(rec, fs);
      AddFieldsKeyOrder(rec, p);
      var r' := AddFields(rec, p).value;
      var f := fs[|fs| - 1].value;
      var r := AddFields(rec, fs).value;
      SetShape(r', f.0, JNum(f.1));
      HasKeyIn(r', f.0);
      assert forall i :: 0 <= i < |r'| ==> Keys(r)[i] == Keys(r')[i];
      if HasKey(r', f.0) {
        assert Keys(r) == Keys(r');
      } else {
        assert Keys(r)[|r'|] == f.0;
        assert Keys(r) == Keys(r') + [f.0];
      }
    }
  }

  /** The rounded score of the last category whose id equals `key`. */
  function LastScore(fs: seq<Field>, key: Json): Option<real>
    decreases |fs|
  {
    if fs == [] then None
    else
      var f := fs[|fs| - 1];
      if f.Ok? && KeyEq(key, f.value.0) then Some(f.value.1)
      else LastScore(fs[..|fs| - 1], key)
  }

  /** A score is found for `key` only when some category's id equals it. */
  lemma {:induction false} LastScoreWitness(fs: seq<Field>, key: Json)
    requires LastScore(fs, key).Some?
    ensures exists k :: 0 <= k < |fs| && fs[k].Ok? && KeyEq(key, fs[k].value.0)
    decreases |fs|
  {
    var f := fs[|fs| - 1];
    if !(f.Ok? && KeyEq(key, f.value.0)) {
      var p := fs[..|fs| - 1];
      LastScoreWitness(p, key);
      var k :| 0 <= k < |p| && p[k].Ok? && KeyEq(key, p[k].value.0);
      assert p[k] == fs[k];
    }
  }

  /** The id of any well-formed category finds a score. */
  lemma {:induction false} LastScoreFinds(fs: seq<Field>, k: nat)
    requires HashableIds(fs)
    requires k < |fs| && fs[k].Ok?
    ensures LastScore(fs, fs[k].value.0).Some?
    decreases |fs|
  {
    var id := fs[k].value.0;
    KeyEqReflexive(id);
    if k < |fs| - 1 {
      var p := fs[..|fs| - 1];
      assert p[k] == fs[k];
      LastScoreFinds(p, k);
    }
  }

  /** Equal keys find the same score. */
  lemma {:induction false} LastScoreRespectsKeyEq(fs: seq<Field>, x: Json, y: Json)
    requires KeyEq(x, y)
    ensures LastScore(fs, x) == LastScore(fs, y)
    decreases |fs|
  {
    if fs != [] {
      var f := fs[|fs| - 1];
      if f.Ok? {
        KeyEqSymmetric(x, y);
        if KeyEq(x, f.value.0) { KeyEqTransitive(y, x, f.value.0); }
        if KeyEq(y, f.value.0) { KeyEqTransitive(x, y, f.value.0); }
      }
      LastScoreRespectsKeyEq(fs[..|fs| - 1], x, y);
    }
  }

  /** Every category id has a field in the record. */
  lemma {:induction false} AddFieldsAllPresent(rec: Dict, fs: seq<Field>)
    requires DistinctKeys(rec) && HashableIds(fs) && AddFields(rec, fs).Ok?
    ensures forall k :: 0 <= k < |fs| ==> fs[k].Ok? && HasKey(AddFields(rec, fs).value, fs[k].value.0)
    decreases |fs|
  {
    if fs != [] {
      var p := fs[..|fs| - 1];
      AddFieldsStep(rec, fs);
      AddFieldsAllPresent(rec, p);
      AddFieldsOkIff(rec, fs);
      var r' := AddFields(rec, p).value;
      var f := fs[|fs| - 1].value;
      forall k | 0 <= k < |fs| ensures HasKey(AddFields(rec, fs).value, fs[k].value.0) {
        if k < |p| {
          assert p[k] == fs[k];
        }
        SetKeepsKeys(r', f.0, JNum(f.1), fs[k].value.0);
      }
    }
  }

  /** The fields the loop adds are keyed by category ids. */
  lemma {:induction false} AddFieldsOnlyIds(rec: Dict, fs: seq<Field>)
    requires DistinctKeys(rec) && HashableIds(fs) && AddFields(rec, fs).Ok?
    ensures var r := AddFields(rec, fs).value;
      forall i :: |rec| <= i < |r| ==> LastScore(fs, r[i].0).Some?
    decreases |fs|
  {
    if fs != [] {
      var p := fs[..|fs| - 1];
      AddFieldsStep(rec, fs);
      AddFieldsOnlyIds(rec, p);
      AddFieldsKeepKeys(rec, p);
      var r' := AddFields(rec, p).value;
      var f := fs[|fs| - 1].value;
      var r := AddFields(rec, fs).value;
      SetShape(r', f.0, JNum(f.1));
      KeyEqReflexive(f.0);
      forall i | |rec| <= i < |r| ensures LastScore(fs, r[i].0).Some? {
        if i >= |r'| {
          assert r[i].0 == f.0;
        } else {
          assert r[i].0 == r'[i].0;
        }
      }
    }
  }

  /** A field keyed by a category id holds the rounded score of the LAST
      category with that id; every other field keeps its value. */
  lemma {:induction false} AddFieldsLastWins(rec: Dict, fs: seq<Field>)
    requires DistinctKeys(rec) && HashableIds(fs) && AddFields(rec, fs).Ok?
    ensures var r := AddFields(rec, fs).value;
      && |r| >= |rec|
      && (forall i :: 0 <= i < |r| && LastScore(fs, r[i].0).Some? ==> r[i].1 == JNum(LastScore(fs, r[i].0).value))
      && (forall i :: 0 <= i < |rec| && LastScore(fs, rec[i].0).None? ==> r[i].1 == rec[i].1)
    decreases |fs|
  {
    AddFieldsKeepKeys(rec, fs);
    if fs != [] {
      var p := fs[..|fs| - 1];
      AddFieldsStep(rec, fs);
      AddFieldsLastWins(rec, p);
      AddFieldsKeepKeys(rec, p);
      var r' := AddFields(rec, p).value;
      var f := fs[|fs| - 1].value;
      var r := AddFields(rec, fs).value;
      SetShape(r', f.0, JNum(f.1));
      KeyEqReflexive(f.0);
      forall i | 0 <= i < |r| && LastScore(fs, r[i].0).Some?
        ensures r[i].1 == JNum(LastScore(fs, r[i].0).value)
      {
        if i >= |r'| {
          assert r[i] == (f.0, JNum(f.1));
        } else {
          assert r[i].0 == r'[i].0;
        }
      }
      forall i | 0 <= i < |rec| && LastScore(fs, rec[i].0).None?
        ensures r[i].1 == rec[i].1
      {
        assert r[i].0 == r'[i].0 == rec[i].0;
      }
    }
  }

  /** The categories `compute_score` visits: those of a dict, none otherwise. */
  function Categories(doc: Json): Dict
    requires doc.JObject?
  {
    match Get(doc.entries, CategoriesName)
    case Some(JObject(cats)) => cats
    case _ => []
  }

  /** A successful record is the head record with the categories added. */
  lemma ScoreIsHeadPlusCategories(doc: Json)
    requires Score(doc).Ok?
    ensures doc.JObject? && Head(doc.entries).Ok?
    ensures AddFields(Head(doc.entries).value, Fields(Categories(doc))) == Score(doc)
  {
    match Get(doc.entries, CategoriesName)
    case Some(JObject(cats)) =>
    case _ =>
  }

  lemma UrlKeyIsNotDateKey()
    ensures !KeyEq(UrlKey, DateKey)
  {
    assert |Lit(UrlName).bytes| != |Lit(DateName).bytes|;
  }

  /** The record's first key is `url`; its value is `finalUrl` (None when
      absent) unless a category with id 'url' overwrote it. */
  lemma ScoreUrlFirst(doc: Json)
    requires Score(doc).Ok?
    ensures doc.JObject?
    ensures var r := Score(doc).value;
      && |r| >= 1 && r[0].0 == UrlKey
      && r[0].1 == match LastScore(Fields(Categories(doc)), UrlKey)
                   case Some(x) => JNum(x)
                   case None => GetOr(doc.entries, FinalUrlName, JNull)
  {
    ScoreIsHeadPlusCategories(doc);
    var head := Head(doc.entries).value;
    var fs := Fields(Categories(doc));
    FieldsHashable(Categories(doc));
    assert head[0] == (UrlKey, GetOr(doc.entries, FinalUrlName, JNull));
    AddFieldsKeepKeys(head, fs);
    AddFieldsLastWins(head, fs);
  }

  /** The head record: `url`, then `date` holding the first ten characters
      of a truthy `fetchTime`. */
  lemma HeadFields(content: Dict)
    requires Head(content).Ok?
    ensures var fetch := GetOr(content, FetchTimeName, JNull);
      var head := Head(content).value;
      && (!Truthy(fetch) ==> head == [(UrlKey, GetOr(content, FinalUrlName, JNull))])
      && (Truthy(fetch) ==>
            && |head| == 2 && head[0] == (UrlKey, GetOr(content, FinalUrlName, JNull)) && head[1].0 == DateKey
            && fetch.JStr? && head[1].1.JStr? && Text(head[1].1.s) == Text(fetch.s)[..10])
  {
    var fetch := GetOr(content, FetchTimeName, JNull);
    UrlKeyIsNotDateKey();
    if Truthy(fetch) {
      Timestamp.DateIsPrefix(Text(fetch.s));
      StoreTwo(UrlKey, GetOr(content, FinalUrlName, JNull), DateKey, DateField(fetch).value);
    } else {
      StoreTwo(UrlKey, GetOr(content, FinalUrlName, JNull), DateKey, JNull);
    }
  }

  /** The field after `url` is `date` when `fetchTime` is truthy, and holds
      the first ten characters of the timestamp unless a category with id
      'date' overwrote it. */
  lemma ScoreDate(doc: Json)
    requires Score(doc).Ok?
    ensures doc.JObject?
    ensures var fetch := GetOr(doc.entries, FetchTimeName, JNull);
      var r := Score(doc).value;
      && (Truthy(fetch) ==> |r| >= 2 && r[1].0 == DateKey)
      && (Truthy(fetch) && LastScore(Fields(Categories(doc)), DateKey).None? ==>
            fetch.JStr? && r[1].1.JStr? && Text(r[1].1.s) == Text(fetch.s)[..10])
  {
    ScoreIsHeadPlusCategories(doc);
    var head := Head(doc.entries).value;
    var fs := Fields(Categories(doc));
    FieldsHashable(Categories(doc));
    HeadFields(doc.entries);
    AddFieldsKeepKeys(head, fs);
    AddFieldsLastWins(head, fs);
  }

  /** A key equal to 'date' is present exactly when `fetchTime` is truthy or
      some category has the id 'date'. */
  lemma ScoreDatePresent(doc: Json)
    requires Score(doc).Ok?
    ensures doc.JObject?
    ensures HasKey(Score(doc).value, DateKey) <==>
      Truthy(GetOr(doc.entries, FetchTimeName, JNull)) || LastScore(Fields(Categories(doc)), DateKey).Some?
  {
    ScoreIsHeadPlusCategories(doc);
    var fetch := GetOr(doc.entries, FetchTimeName, JNull);
    var head := Head(doc.entries).value;
    var fs := Fields(Categories(doc));
    FieldsHashable(Categories(doc));
    var r := Score(doc).value;
    HeadFields(doc.entries);
    AddFieldsKeepKeys(head, fs);
    UrlKeyIsNotDateKey();
    KeyEqReflexive(DateKey);
    if HasKey(r, DateKey) && !Truthy(fetch) {
      var i :| 0 <= i < |r| && KeyEq(r[i].0, DateKey);
      AddFieldsOnlyIds(head, fs);
      if i >= |head| {
        LastScoreRespectsKeyEq(fs, r[i].0, DateKey);
      }
    }
    if LastScore(fs, DateKey).Some? {
      LastScoreWitness(fs, DateKey);
      var k :| 0 <= k < |fs| && fs[k].Ok? && KeyEq(DateKey, fs[k].value.0);
      var id := fs[k].value.0;
      AddFieldsAllPresent(head, fs);
      var i :| 0 <= i < |r| && KeyEq(r[i].0, id);
      KeyEqSymmetric(DateKey, id);
      KeyEqTransitive(r[i].0, id, DateKey);
    }
  }

  /** A truthy `fetchTime` that is not a timestamp of the expected layout
      (or not a string) aborts `compute_score`. */
  lemma ScoreBadTimestamp(doc: Json)
    requires doc.JObject?
    requires Truthy(GetOr(doc.entries, FetchTimeName, JNull))
    requires DateField(GetOr(doc.entries, FetchTimeName, JNull)).Err?
    ensures Score(doc) == Err(DateField(GetOr(doc.entries, FetchTimeName, JNull)).error)
  {
  }

  /** Without `categories` the record holds `url` and, when `fetchTime` is
      truthy, `date`, and nothing else. */
  lemma ScoreWithoutCategories(doc: Json)
    requires doc.JObject? && Get(doc.entries, CategoriesName).None?
    requires Score(doc).Ok?
    ensures Keys(Score(doc).value) == if Truthy(GetOr(doc.entries, FetchTimeName, JNull)) then [UrlKey, DateKey] else [UrlKey]
  {
    UrlKeyIsNotDateKey();
    HeadFields(doc.entries);
    ScoreIsHeadPlusCategories(doc);
  }

  /** The record's keys: `url`, then `date` when `fetchTime` is truthy,
      then one key per distinct category id in the order the ids first
      occur in the categories, an id equal to 'url' or 'date' adding none. */
  lemma ScoreKeyOrder(doc: Json)
    requires Score(doc).Ok?
    ensures doc.JObject?
    ensures var head := if Truthy(GetOr(doc.entries, FetchTimeName, JNull)) then [UrlKey, DateKey] else [UrlKey];
      Keys(Score(doc).value) == head + NewIds(Head(doc.entries).value, Fields(Categories(doc)))
  {
    ScoreIsHeadPlusCategories(doc);
    var head := Head(doc.entries).value;
    var fs := Fields(Categories(doc));
    HeadFields(doc.entries);
    AddFieldsKeyOrder(head, fs);
    assert Keys(head) == if Truthy(GetOr(doc.entries, FetchTimeName, JNull)) then [UrlKey, DateKey] else [UrlKey] by {
      assert forall i :: 0 <= i < |head| ==> Keys(head)[i] == head[i].0;
    }
  }

  /** With a `categories` dict, the record is produced exactly when every
      entry has an id and a numeric score, and then every category id has a
      field holding the rounded score of the last category with that id. */
  lemma ScoreCategoriesFields(doc: Json)
    requires doc.JObject? && Head(doc.entries).Ok?
    requires var cont := Get(doc.entries, CategoriesName); cont.None? || cont.value.JObject?
    ensures var fs := Fields(Categories(doc));
      Score(doc).Ok? <==> forall k :: 0 <= k < |fs| ==> fs[k].Ok?
    ensures var fs := Fields(Categories(doc));
      Score(doc).Ok? ==> forall k :: 0 <= k < |fs| ==>
        && fs[k].Ok? && LastScore(fs, fs[k].value.0).Some?
        && Lookup(Score(doc).value, fs[k].value.0) == Some(JNum(LastScore(fs, fs[k].value.0).value))
  {
    var fs := Fields(Categories(doc));
    var head := Head(doc.entries).value;
    ScoreOfCategoriesDict(doc);
    FieldsHashable(Categories(doc));
    AddFieldsOkIff(head, fs);
    if Score(doc).Ok? {
      AddFieldsLookup(head, fs);
    }
  }

  /** When `categories` is absent or a dict, the record is the head record
      with the fields of its entries stored. */
  lemma ScoreOfCategoriesDict(doc: Json)
    requires doc.JObject? && Head(doc.entries).Ok?
    requires var cont := Get(doc.entries, CategoriesName); cont.None? || cont.value.JObject?
    ensures Score(doc) == AddFields(Head(doc.entries).value, Fields(Categories(doc)))
  {
  }

  /** Looking up a category id in the finished record gives the rounded
      score of the last category with that id. */
  lemma AddFieldsLookup(rec: Dict, fs: seq<Field>)
    requires DistinctKeys(rec) && HashableIds(fs) && AddFields(rec, fs).Ok?
    ensures forall k :: 0 <= k < |fs| ==>
      && fs[k].Ok? && LastScore(fs, fs[k].value.0).Some?
      && Lookup(AddFields(rec, fs).value, fs[k].value.0) == Some(JNum(LastScore(fs, fs[k].value.0).value))
  {
    var r := AddFields(rec, fs).value;
    AddFieldsAllPresent(rec, fs);
    AddFieldsLastWins(rec, fs);
    forall k | 0 <= k < |fs|
      ensures LastScore(fs, fs[k].value.0).Some?
      ensures Lookup(r, fs[k].value.0) == Some(JNum(LastScore(fs, fs[k].value.0).value))
    {
      LastScoreFinds(fs, k);
      LookupLastWins(fs, r, fs[k].value.0);
    }
  }

  /** In a record whose category fields hold the last scores, looking up an
      id that has a score finds that score. */
  lemma LookupLastWins(fs: seq<Field>, r: Dict, id: Json)
    requires HasKey(r, id) && LastScore(fs, id).Some?
    requires forall i :: 0 <= i < |r| && LastScore(fs, r[i].0).Some? ==> r[i].1 == JNum(LastScore(fs, r[i].0).value)
    ensures Lookup(r, id) == Some(JNum(LastScore(fs, id).value))
  {
    var i :| 0 <= i < |r| && KeyEq(r[i].0, id) && r[i].1 == Lookup(r, id).value;
    LastScoreRespectsKeyEq(fs, r[i].0, id);
  }
}
