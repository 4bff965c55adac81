/** `byteify` (lighthouse.py:66-75): turns every `unicode` string of a parsed
    JSON value, dictionary keys included, into its UTF-8 encoded `str`,
    leaving the structure as it is. */
module Byteify {
  import opened PyValues
  import Utf8

  /** `byteify(input)`: dictionaries and lists are rebuilt from the converted
      parts, a `unicode` string is encoded, anything else is returned as is.
      A dictionary is rebuilt by the comprehension
      `{byteify(key): byteify(value) for ...}`: see `Store`. */
  function Byteify(x: Json): Json
    decreases x
  {
    match x
    case JStr(Unicode(u)) => JStr(Bytes(Utf8.Encode(u)))
    case JList(xs) => JList(seq(|xs|, i requires 0 <= i < |xs| => Byteify(xs[i])))
    case JObject(es) =>
      JObject(Store(seq(|es|, i requires 0 <= i < |es| => (Byteify(es[i].0), Byteify(es[i].1)))))
    case _ => x
  }

  /** The pairs of a dictionary, each converted. */
  function ConvertPairs(es: Dict): (cs: Dict)
    ensures |cs| == |es|
    ensures forall k {:trigger cs[k]} :: 0 <= k < |es| ==> cs[k] == (Byteify(es[k].0), Byteify(es[k].1))
  {
    seq(|es|, i requires 0 <= i < |es| => (Byteify(es[i].0), Byteify(es[i].1)))
  }

  lemma ByteifyDict(es: Dict)
    ensures Byteify(JObject(es)) == JObject(Store(ConvertPairs(es)))
  {
  }

  /** A dictionary built by storing the pairs one after the other into a new
      one, so that a key equal to an earlier one overwrites its value. */
  function Store(cs: Dict): (r: Dict)
    ensures DistinctKeys(r)
  {
    if cs == [] then []
    else
      var n := |cs| - 1;
      Set(Store(cs[..n]), cs[n].0, cs[n].1)
  }

  /** No `unicode` string anywhere in the value. */
  predicate Normal(x: Json)
    decreases x
  {
    match x
    case JStr(s) => s.Bytes?
    case JList(xs) => forall i :: 0 <= i < |xs| ==> Normal(xs[i])
    case JObject(es) => forall i :: 0 <= i < |es| ==> Normal(es[i].0) && Normal(es[i].1)
    case _ => true
  }

  /** Every dictionary in the value is one Python can hold: hashable keys,
      no two of them equal. */
  predicate WellFormed(x: Json)
    decreases x
  {
    match x
    case JList(xs) => forall i :: 0 <= i < |xs| ==> WellFormed(xs[i])
    case JObject(es) =>
      && DistinctKeys(es)
      && forall i :: 0 <= i < |es| ==> Hashable(es[i].0) && WellFormed(es[i].0) && WellFormed(es[i].1)
    case _ => true
  }

  /** Both: the values `byteify` returns, as the lemmas below show. */
  predicate Converted(x: Json) {
    Normal(x) && WellFormed(x)
  }

  predicate AllConverted(d: Dict) {
    forall i :: 0 <= i < |d| ==> Hashable(d[i].0) && Converted(d[i].0) && Converted(d[i].1)
  }

  /** Storing a converted pair into a converted dictionary keeps it converted. */
  lemma SetConverted(d: Dict, key: Json, value: Json)
    requires DistinctKeys(d) && AllConverted(d)
    requires Hashable(key) && Converted(key) && Converted(value)
    ensures AllConverted(Set(d, key, value))
  {
    var r := Set(d, key, value);
    SetShape(d, key, value);
    forall i | 0 <= i < |r|
      ensures Hashable(r[i].0) && Converted(r[i].0) && Converted(r[i].1)
    {
      if i >= |d| {
        assert r[i] == (key, value);
      }
    }
  }

  /** Conversion keeps a key hashable. */
  lemma ByteifyHashable(x: Json)
    requires Hashable(x)
    ensures Hashable(Byteify(x))
  {
  }

  /** Nothing `byteify` returns holds a `unicode` string, and every dictionary
      it builds is a proper dictionary. */
  lemma {:induction false} ByteifyConverts(x: Json)
    requires WellFormed(x)
    ensures Converted(Byteify(x))
    decreases x
  {
    match x
    case JStr(_) =>
    case JList(xs) =>
      var ys := Byteify(x).items;
      forall i | 0 <= i < |xs| ensures Converted(ys[i]) {
        ByteifyConverts(xs[i]);
      }
    case JObject(es) =>
      var cs := ConvertPairs(es);
      forall k | 0 <= k < |es| ensures Hashable(cs[k].0) && Converted(cs[k].0) && Converted(cs[k].1) {
        ByteifyConverts(es[k].0);
        ByteifyConverts(es[k].1);
        ByteifyHashable(es[k].0);
      }
      StoreConverted(cs);
      ByteifyDict(es);
    case _ =>
  }

  lemma {:induction false} StoreConverted(cs: Dict)
    requires AllConverted(cs)
    ensures AllConverted(Store(cs))
    decreases |cs|
  {
    if cs != [] {
      var n := |cs| - 1;
      assert AllConverted(cs[..n]) by {
        forall i | 0 <= i < n ensures cs[..n][i] == cs[i] { }
      }
      StoreConverted(cs[..n]);
      SetConverted(Store(cs[..n]), cs[n].0, cs[n].1);
    }
  }

  /** Storing a key that is not there appends the pair. */
  lemma SetAppends(d: Dict, key: Json, value: Json)
    requires DistinctKeys(d) && !HasKey(d, key)
    ensures Set(d, key, value) == d + [(key, value)]
  {
    var r := Set(d, key, value);
    SetShape(d, key, value);
    forall i | 0 <= i < |d| ensures r[i] == d[i] {
      assert !KeyEq(d[i].0, key);
    }
  }

  /** `byteify` leaves a converted value as it is. */
  lemma {:induction false} ByteifyKeepsConverted(x: Json)
    requires Converted(x)
    ensures Byteify(x) == x
    decreases x
  {
    match x
    case JStr(_) =>
    case JList(xs) =>
      forall i | 0 <= i < |xs| ensures Byteify(xs[i]) == xs[i] {
        ByteifyKeepsConverted(xs[i]);
      }
    case JObject(es) =>
      forall k | 0 <= k < |es| ensures Byteify(es[k].0) == es[k].0 && Byteify(es[k].1) == es[k].1 {
        ByteifyKeepsConverted(es[k].0);
        ByteifyKeepsConverted(es[k].1);
      }
      assert ConvertPairs(es) == es;
      StoreDistinct(es);
      ByteifyDict(es);
    case _ =>
  }

  /** Pairs whose keys are all different are stored as they are. */
  lemma {:induction false} StoreDistinct(cs: Dict)
    requires DistinctKeys(cs)
    ensures Store(cs) == cs
    decreases |cs|
  {
    if cs != [] {
      var n := |cs| - 1;
      var p := cs[..n];
      assert DistinctKeys(p) by {
        forall i, j | 0 <= i < j < |p| ensures !KeyEq(p[i].0, p[j].0) {
          assert p[i] == cs[i] && p[j] == cs[j];
        }
      }
      StoreDistinct(p);
      assert !HasKey(p, cs[n].0) by {
        forall i | 0 <= i < |p| ensures !KeyEq(p[i].0, cs[n].0) {
          assert p[i] == cs[i];
        }
      }
      SetAppends(p, cs[n].0, cs[n].1);
      LastSplit(cs);
    }
  }

  /** `byteify` is idempotent. */
  lemma ByteifyIdempotent(x: Json)
    requires WellFormed(x)
    ensures Byteify(Byteify(x)) == Byteify(x)
  {
    ByteifyConverts(x);
    ByteifyKeepsConverted(Byteify(x));
  }

  /** Lists keep their length and order, element by element. */
  lemma ByteifyList(xs: seq<Json>)
    ensures Byteify(JList(xs)).JList?
    ensures |Byteify(JList(xs)).items| == |xs|
    ensures forall i :: 0 <= i < |xs| ==> Byteify(JList(xs)).items[i] == Byteify(xs[i])
  {
  }

  /** Values other than strings, lists and dictionaries come back unchanged;
      so does a `str`. */
  lemma ByteifyScalar(x: Json)
    requires !x.JList? && !x.JObject? && !(x.JStr? && x.s.Unicode?)
    ensures Byteify(x) == x
  {
  }

  /** A `unicode` string becomes a `str` whose bytes decode back to it; it
      still compares equal to the original exactly when it is ASCII. */
  lemma ByteifyText(u: string)
    ensures Byteify(JStr(Unicode(u))).JStr?
    ensures Byteify(JStr(Unicode(u))).s.Bytes?
    ensures Utf8.Decode(Byteify(JStr(Unicode(u))).s.bytes) == Some(u)
    ensures KeyEq(JStr(Unicode(u)), Byteify(JStr(Unicode(u)))) <==> IsAscii(u)
  {
    var b := Utf8.Encode(u);
    Utf8.DecodeEncode(u);
    if IsAscii(u) {
      Utf8.EncodeAscii(u);
      assert Text(Bytes(b)) == u;
    }
    if KeyEq(JStr(Unicode(u)), JStr(Bytes(b))) {
      Utf8.AsciiEncoding(u);
    }
  }

  lemma LastSplit<T>(s: seq<T>)
    requires s != []
    ensures s[..|s| - 1] + [s[|s| - 1]] == s
  {
  }

  /** Every stored key is present. */
  lemma {:induction false} StoreHasKeys(cs: Dict)
    requires forall i :: 0 <= i < |cs| ==> Hashable(cs[i].0)
    ensures forall i :: 0 <= i < |cs| ==> HasKey(Store(cs), cs[i].0)
    decreases |cs|
  {
    if cs != [] {
      var n := |cs| - 1;
      var p := cs[..n];
      assert forall i :: 0 <= i < n ==> p[i] == cs[i];
      StoreHasKeys(p);
      var d, key, value := Store(p), cs[n].0, cs[n].1;
      assert Store(cs) == Set(d, key, value);
      forall i | 0 <= i < |cs| ensures HasKey(Set(d, key, value), cs[i].0) {
        if i < n {
          assert HasKey(d, p[i].0);
        }
        SetKeepsKeys(d, key, value, cs[i].0);
      }
    }
  }

  /** No key is stored that was not among the pairs. */
  lemma {:induction false} StoreOnlyKeys(cs: Dict)
    ensures forall j :: 0 <= j < |Store(cs)| ==> Store(cs)[j].0 in Keys(cs)
    decreases |cs|
  {
    if cs != [] {
      var n := |cs| - 1;
      var p := cs[..n];
      StoreOnlyKeys(p);
      assert Keys(cs) == Keys(p) + [cs[n].0];
      var d := Store(p);
      var r := Store(cs);
      SetShape(d, cs[n].0, cs[n].1);
      forall j | 0 <= j < |r| ensures r[j].0 in Keys(cs) {
        if j < |d| {
          assert r[j].0 == d[j].0;
        } else {
          assert r[j].0 == cs[n].0;
        }
      }
    }
  }

  /** The keys of a converted dictionary are the converted keys: each of them
      is present, and nothing else is. */
  lemma ByteifyKeys(es: Dict)
    requires forall i :: 0 <= i < |es| ==> Hashable(es[i].0)
    ensures Byteify(JObject(es)).JObject?
    ensures forall i :: 0 <= i < |es| ==> HasKey(Byteify(JObject(es)).entries, Byteify(es[i].0))
    ensures forall j :: 0 <= j < |Byteify(JObject(es)).entries| ==>
              exists i :: 0 <= i < |es| && Byteify(JObject(es)).entries[j].0 == Byteify(es[i].0)
  {
    var cs := ConvertPairs(es);
    forall i | 0 <= i < |es| ensures Hashable(cs[i].0) {
      ByteifyHashable(es[i].0);
    }
    StoreHasKeys(cs);
    StoreOnlyKeys(cs);
    ByteifyDict(es);
    var r := Store(cs);
    forall i | 0 <= i < |es| ensures HasKey(r, Byteify(es[i].0)) {
      assert cs[i].0 == Byteify(es[i].0);
    }
    forall j | 0 <= j < |r| ensures exists i :: 0 <= i < |es| && r[j].0 == Byteify(es[i].0) {
      var ks := Keys(cs);
      var i :| 0 <= i < |ks| && ks[i] == r[j].0;
      assert cs[i].0 == Byteify(es[i].0);
    }
  }

  /** A dictionary `json.load` returns has `unicode` keys only; `byteify`
      keeps each of its pairs, converted, in the same place. */
  lemma ByteifyLoadedDict(es: Dict)
    requires forall i :: 0 <= i < |es| ==> es[i].0.JStr? && es[i].0.s.Unicode?
    requires DistinctKeys(es)
    ensures Byteify(JObject(es)) == JObject(ConvertPairs(es))
  {
    var cs := ConvertPairs(es);
    assert DistinctKeys(cs) by {
      forall i, j | 0 <= i < j < |cs| ensures !KeyEq(cs[i].0, cs[j].0) {
        assert !KeyEq(es[i].0, es[j].0);
        UnicodeKeysStayApart(es[i].0.s.chars, es[j].0.s.chars);
      }
    }
    StoreDistinct(cs);
    ByteifyDict(es);
  }

  /** Two different `unicode` keys stay different once encoded. */
  lemma UnicodeKeysStayApart(u: string, v: string)
    requires u != v
    ensures !KeyEq(Byteify(JStr(Unicode(u))), Byteify(JStr(Unicode(v))))
  {
    if Utf8.Encode(u) == Utf8.Encode(v) {
      Utf8.EncodeInjective(u, v);
    }
  }

  /** A non-ASCII `unicode` key and the `str` of its encoding are different
      keys in Python 2, but `byteify` turns both into that `str`: the
      dictionary loses a pair, and the later value wins. */
  lemma ByteifyMergesKeys(u: string, a: Json, b: Json)
    requires !IsAscii(u)
    ensures var d := [(JStr(Unicode(u)), a), (JStr(Bytes(Utf8.Encode(u))), b)];
      && DistinctKeys(d)
      && Byteify(JObject(d)) == JObject([(JStr(Bytes(Utf8.Encode(u))), Byteify(b))])
  {
    var k := JStr(Bytes(Utf8.Encode(u)));
    var d := [(JStr(Unicode(u)), a), (k, b)];
    ByteifyText(u);
    assert !KeyEq(d[0].0, d[1].0);
    var cs := ConvertPairs(d);
    assert cs == [(k, Byteify(a)), (k, Byteify(b))];
    assert Store(cs[..1]) == [(k, Byteify(a))] by {
      assert cs[..1][..0] == [];
    }
    ByteifyDict(d);
    assert Byteify(k) == k;
    KeyEqReflexive(k);
  }
}
