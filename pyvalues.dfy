/** Python 2 values as lighthouse.py sees them once `json.load` has parsed a
    report: JSON data, the two Python 2 string types, the exceptions the script
    raises or catches, and the dictionary operations it relies on. */
module PyValues {

  type Byte = b: int | 0 <= b < 256

  /** A Python 2 string: `unicode` (what `json.load` produces) or `str` (bytes). */
  datatype PyStr = Unicode(chars: string) | Bytes(bytes: seq<Byte>)

  /** A parsed JSON value. Integers and floats are both `JNum`; an object is
      a dictionary kept as an association list in iteration order. */
  datatype Json =
    | JNull
    | JBool(b: bool)
    | JNum(n: real)
    | JStr(s: PyStr)
    | JList(items: seq<Json>)
    | JObject(entries: seq<(Json, Json)>)

  /** A dictionary, and also an `OrderedDict` record built by the extractors. */
  type Dict = seq<(Json, Json)>

  /** The Python exceptions that can leave the modelled functions. */
  datatype Error = ShellError | IOError | KeyError | TypeError | AttributeError | ValueError | IndexError

  datatype Option<+T> = None | Some(value: T)

  datatype Result<+T> = Ok(value: T) | Err(error: Error)

  /** The characters of a string; the bytes of a `str` are read as Latin-1. */
  function Text(s: PyStr): (t: string)
    ensures |t| == (if s.Unicode? then |s.chars| else |s.bytes|)
  {
    match s
    case Unicode(u) => u
    case Bytes(b) => seq(|b|, i requires 0 <= i < |b| => b[i] as char)
  }

  predicate IsAscii(s: string) {
    forall i :: 0 <= i < |s| ==> s[i] as int < 128
  }

  predicate IsAsciiBytes(b: seq<Byte>) {
    forall i :: 0 <= i < |b| ==> b[i] < 128
  }

  /** The text of a string literal of the script: ASCII only. */
  type Name = s: string | IsAscii(s) witness ""

  /** A string literal of the script, such as 'url': a Python 2 `str`. */
  function Lit(name: Name): (r: PyStr)
    ensures r.Bytes? && IsAsciiBytes(r.bytes) && Text(r) == name
  {
    Bytes(seq(|name|, i requires 0 <= i < |name| => name[i] as int))
  }

  /** The dictionary key written as the literal `name` in the script. */
  function Key(name: Name): Json {
    JStr(Lit(name))
  }

  /** Python 2 `==` on strings: a `unicode` equals a `str` exactly when the
      `str` is ASCII and spells the same text. */
  predicate StrEq(a: PyStr, b: PyStr) {
    match (a, b)
    case (Unicode(x), Unicode(y)) => x == y
    case (Bytes(x), Bytes(y)) => x == y
    case (Unicode(x), Bytes(y)) => IsAsciiBytes(y) && x == Text(b)
    case (Bytes(x), Unicode(y)) => IsAsciiBytes(x) && Text(a) == y
  }

  /** Python's truth value of a JSON value (`if date:`). */
  predicate Truthy(j: Json) {
    match j
    case JNull => false
    case JBool(b) => b
    case JNum(n) => n != 0.0
    case JStr(s) => Text(s) != []
    case JList(xs) => xs != []
    case JObject(es) => es != []
  }

  /** The numeric value of a number or a bool (`True - 0.5` is `0.5` in Python). */
  function AsNumber(j: Json): Option<real> {
    match j
    case JNum(n) => Some(n)
    case JBool(b) => Some(if b then 1.0 else 0.0)
    case _ => None
  }

  /** Values that may be dictionary keys; lists and dicts raise TypeError. */
  predicate Hashable(j: Json) {
    !j.JList? && !j.JObject?
  }

  /** Python's `==` between two keys: None only equals None, numbers and bools
      compare by value (`True == 1.0`), strings by `StrEq`. */
  predicate KeyEq(a: Json, b: Json) {
    match (a, b)
    case (JNull, JNull) => true
    case (JStr(x), JStr(y)) => StrEq(x, y)
    case _ => AsNumber(a).Some? && AsNumber(a) == AsNumber(b)
  }

  /** Whether the value equals the ASCII literal `name` (`'XHR' == x[...]`). */
  predicate IsLiteral(j: Json, name: Name) {
    KeyEq(j, Key(name))
  }

  predicate HasKey(d: Dict, key: Json) {
    exists i :: 0 <= i < |d| && KeyEq(d[i].0, key)
  }

  /** A Python dictionary never holds two equal keys. */
  predicate DistinctKeys(d: Dict) {
    forall i, j {:trigger KeyEq(d[i].0, d[j].0)} :: 0 <= i < j < |d| ==> !KeyEq(d[i].0, d[j].0)
  }

  /** `d.get(key)`: the value stored under a key equal to `key`, if any. */
  function Lookup(d: Dict, key: Json): (r: Option<Json>)
    ensures r.Some? <==> HasKey(d, key)
    ensures r.Some? ==> exists i :: 0 <= i < |d| && KeyEq(d[i].0, key) && d[i].1 == r.value
  {
    if d == [] then None
    else if KeyEq(d[0].0, key) then Some(d[0].1)
    else
      var r := Lookup(d[1..], key);
      assert forall i :: 0 < i < |d| ==> d[1..][i - 1] == d[i];
      r
  }

  /** `d.get(name)` for a literal key name. */
  function Get(d: Dict, name: Name): Option<Json> {
    Lookup(d, Key(name))
  }

  /** `d.get(name, default)`. */
  function GetOr(d: Dict, name: Name, default: Json): Json {
    match Get(d, name)
    case Some(v) => v
    case None => default
  }

  /** `d[key] = value` on a dictionary or an `OrderedDict`: an equal key
      already present keeps its place and its key object and takes the new
      value; otherwise the pair is appended (see `SetShape`). */
  function Set(d: Dict, key: Json, value: Json): (r: Dict)
    requires DistinctKeys(d)
    ensures DistinctKeys(r)
    decreases |d|, 0
  {
    if d == [] then [(key, value)]
    else if KeyEq(d[0].0, key) then
      assert forall i :: 0 < i < |d| ==> !KeyEq(d[i].0, key) by {
        forall i | 0 < i < |d| ensures !KeyEq(d[i].0, key) {
          assert !KeyEq(d[0].0, d[i].0);
          if KeyEq(d[i].0, key) {
            KeyEqSymmetric(d[i].0, key);
            KeyEqTransitive(d[0].0, key, d[i].0);
          }
        }
      }
      [(d[0].0, value)] + d[1..]
    else
      assert DistinctKeys(d[1..]) by {
        forall i, j | 0 <= i < j < |d| - 1 ensures !KeyEq(d[1..][i].0, d[1..][j].0) {
          assert d[1..][i] == d[i + 1] && d[1..][j] == d[j + 1];
        }
      }
      var rest := Set(d[1..], key, value);
      SetShape(d[1..], key, value);
      var r := [d[0]] + rest;
      assert forall i :: 0 < i < |r| ==> r[i] == rest[i - 1];
      assert DistinctKeys(r) by {
        forall i, j | 0 <= i < j < |r| ensures !KeyEq(r[i].0, r[j].0) {
          if i == 0 {
            if j < |d| {
              assert r[j].0 == d[j].0;
            } else {
              assert r[j].0 == key;
              KeyEqSymmetric(d[0].0, key);
            }
          }
        }
      }
      r
  }

  /** What `d[key] = value` does: the keys keep their places, the key equal
      to `key` takes the new value and the others keep theirs; without such
      a key the pair is added at the end. */
  lemma {:induction false} SetShape(d: Dict, key: Json, value: Json)
    requires DistinctKeys(d)
    ensures var r := Set(d, key, value);
      && (HasKey(d, key) ==> |r| == |d|)
      && (!HasKey(d, key) ==> |r| == |d| + 1 && r[|d|] == (key, value))
      && (forall i :: 0 <= i < |d| ==> r[i].0 == d[i].0)
      && (forall i :: 0 <= i < |d| ==> r[i].1 == if KeyEq(d[i].0, key) then value else d[i].1)
    decreases |d|, 1
  {
    if d != [] && !KeyEq(d[0].0, key) {
      var t := d[1..];
      assert DistinctKeys(t) by {
        forall i, j | 0 <= i < j < |t| ensures !KeyEq(t[i].0, t[j].0) {
          assert t[i] == d[i + 1] && t[j] == d[j + 1];
        }
      }
      SetShape(t, key, value);
      var r := Set(d, key, value);
      assert r == [d[0]] + Set(t, key, value);
      assert HasKey(d, key) <==> HasKey(t, key) by {
        if HasKey(d, key) {
          var i :| 0 <= i < |d| && KeyEq(d[i].0, key);
          assert t[i - 1] == d[i];
        }
        if HasKey(t, key) {
          var i :| 0 <= i < |t| && KeyEq(t[i].0, key);
          assert d[i + 1] == t[i];
        }
      }
      assert forall i :: 0 < i < |d| ==> d[i] == t[i - 1];
    } else if d != [] {
      assert forall i :: 0 < i < |d| ==> !KeyEq(d[i].0, key) by {
        forall i | 0 < i < |d| ensures !KeyEq(d[i].0, key) {
          assert !KeyEq(d[0].0, d[i].0);
          if KeyEq(d[i].0, key) {
            KeyEqSymmetric(d[i].0, key);
            KeyEqTransitive(d[0].0, key, d[i].0);
          }
        }
      }
    }
  }

  /** Storing a value never removes a key, and the stored key is present. */
  lemma SetKeepsKeys(d: Dict, key: Json, value: Json, other: Json)
    requires DistinctKeys(d) && Hashable(key)
    ensures HasKey(Set(d, key, value), key)
    ensures HasKey(d, other) ==> HasKey(Set(d, key, value), other)
  {
    var r := Set(d, key, value);
    SetShape(d, key, value);
    KeyEqReflexive(key);
    if HasKey(d, other) {
      var i :| 0 <= i < |d| && KeyEq(d[i].0, other);
      assert r[i].0 == d[i].0;
    }
    if HasKey(d, key) {
      var i :| 0 <= i < |d| && KeyEq(d[i].0, key);
      assert r[i].0 == d[i].0;
    } else {
      assert r[|d|].0 == key;
    }
  }

  lemma KeyEqSymmetric(a: Json, b: Json)
    ensures KeyEq(a, b) <==> KeyEq(b, a)
  {
  }

  lemma KeyEqTransitive(a: Json, b: Json, c: Json)
    requires KeyEq(a, b) && KeyEq(b, c)
    ensures KeyEq(a, c)
  {
    if a.JStr? && b.JStr? && c.JStr? {
      match (a.s, b.s, c.s)
      case (Unicode(x), Bytes(y), Unicode(z)) =>
        assert x == Text(b.s) == z;
      case (Bytes(x), Unicode(y), Bytes(z)) =>
        assert Text(a.s) == y == Text(c.s);
        assert forall i :: 0 <= i < |x| ==> x[i] == Text(a.s)[i] as int;
        assert forall i :: 0 <= i < |z| ==> z[i] == Text(c.s)[i] as int;
      case _ =>
    }
  }

  lemma KeyEqReflexive(a: Json)
    requires Hashable(a)
    ensures KeyEq(a, a)
  {
  }

  /** The keys of a dictionary, in order. */
  function Keys(d: Dict): (ks: seq<Json>)
    ensures |ks| == |d|
  {
    seq(|d|, i requires 0 <= i < |d| => d[i].0)
  }
}
