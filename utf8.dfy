/** UTF-8, the encoding `unicode.encode('utf-8')` applies in `byteify`. */
module Utf8 {
  import opened PyValues

  /** The bytes of one code point: one to four bytes, the lead byte telling how many. */
  function EncodeChar(c: char): (r: seq<Byte>)
    ensures 1 <= |r| <= 4
  {
    var n := c as int;
    if n < 0x80 then [n]
    else if n < 0x800 then [0xC0 + n / 64, 0x80 + n % 64]
    else if n < 0x10000 then [0xE0 + n / 4096, 0x80 + (n / 64) % 64, 0x80 + n % 64]
    else [0xF0 + n / 262144, 0x80 + (n / 4096) % 64, 0x80 + (n / 64) % 64, 0x80 + n % 64]
  }

  /** `u.encode('utf-8')`. */
  function Encode(s: string): seq<Byte> {
    if s == [] then [] else EncodeChar(s[0]) + Encode(s[1..])
  }

  /** How many bytes a sequence starting with `lead` has (0 for a byte that cannot lead). */
  function SequenceLength(lead: Byte): nat {
    if lead < 0x80 then 1
    else if lead < 0xC0 then 0
    else if lead < 0xE0 then 2
    else if lead < 0xF0 then 3
    else if lead < 0xF8 then 4
    else 0
  }

  /** The code point carried by one multi-byte sequence. */
  function CodePoint(b: seq<Byte>): int
    requires 1 <= |b| <= 4
  {
    var x := seq(|b|, i requires 0 <= i < |b| => b[i] as int);
    match |b|
    case 1 => x[0]
    case 2 => (x[0] - 0xC0) * 64 + (x[1] - 0x80)
    case 3 => (x[0] - 0xE0) * 4096 + (x[1] - 0x80) * 64 + (x[2] - 0x80)
    case 4 => (x[0] - 0xF0) * 262144 + (x[1] - 0x80) * 4096 + (x[2] - 0x80) * 64 + (x[3] - 0x80)
  }

  predicate IsScalar(n: int) {
    0 <= n < 0xD800 || 0xE000 <= n < 0x110000
  }

  /** A decoder that inverts `Encode`; it does not reject every malformed input. */
  function Decode(b: seq<Byte>): Option<string>
    decreases |b|
  {
    if b == [] then Some([])
    else
      var k := SequenceLength(b[0]);
      if k == 0 || |b| < k || !IsScalar(CodePoint(b[..k])) then None
      else
        match Decode(b[k..])
        case None => None
        case Some(t) => Some([CodePoint(b[..k]) as char] + t)
  }

  lemma EncodeCharDecodes(c: char)
    ensures SequenceLength(EncodeChar(c)[0]) == |EncodeChar(c)|
    ensures CodePoint(EncodeChar(c)) == c as int
  {
    var n := c as int;
    if 0x800 <= n < 0x10000 {
      assert n / 64 == 64 * (n / 4096) + (n / 64) % 64;
    } else if 0x10000 <= n {
      assert n / 4096 == 64 * (n / 262144) + (n / 4096) % 64;
      assert n / 64 == 64 * (n / 4096) + (n / 64) % 64;
    }
  }

  /** Decoding recovers exactly the encoded text. */
  lemma {:induction false} DecodeEncode(s: string)
    ensures Decode(Encode(s)) == Some(s)
  {
    if s != [] {
      var e := EncodeChar(s[0]);
      var b := Encode(s);
      EncodeCharDecodes(s[0]);
      assert b == e + Encode(s[1..]);
      assert b[0] == e[0];
      assert b[..|e|] == e;
      assert b[|e|..] == Encode(s[1..]);
      DecodeEncode(s[1..]);
      assert [CodePoint(e) as char] + s[1..] == s;
    }
  }

  /** Distinct texts have distinct encodings. */
  lemma EncodeInjective(s: string, t: string)
    requires Encode(s) == Encode(t)
    ensures s == t
  {
    DecodeEncode(s);
    DecodeEncode(t);
  }

  /** ASCII text encodes to the same bytes as the corresponding `str` literal. */
  lemma {:induction false} EncodeAscii(s: string)
    requires IsAscii(s)
    ensures Encode(s) == Lit(s).bytes
  {
    if s != [] {
      EncodeAscii(s[1..]);
      assert Lit(s).bytes == [s[0] as int] + Lit(s[1..]).bytes;
    }
  }

  /** The encoding is ASCII only when the text is. */
  lemma {:induction false} AsciiEncoding(s: string)
    requires IsAsciiBytes(Encode(s))
    ensures IsAscii(s)
  {
    if s != [] {
      var e := Encode(s);
      assert e[0] == EncodeChar(s[0])[0];
      assert Encode(s[1..]) == e[|EncodeChar(s[0])|..];
      AsciiEncoding(s[1..]);
      assert forall i :: 1 <= i < |s| ==> s[i] == s[1..][i - 1];
    }
  }
}
