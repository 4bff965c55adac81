/** The `fetchTime` conversion of `compute_score`:
    `datetime.strptime(date, '%Y-%m-%dT%H:%M:%S.%fZ')` followed by
    `datetime.strftime(date, '%Y-%m-%d')`, for zero-padded timestamps. */
module Timestamp {
  import opened PyValues

  datatype DateTime = DateTime(year: int, month: int, day: int, hour: int, minute: int, second: int, microsecond: int)

  predicate IsDigit(c: char) {
    '0' <= c <= '9'
  }

  predicate AllDigits(s: string) {
    forall k :: 0 <= k < |s| ==> IsDigit(s[k])
  }

  function Pow10(w: nat): (p: nat)
    ensures p >= 1
  {
    if w == 0 then 1 else 10 * Pow10(w - 1)
  }

  /** `int(s)` for a string of decimal digits. */
  function Number(s: string): (n: nat)
    requires AllDigits(s)
    ensures n < Pow10(|s|)
  {
    if s == [] then 0 else Number(s[..|s| - 1]) * 10 + (s[|s| - 1] as int - '0' as int)
  }

  /** `n` written with exactly `w` decimal digits, leading zeros included. */
  function Pad(n: nat, w: nat): (s: string)
    requires n < Pow10(w)
    ensures |s| == w && AllDigits(s)
  {
    if w == 0 then [] else Pad(n / 10, w - 1) + [('0' as int + n % 10) as char]
  }

  lemma {:induction false} NumberOfPad(n: nat, w: nat)
    requires n < Pow10(w)
    ensures Number(Pad(n, w)) == n
  {
    if w > 0 {
      var s := Pad(n, w);
      assert s[..w - 1] == Pad(n / 10, w - 1);
      NumberOfPad(n / 10, w - 1);
    }
  }

  lemma {:induction false} PadOfNumber(s: string)
    requires AllDigits(s)
    ensures Pad(Number(s), |s|) == s
  {
    if s != [] {
      var p := s[..|s| - 1];
      var n := Number(s);
      assert n / 10 == Number(p);
      assert forall k :: 0 <= k < |p| ==> IsDigit(p[k]);
      PadOfNumber(p);
      assert s == p + [s[|s| - 1]];
    }
  }

  /** `s` has the shape `DDDD-DD-DDTDD:DD:DD.DDDDDDZ`. Python 2's strptime
      matches the literal letters T and Z regardless of case. */
  predicate Matches(s: string) {
    && |s| == 27
    && AllDigits(s[0..4]) && s[4] == '-'
    && AllDigits(s[5..7]) && s[7] == '-'
    && AllDigits(s[8..10]) && (s[10] == 'T' || s[10] == 't')
    && AllDigits(s[11..13]) && s[13] == ':'
    && AllDigits(s[14..16]) && s[16] == ':'
    && AllDigits(s[17..19]) && s[19] == '.'
    && AllDigits(s[20..26]) && (s[26] == 'Z' || s[26] == 'z')
  }

  function Fields(s: string): DateTime
    requires Matches(s)
  {
    DateTime(Number(s[0..4]), Number(s[5..7]), Number(s[8..10]),
             Number(s[11..13]), Number(s[14..16]), Number(s[17..19]), Number(s[20..26]))
  }

  predicate IsLeap(year: int) {
    year % 4 == 0 && (year % 100 != 0 || year % 400 == 0)
  }

  function DaysInMonth(year: int, month: int): int
    requires 1 <= month <= 12
  {
    if month == 2 then (if IsLeap(year) then 29 else 28)
    else if month == 4 || month == 6 || month == 9 || month == 11 then 30
    else 31
  }

  /** The ranges `datetime` accepts for each field. */
  predicate Valid(t: DateTime) {
    && 1 <= t.year <= 9999
    && 1 <= t.month <= 12
    && 1 <= t.day <= DaysInMonth(t.year, t.month)
    && 0 <= t.hour <= 23
    && 0 <= t.minute <= 59
    && 0 <= t.second <= 59
    && 0 <= t.microsecond <= 999999
  }

  /** `datetime.strptime(s, '%Y-%m-%dT%H:%M:%S.%fZ')` on zero-padded input:
      a text of another shape, or a field out of range, raises ValueError. */
  function Parse(s: string): (r: Result<DateTime>)
    ensures r.Ok? ==> Valid(r.value)
  {
    if !Matches(s) then Err(ValueError)
    else
      var t := Fields(s);
      if Valid(t) then Ok(t) else Err(ValueError)
  }

  /** `datetime.strftime(t, '%Y-%m-%d')`; Python 2 refuses years before 1900. */
  function FormatDate(t: DateTime): (r: Result<string>)
    requires Valid(t)
    ensures r.Err? <==> t.year < 1900
    ensures r.Err? ==> r.error == ValueError
    ensures r.Ok? ==> |r.value| == 10 && IsAscii(r.value)
  {
    if t.year < 1900 then Err(ValueError)
    else Ok(Pad(t.year, 4) + "-" + Pad(t.month, 2) + "-" + Pad(t.day, 2))
  }

  /** The timestamp in the layout `Parse` reads, with upper-case T and Z. */
  function Render(t: DateTime): (s: string)
    requires Valid(t)
    ensures |s| == 27
  {
    Pad(t.year, 4) + "-" + Pad(t.month, 2) + "-" + Pad(t.day, 2) + "T"
      + Pad(t.hour, 2) + ":" + Pad(t.minute, 2) + ":" + Pad(t.second, 2) + "."
      + Pad(t.microsecond, 6) + "Z"
  }

  /** `s` with the two literal letters in upper case. */
  function Canonical(s: string): string
    requires |s| == 27
  {
    s[10 := 'T'][26 := 'Z']
  }

  /** `r` holds the fields of `t`, zero-padded, in the timestamp layout. */
  predicate LaidOut(r: string, t: DateTime)
    requires Valid(t)
  {
    && |r| == 27
    && r[0..4] == Pad(t.year, 4) && r[4] == '-'
    && r[5..7] == Pad(t.month, 2) && r[7] == '-'
    && r[8..10] == Pad(t.day, 2) && r[10] == 'T'
    && r[11..13] == Pad(t.hour, 2) && r[13] == ':'
    && r[14..16] == Pad(t.minute, 2) && r[16] == ':'
    && r[17..19] == Pad(t.second, 2) && r[19] == '.'
    && r[20..26] == Pad(t.microsecond, 6) && r[26] == 'Z'
  }

  /** Where each field and separator sits in a rendering. */
  lemma RenderLayout(t: DateTime)
    requires Valid(t)
    ensures LaidOut(Render(t), t)
  {
  }

  /** A text laid out from a valid date and time is read back as it. */
  lemma ParseLaidOut(r: string, t: DateTime)
    requires Valid(t) && LaidOut(r, t)
    ensures Parse(r) == Ok(t)
  {
    NumberOfPad(t.year, 4);
    NumberOfPad(t.month, 2);
    NumberOfPad(t.day, 2);
    NumberOfPad(t.hour, 2);
    NumberOfPad(t.minute, 2);
    NumberOfPad(t.second, 2);
    NumberOfPad(t.microsecond, 6);
    assert Matches(r);
  }

  /** Upper-casing the letters keeps the digits and separators. */
  lemma CanonicalLayout(s: string)
    requires Matches(s)
    ensures var c := Canonical(s);
      && |c| == 27
      && c[0..4] == s[0..4] && c[4] == s[4]
      && c[5..7] == s[5..7] && c[7] == s[7]
      && c[8..10] == s[8..10] && c[10] == 'T'
      && c[11..13] == s[11..13] && c[13] == s[13]
      && c[14..16] == s[14..16] && c[16] == s[16]
      && c[17..19] == s[17..19] && c[19] == s[19]
      && c[20..26] == s[20..26] && c[26] == 'Z'
  {
  }

  /** Two texts of the timestamp's length that agree on every field and
      separator are equal. */
  lemma SameLayout(r: string, c: string)
    requires |r| == 27 && |c| == 27
    requires r[0..4] == c[0..4] && r[5..7] == c[5..7] && r[8..10] == c[8..10]
    requires r[11..13] == c[11..13] && r[14..16] == c[14..16] && r[17..19] == c[17..19]
    requires r[20..26] == c[20..26]
    requires r[4] == c[4] && r[7] == c[7] && r[10] == c[10] && r[13] == c[13]
    requires r[16] == c[16] && r[19] == c[19] && r[26] == c[26]
    ensures r == c
  {
    forall k | 0 <= k < 27 ensures r[k] == c[k] {
      if k < 4 { assert r[k] == r[0..4][k] && c[k] == c[0..4][k]; }
      else if 5 <= k < 7 { assert r[k] == r[5..7][k - 5] && c[k] == c[5..7][k - 5]; }
      else if 8 <= k < 10 { assert r[k] == r[8..10][k - 8] && c[k] == c[8..10][k - 8]; }
      else if 11 <= k < 13 { assert r[k] == r[11..13][k - 11] && c[k] == c[11..13][k - 11]; }
      else if 14 <= k < 16 { assert r[k] == r[14..16][k - 14] && c[k] == c[14..16][k - 14]; }
      else if 17 <= k < 19 { assert r[k] == r[17..19][k - 17] && c[k] == c[17..19][k - 17]; }
      else if 20 <= k < 26 { assert r[k] == r[20..26][k - 20] && c[k] == c[20..26][k - 20]; }
    }
  }

  /** Every valid date and time is read back from its rendering. */
  lemma ParseRender(t: DateTime)
    requires Valid(t)
    ensures Parse(Render(t)) == Ok(t)
  {
    RenderLayout(t);
    ParseLaidOut(Render(t), t);
  }

  /** An accepted timestamp is the rendering of what was read, up to the
      case of T and Z. */
  lemma RenderParse(s: string)
    requires Parse(s).Ok?
    ensures Render(Parse(s).value) == Canonical(s)
  {
    var t := Parse(s).value;
    RenderLayout(t);
    CanonicalLayout(s);
    PadOfNumber(s[0..4]);
    PadOfNumber(s[5..7]);
    PadOfNumber(s[8..10]);
    PadOfNumber(s[11..13]);
    PadOfNumber(s[14..16]);
    PadOfNumber(s[17..19]);
    PadOfNumber(s[20..26]);
    SameLayout(Render(t), Canonical(s));
  }

  /** The date `compute_score` stores is the first ten characters of an
      accepted timestamp from 1900 on. */
  lemma DateIsPrefix(s: string)
    requires Parse(s).Ok? && Parse(s).value.year >= 1900
    ensures FormatDate(Parse(s).value) == Ok(s[..10])
  {
    var t := Parse(s).value;
    RenderParse(s);
    assert Render(t)[..10] == FormatDate(t).value;
    assert Canonical(s)[..10] == s[..10];
  }
}
