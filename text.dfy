/** The Python string methods lighthouse.py applies to lines, paths and
    file names: `strip()`, `replace(old, new)` and `split(sep)`. */
module Text {

  /** The characters Python 2's `str.strip()` removes: space, \t, \n, \v, \f, \r. */
  predicate IsSpace(c: char) {
    c == ' ' || c == '\t' || c == '\n' || c == '\r' || c as int == 11 || c as int == 12
  }

  predicate AllSpace(s: string) {
    forall k :: 0 <= k < |s| ==> IsSpace(s[k])
  }

  /** The number of leading whitespace characters. */
  function LeadCount(s: string): (n: nat)
    ensures n <= |s| && AllSpace(s[..n])
    ensures n < |s| ==> !IsSpace(s[n])
  {
    if s != [] && IsSpace(s[0]) then
      var n := 1 + LeadCount(s[1..]);
      assert forall k :: 0 < k < n ==> s[..n][k] == s[1..][..n - 1][k - 1];
      n
    else 0
  }

  /** The number of trailing whitespace characters. */
  function TrailCount(s: string): (n: nat)
    ensures n <= |s| && AllSpace(s[|s| - n..])
    ensures n < |s| ==> !IsSpace(s[|s| - n - 1])
  {
    if s != [] && IsSpace(s[|s| - 1]) then
      var n := 1 + TrailCount(s[..|s| - 1]);
      assert s[|s| - n..] == s[..|s| - 1][|s| - n..] + [s[|s| - 1]];
      n
    else 0
  }

  /** `s.strip()`: the slice of `s` left once leading and trailing whitespace
      is removed; it neither starts nor ends with whitespace. */
  function Strip(s: string): (r: string)
    ensures exists i, j :: 0 <= i <= j <= |s| && r == s[i..j] && AllSpace(s[..i]) && AllSpace(s[j..])
    ensures r != [] ==> !IsSpace(r[0]) && !IsSpace(r[|r| - 1])
  {
    var i := LeadCount(s);
    var t := s[i..];
    var n := TrailCount(t);
    var j := |s| - n;
    assert t[|t| - n..] == s[j..];
    assert AllSpace(s[..i]) && AllSpace(s[j..]);
    var r := s[i..j];
    if r != [] then
      assert r[0] == s[i] && !IsSpace(s[i]);
      assert r[|r| - 1] == t[|t| - n - 1] && !IsSpace(t[|t| - n - 1]);
      r
    else r
  }

  /** Whether `pat` occurs in `s` starting at index `i`. */
  predicate OccursAt(s: string, pat: string, i: nat) {
    i + |pat| <= |s| && s[i..i + |pat|] == pat
  }

  /** `s.replace(pat, rep)`: every occurrence of `pat`, found scanning left to
      right without overlap, is replaced by `rep`. */
  function Replace(s: string, pat: string, rep: string): string
    requires pat != []
    decreases |s|
  {
    if |s| < |pat| then s
    else if s[..|pat|] == pat then rep + Replace(s[|pat|..], pat, rep)
    else [s[0]] + Replace(s[1..], pat, rep)
  }

  /** Text in which the pattern never occurs is left as it is. */
  lemma {:induction false} ReplaceAbsent(s: string, pat: string, rep: string)
    requires pat != []
    requires forall i :: 0 <= i < |s| ==> !OccursAt(s, pat, i)
    ensures Replace(s, pat, rep) == s
    decreases |s|
  {
    if |s| >= |pat| {
      assert !OccursAt(s, pat, 0);
      forall i | 0 <= i < |s| - 1 ensures !OccursAt(s[1..], pat, i) {
        assert !OccursAt(s, pat, i + 1);
        if i + |pat| <= |s| - 1 {
          assert s[1..][i..i + |pat|] == s[i + 1..i + 1 + |pat|];
        }
      }
      ReplaceAbsent(s[1..], pat, rep);
    }
  }

  /** When the only occurrence of `pat` in `a + pat` is the final one, the
      replacement rewrites exactly that suffix. */
  lemma {:induction false} ReplaceSuffix(a: string, pat: string, rep: string)
    requires pat != []
    requires forall i :: 0 <= i < |a| ==> !OccursAt(a + pat, pat, i)
    ensures Replace(a + pat, pat, rep) == Replace(a, pat, rep) + rep
    decreases |a|
  {
    var s := a + pat;
    if a == [] {
      assert s[..|pat|] == pat && s[|pat|..] == [];
    } else {
      assert !OccursAt(s, pat, 0);
      assert s[..|pat|] != pat;
      assert s[1..] == a[1..] + pat;
      forall i | 0 <= i < |a| - 1 ensures !OccursAt(a[1..] + pat, pat, i) {
        assert !OccursAt(s, pat, i + 1);
        assert (a[1..] + pat)[i..i + |pat|] == s[i + 1..i + 1 + |pat|];
      }
      ReplaceSuffix(a[1..], pat, rep);
      if |a| >= |pat| {
        assert a[..|pat|] == s[..|pat|];
      }
    }
  }

  /** When `pat` occurs in `stem + pat` only at the end, replacing it swaps
      that ending for `rep`. */
  lemma ReplaceEnding(stem: string, pat: string, rep: string)
    requires pat != []
    requires forall i :: 0 <= i < |stem| ==> !OccursAt(stem + pat, pat, i)
    ensures Replace(stem + pat, pat, rep) == stem + rep
  {
    ReplaceSuffix(stem, pat, rep);
    forall i | 0 <= i < |stem| ensures !OccursAt(stem, pat, i) {
      if OccursAt(stem, pat, i) {
        assert (stem + pat)[i..i + |pat|] == stem[i..i + |pat|];
        assert OccursAt(stem + pat, pat, i);
      }
    }
    ReplaceAbsent(stem, pat, rep);
  }

  /** A text starting with the pattern has it replaced first. */
  lemma ReplaceLeading(pat: string, rest: string, rep: string)
    requires pat != []
    ensures Replace(pat + rest, pat, rep) == rep + Replace(rest, pat, rep)
  {
    assert (pat + rest)[..|pat|] == pat && (pat + rest)[|pat|..] == rest;
  }

  /** A first character that cannot start the pattern is kept. */
  lemma ReplaceKeepsFirst(c: char, rest: string, pat: string, rep: string)
    requires pat != [] && c != pat[0]
    ensures Replace([c] + rest, pat, rep) == [c] + Replace(rest, pat, rep)
  {
    var s := [c] + rest;
    if |s| >= |pat| {
      assert s[..|pat|][0] != pat[0];
    }
    assert s[1..] == rest;
  }

  /** A prefix without the first character of the pattern is kept. */
  lemma {:induction false} ReplaceKeepsPrefix(h: string, rest: string, pat: string, rep: string)
    requires pat != [] && pat[0] !in h
    ensures Replace(h + rest, pat, rep) == h + Replace(rest, pat, rep)
    decreases |h|
  {
    if h != [] {
      assert h + rest == [h[0]] + (h[1..] + rest);
      ReplaceKeepsFirst(h[0], h[1..] + rest, pat, rep);
      ReplaceKeepsPrefix(h[1..], rest, pat, rep);
      assert [h[0]] + h[1..] == h;
      assert [h[0]] + (h[1..] + Replace(rest, pat, rep)) == h + Replace(rest, pat, rep);
    } else {
      assert h + rest == rest;
    }
  }

  /** Two occurrences with a separator that cannot start one between them. */
  lemma ReplaceTwice(pat: string, sep: string, rep: string)
    requires pat != [] && pat[0] !in sep
    ensures Replace(pat + sep + pat, pat, rep) == rep + sep + rep
  {
    assert pat + sep + pat == pat + (sep + pat);
    ReplaceLeading(pat, sep + pat, rep);
    ReplaceKeepsPrefix(sep, pat, pat, rep);
    assert pat + [] == pat;
    ReplaceLeading(pat, [], rep);
    assert rep + (sep + rep) == rep + sep + rep;
  }

  /** A first character that starts no occurrence is kept, and so is a run
      of characters that cannot start one; the occurrence after them is
      replaced. */
  lemma ReplaceAfterMismatch(c: char, mid: string, pat: string, rep: string)
    requires |pat| >= 2 && mid != [] && mid[0] != pat[1] && pat[0] !in mid
    ensures Replace([c] + mid + pat, pat, rep) == [c] + mid + rep
  {
    var t := mid + pat;
    var s := [c] + t;
    assert s == [c] + mid + pat;
    assert s[..|pat|][1] == mid[0];
    ReplaceNoMatch(s, pat, rep);
    assert s[1..] == t;
    ReplaceKeepsPrefix(mid, pat, pat, rep);
    assert pat + [] == pat;
    ReplaceLeading(pat, [], rep);
    assert [c] + (mid + rep) == [c] + mid + rep;
  }

  /** Where no occurrence starts, the first character is kept. */
  lemma ReplaceNoMatch(s: string, pat: string, rep: string)
    requires pat != [] && s != [] && !OccursAt(s, pat, 0)
    ensures Replace(s, pat, rep) == [s[0]] + Replace(s[1..], pat, rep)
  {
    if |s| >= |pat| {
      assert s[0..|pat|] == s[..|pat|];
    }
  }

  /** Replacing a single character by a text that does not contain it leaves
      no occurrence of that character. */
  lemma {:induction false} ReplaceCharRemoves(s: string, c: char, rep: string)
    requires c !in rep
    ensures c !in Replace(s, [c], rep)
    decreases |s|
  {
    if |s| >= 1 {
      ReplaceCharRemoves(s[1..], c, rep);
    }
  }

  /** Replacing a single character distributes over concatenation. */
  lemma {:induction false} ReplaceCharConcat(a: string, b: string, c: char, rep: string)
    ensures Replace(a + b, [c], rep) == Replace(a, [c], rep) + Replace(b, [c], rep)
    decreases |a|
  {
    if a != [] {
      assert (a + b)[1..] == a[1..] + b;
      assert (a + b)[..1] == a[..1];
      ReplaceCharConcat(a[1..], b, c, rep);
    } else {
      assert a + b == b;
    }
  }

  /** Each occurrence of the replaced character grows the text by `|rep| - 1`. */
  lemma {:induction false} ReplaceCharLength(s: string, c: char, rep: string)
    ensures |Replace(s, [c], rep)| == |s| + (|rep| - 1) * Count(s, c)
    decreases |s|
  {
    if s != [] {
      ReplaceCharLength(s[1..], c, rep);
    }
  }

  /** The number of occurrences of `c` in `s`. */
  function Count(s: string, c: char): nat {
    if s == [] then 0 else (if s[0] == c then 1 else 0) + Count(s[1..], c)
  }

  /** The first index of `c` in `s`. */
  function IndexOf(s: string, c: char): (i: nat)
    requires c in s
    ensures i < |s| && s[i] == c && c !in s[..i]
  {
    if s[0] == c then 0
    else
      var i := 1 + IndexOf(s[1..], c);
      assert s[..i] == [s[0]] + s[1..][..i - 1];
      i
  }

  /** `sep.join(parts)`. */
  function Join(parts: seq<string>, sep: char): string
    requires parts != []
  {
    if |parts| == 1 then parts[0] else parts[0] + [sep] + Join(parts[1..], sep)
  }

  /** `s.split(sep)`: the pieces between the separators, none of which holds
      the separator; joining them back gives `s`. */
  function Split(s: string, sep: char): (parts: seq<string>)
    ensures parts != []
    ensures forall k :: 0 <= k < |parts| ==> sep !in parts[k]
    ensures Join(parts, sep) == s
    decreases |s|
  {
    if sep !in s then [s]
    else
      var i := IndexOf(s, sep);
      var rest := Split(s[i + 1..], sep);
      assert s == s[..i] + [sep] + s[i + 1..];
      [s[..i]] + rest
  }

  /** Splitting undoes joining pieces that do not hold the separator. */
  lemma {:induction false} SplitJoin(parts: seq<string>, sep: char)
    requires parts != []
    requires forall k :: 0 <= k < |parts| ==> sep !in parts[k]
    ensures Split(Join(parts, sep), sep) == parts
    decreases |parts|
  {
    if |parts| > 1 {
      var s := Join(parts, sep);
      var tail := Join(parts[1..], sep);
      assert s == parts[0] + [sep] + tail;
      assert s[|parts[0]|] == sep;
      assert s[..|parts[0]|] == parts[0];
      assert IndexOf(s, sep) == |parts[0]|;
      assert s[|parts[0]| + 1..] == tail;
      SplitJoin(parts[1..], sep);
    }
  }
}
