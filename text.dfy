/**
 * The handful of Python string operations the receipt extractor and the
 * route-sheet projector use, written out over `string` (= `seq<char>`):
 * substring test (`in`), `strip()`, ASCII `lower()`, `split`/`join` on one
 * separator character, `replace` of one character, the first `\d+` run
 * and `int()` of a digit string.
 */
module Text {
  import opened Wrappers

  /** An ASCII decimal digit, what `\d` matches in the model. */
  predicate IsDigit(c: char)
  {
    '0' <= c <= '9'
  }

  /** The characters Python's `str.isspace()` (and `\s` on `str`) accepts. */
  predicate IsSpace(c: char)
  {
    c == ' ' || c == '\t' || c == '\n' || c == '\r' || c == '\U{0B}' || c == '\U{0C}'
    || ('\U{1C}' <= c <= '\U{1F}') || c == '\U{85}' || c == '\U{A0}' || c == '\U{1680}'
    || ('\U{2000}' <= c <= '\U{200A}') || c == '\U{2028}' || c == '\U{2029}'
    || c == '\U{202F}' || c == '\U{205F}' || c == '\U{3000}'
  }

  predicate AllDigits(s: string)
  {
    forall i :: 0 <= i < |s| ==> IsDigit(s[i])
  }

  // ---------------------------------------------------------------------------
  // Substring test: Python's `sub in s`
  // ---------------------------------------------------------------------------

  /** `sub` occurs in `s` starting at index `i`. */
  predicate OccursAt(s: string, sub: string, i: int)
  {
    0 <= i && i + |sub| <= |s| && s[i..i + |sub|] == sub
  }

  /** Python's `sub in s`. */
  predicate Contains(s: string, sub: string)
  {
    exists i :: 0 <= i <= |s| - |sub| && OccursAt(s, sub, i)
  }

  /** A string contains every piece it is built from. */
  lemma ContainsPiece(a: string, sub: string, b: string)
    ensures Contains(a + sub + b, sub)
  {
    assert OccursAt(a + sub + b, sub, |a|);
  }

  /** A string that contains `sub` contains each of its characters. */
  lemma ContainsChars(s: string, sub: string, j: nat)
    requires Contains(s, sub) && j < |sub|
    ensures sub[j] in s
  {
    var i :| 0 <= i <= |s| - |sub| && OccursAt(s, sub, i);
    assert s[i + j] == s[i..i + |sub|][j];
  }

  /** A string lacking one of the characters of `sub` does not contain `sub`. */
  lemma NotContainsByChar(s: string, sub: string, j: nat)
    requires j < |sub| && sub[j] !in s
    ensures !Contains(s, sub)
  {
    if Contains(s, sub) {
      ContainsChars(s, sub, j);
    }
  }

  // ---------------------------------------------------------------------------
  // Case folding: Python's `lower()` restricted to ASCII letters
  // ---------------------------------------------------------------------------

  function LowerChar(c: char): char
  {
    if 'A' <= c <= 'Z' then (c as int - 'A' as int + 'a' as int) as char else c
  }

  function Lower(s: string): (r: string)
    ensures |r| == |s|
    ensures forall i :: 0 <= i < |s| ==> r[i] == LowerChar(s[i])
  {
    seq(|s|, i requires 0 <= i < |s| => LowerChar(s[i]))
  }

  // ---------------------------------------------------------------------------
  // Python's `strip()`
  // ---------------------------------------------------------------------------

  /** Number of whitespace characters at the front of `s`. */
  function LeadingSpaces(s: string): (k: nat)
    ensures k <= |s|
    ensures forall i :: 0 <= i < k ==> IsSpace(s[i])
    ensures k == |s| || !IsSpace(s[k])
  {
    if |s| > 0 && IsSpace(s[0]) then 1 + LeadingSpaces(s[1..]) else 0
  }

  /** Number of whitespace characters at the end of `s`. */
  function TrailingSpaces(s: string): (k: nat)
    ensures k <= |s|
    ensures forall i :: |s| - k <= i < |s| ==> IsSpace(s[i])
    ensures k == |s| || !IsSpace(s[|s| - 1 - k])
  {
    if |s| > 0 && IsSpace(s[|s| - 1]) then 1 + TrailingSpaces(s[..|s| - 1]) else 0
  }

  /** Python's `s.strip()`: drop the whitespace at both ends and keep the middle slice. */
  function Strip(s: string): (r: string)
    ensures r == [] || (!IsSpace(r[0]) && !IsSpace(r[|r| - 1]))
  {
    var a := LeadingSpaces(s);
    s[a..|s| - TrailingSpaces(s[a..])]
  }

  /** A string with no whitespace at either end is left alone by `strip()`. */
  lemma StripNoop(s: string)
    requires s == [] || (!IsSpace(s[0]) && !IsSpace(s[|s| - 1]))
    ensures Strip(s) == s
  {
  }

  // ---------------------------------------------------------------------------
  // `re.search(r"(\d+)", s)`: the first maximal run of digits
  // ---------------------------------------------------------------------------

  /** The digits at the front of `s`, as many as there are. */
  function LeadingDigits(s: string): (r: string)
    ensures r <= s && AllDigits(r)
    ensures |r| == |s| || !IsDigit(s[|r|])
  {
    if |s| > 0 && IsDigit(s[0]) then [s[0]] + LeadingDigits(s[1..]) else []
  }

  /** Index of the first digit of `s`, if there is one. */
  function FirstDigit(s: string): (r: Option<nat>)
    ensures r.None? <==> forall i :: 0 <= i < |s| ==> !IsDigit(s[i])
    ensures r.Some? ==> r.value < |s| && IsDigit(s[r.value])
                        && forall i :: 0 <= i < r.value ==> !IsDigit(s[i])
  {
    if |s| == 0 then None
    else if IsDigit(s[0]) then Some(0)
    else match FirstDigit(s[1..])
      case None => None
      case Some(k) => Some(k + 1)
  }

  /** Group 1 of `re.search(r"(\d+)", s)`: the leftmost maximal digit run. */
  function FirstDigitRun(s: string): (r: Option<string>)
    ensures r.None? <==> forall i :: 0 <= i < |s| ==> !IsDigit(s[i])
    ensures r.Some? ==> r.value != [] && AllDigits(r.value)
  {
    match FirstDigit(s)
    case None => None
    case Some(k) => Some(LeadingDigits(s[k..]))
  }

  /** A digit-free prefix is skipped: the run is the digits the rest starts with. */
  lemma {:induction false} FirstDigitRunAfter(pre: string, rest: string)
    requires forall i :: 0 <= i < |pre| ==> !IsDigit(pre[i])
    requires |rest| > 0 && IsDigit(rest[0])
    ensures FirstDigitRun(pre + rest) == Some(LeadingDigits(rest))
    decreases |pre|
  {
    if pre == [] {
      assert pre + rest == rest;
    } else {
      assert (pre + rest)[1..] == pre[1..] + rest;
      FirstDigitRunAfter(pre[1..], rest);
    }
  }

  /** Leading digits stop at the first non-digit. */
  lemma {:induction false} LeadingDigitsStop(ds: string, rest: string)
    requires AllDigits(ds)
    requires rest == [] || !IsDigit(rest[0])
    ensures LeadingDigits(ds + rest) == ds
    decreases |ds|
  {
    if ds == [] {
      assert ds + rest == rest;
    } else {
      assert (ds + rest)[1..] == ds[1..] + rest;
      LeadingDigitsStop(ds[1..], rest);
    }
  }

  // ---------------------------------------------------------------------------
  // Python's `int()` on a digit string, and single digit characters
  // ---------------------------------------------------------------------------

  function DigitValue(c: char): nat
    requires IsDigit(c)
  {
    c as int - '0' as int
  }

  function DigitChar(n: nat): (c: char)
    requires n < 10
    ensures IsDigit(c) && DigitValue(c) == n
  {
    ('0' as int + n) as char
  }

  /** Python's `int(ds)` for a string of ASCII digits (leading zeros allowed). */
  function DigitsValue(ds: string): (n: nat)
    requires AllDigits(ds)
  {
    if ds == [] then 0
    else DigitsValue(ds[..|ds| - 1]) * 10 + DigitValue(ds[|ds| - 1])
  }

  // ---------------------------------------------------------------------------
  // Python's `s.replace(a, b)` for single characters
  // ---------------------------------------------------------------------------

  function ReplaceChar(s: string, a: char, b: char): (r: string)
    ensures |r| == |s|
    ensures forall i :: 0 <= i < |s| ==> r[i] == (if s[i] == a then b else s[i])
  {
    seq(|s|, i requires 0 <= i < |s| => if s[i] == a then b else s[i])
  }

  /** After replacing `a` by another character, no `a` is left. */
  lemma ReplaceRemoves(s: string, a: char, b: char)
    requires a != b
    ensures a !in ReplaceChar(s, a, b)
  {
  }

  /** Replacing a character that does not occur changes nothing. */
  lemma ReplaceAbsent(s: string, a: char, b: char)
    requires a !in s
    ensures ReplaceChar(s, a, b) == s
  {
  }

  /** Replacing `a` by a character `b` the string lacks is undone by replacing `b` by `a`. */
  lemma ReplaceRoundTrip(s: string, a: char, b: char)
    requires b !in s
    ensures ReplaceChar(ReplaceChar(s, a, b), b, a) == s
  {
  }

  // ---------------------------------------------------------------------------
  // Python's `s.split(sep)` and `sep.join(parts)` for one separator character
  // ---------------------------------------------------------------------------

  /** Python's `s.split(sep)`: never empty; no part contains `sep`. */
  function Split(s: string, sep: char): (parts: seq<string>)
    ensures |parts| >= 1
    ensures forall j :: 0 <= j < |parts| ==> sep !in parts[j]
  {
    if s == [] then [[]]
    else
      var rest := Split(s[1..], sep);
      if s[0] == sep then [[]] + rest
      else [[s[0]] + rest[0]] + rest[1..]
  }

  /** Python's `sep.join(parts)`. */
  function Join(sep: char, parts: seq<string>): (s: string)
  {
    if |parts| == 0 then []
    else if |parts| == 1 then parts[0]
    else parts[0] + [sep] + Join(sep, parts[1..])
  }

  /** Joining three parts puts the separator between them. */
  lemma Join3(a: string, b: string, c: string, sep: char)
    ensures Join(sep, [a, b, c]) == a + [sep] + b + [sep] + c
  {
    assert [a, b, c][1..] == [b, c];
    assert [b, c][1..] == [c];
    assert Join(sep, [b, c]) == b + [sep] + c;
    assert a + [sep] + (b + [sep] + c) == a + [sep] + b + [sep] + c;
  }

  /** Splitting a join of separator-free parts gives the parts back. */
  lemma {:induction false} SplitJoin(parts: seq<string>, sep: char)
    requires |parts| >= 1
    requires forall j :: 0 <= j < |parts| ==> sep !in parts[j]
    ensures Split(Join(sep, parts), sep) == parts
    decreases |parts|, |parts[0]|
  {
    var p := parts[0];
    if p == [] {
      if |parts| > 1 {
        SplitJoin(parts[1..], sep);
        assert Join(sep, parts) == [sep] + Join(sep, parts[1..]);
        assert Join(sep, parts)[1..] == Join(sep, parts[1..]);
        assert [[]] + parts[1..] == parts;
      }
    } else {
      var shorter := [p[1..]] + parts[1..];
      SplitJoin(shorter, sep);
      assert p[0] != sep by { assert p[0] in parts[0]; }
      if |parts| == 1 {
        assert Join(sep, parts)[1..] == Join(sep, shorter);
      } else {
        assert shorter[1..] == parts[1..];
        assert Join(sep, parts)[1..] == Join(sep, shorter);
      }
      assert p == [p[0]] + p[1..];
      assert [[p[0]] + p[1..]] + shorter[1..] == parts;
    }
  }

  /** Swapping the separator of a join: replacing `a` by `b` in an `a`-join of `a`-free parts is the `b`-join. */
  lemma {:induction false} ReplaceJoin(parts: seq<string>, a: char, b: char)
    requires forall j :: 0 <= j < |parts| ==> a !in parts[j]
    ensures ReplaceChar(Join(a, parts), a, b) == Join(b, parts)
    decreases |parts|
  {
    if |parts| == 1 {
      ReplaceAbsent(parts[0], a, b);
    } else if |parts| > 1 {
      ReplaceJoin(parts[1..], a, b);
      ReplaceAbsent(parts[0], a, b);
      var tail := Join(a, parts[1..]);
      ReplaceConcat(parts[0] + [a], tail, a, b);
      ReplaceConcat(parts[0], [a], a, b);
    }
  }

  /** Replacing characters commutes with concatenation. */
  lemma ReplaceConcat(s: string, t: string, a: char, b: char)
    ensures ReplaceChar(s + t, a, b) == ReplaceChar(s, a, b) + ReplaceChar(t, a, b)
  {
  }
}
