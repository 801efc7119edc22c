/**
 * The JavaScript string operations the screens rely on, on `seq<char>`:
 * number printing (template literals, `String(n)`, `padStart`), `parseInt`,
 * `split`, `join`, `includes`, `startsWith`, `replace` with a string
 * pattern, `substring(0, n)`, `trim` and ASCII `toUpperCase`.
 */
module Strings {
  import opened Wrappers

  predicate IsDigit(c: char) {
    '0' <= c <= '9'
  }

  predicate AllDigits(s: string) {
    forall i :: 0 <= i < |s| ==> IsDigit(s[i])
  }

  function DigitChar(d: int): (c: char)
    requires 0 <= d < 10
    ensures IsDigit(c) && DigitValue(c) == d
  {
    (48 + d) as char
  }

  function DigitValue(c: char): int
    requires IsDigit(c)
  {
    c as int - 48
  }

  /** Decimal rendering of a natural number, as a template literal prints it. */
  function NatToString(n: nat): (s: string)
    ensures 1 <= |s| && AllDigits(s)
    ensures (n < 10) == (|s| == 1)
  {
    if n < 10 then [DigitChar(n)] else NatToString(n / 10) + [DigitChar(n % 10)]
  }

  /** Decimal rendering of an integer, with a leading '-' when it is negative. */
  function IntToString(i: int): (s: string)
    ensures 1 <= |s|
    ensures (i < 0) == (s[0] == '-')
  {
    if i < 0 then "-" + NatToString(-i) else NatToString(i)
  }

  /** The number a string of decimal digits denotes. */
  function DigitsValue(s: string): nat
    requires AllDigits(s)
  {
    if |s| == 0 then 0 else DigitsValue(s[..|s| - 1]) * 10 + DigitValue(s[|s| - 1])
  }

  lemma {:induction false} DigitsValueOfNatToString(n: nat)
    ensures DigitsValue(NatToString(n)) == n
  {
    if n >= 10 {
      var s := NatToString(n);
      DigitsValueOfNatToString(n / 10);
      assert s[..|s| - 1] == NatToString(n / 10);
    }
  }

  /** Four-digit numbers print as exactly four digits. */
  lemma NatToStringLength4(n: nat)
    requires 1000 <= n <= 9999
    ensures |NatToString(n)| == 4
  {
    assert |NatToString(n / 1000)| == 1;
    assert n / 100 / 10 == n / 1000;
    assert |NatToString(n / 100)| == 2;
    assert n / 10 / 10 == n / 100;
    assert |NatToString(n / 10)| == 3;
  }

  /** `String(n).padStart(2, '0')`. */
  function Pad2(n: nat): (s: string)
    ensures AllDigits(s) && 2 <= |s|
    ensures n < 100 ==> |s| == 2 && DigitsValue(s) == n
  {
    var digits := NatToString(n);
    DigitsValueOfNatToString(n);
    if n < 10 then
      assert DigitsValue("0" + digits) == n by {
        assert ("0" + digits)[..1] == "0";
      }
      "0" + digits
    else
      assert n < 100 ==> |digits| == 2 by {
        if n < 100 { assert n / 10 < 10; }
      }
      digits
  }

  // ---------------------------------------------------------------- parseInt

  /**
   * The characters `parseInt` and `trim` skip: ECMAScript's white space
   * (tab, vertical tab, form feed, space, no-break space, the byte-order
   * mark and the other space separators) and its line terminators.
   */
  predicate IsSpace(c: char) {
    c in SPACE_CHARS || '\U{2000}' <= c <= '\U{200A}'
  }

  /** The white-space characters outside the range U+2000..U+200A. */
  const SPACE_CHARS: set<char> := {
    ' ', '\t', '\n', '\r', '\U{000B}', '\U{000C}', '\U{00A0}', '\U{FEFF}',
    '\U{1680}', '\U{2028}', '\U{2029}', '\U{202F}', '\U{205F}', '\U{3000}'}

  function TrimStart(s: string): (r: string)
    ensures |r| <= |s| && r == s[|s| - |r|..]
    ensures |r| > 0 ==> !IsSpace(r[0])
    ensures forall i :: 0 <= i < |s| - |r| ==> IsSpace(s[i])
  {
    if |s| > 0 && IsSpace(s[0]) then TrimStart(s[1..]) else s
  }

  function TrimEnd(s: string): (r: string)
    ensures |r| <= |s| && r == s[..|r|]
    ensures |r| > 0 ==> !IsSpace(r[|r| - 1])
    ensures forall i :: |r| <= i < |s| ==> IsSpace(s[i])
  {
    if |s| > 0 && IsSpace(s[|s| - 1]) then TrimEnd(s[..|s| - 1]) else s
  }

  /** The number of white-space characters `s` starts with. */
  function LeadingSpaces(s: string): (k: nat)
    ensures k <= |s|
  {
    |s| - |TrimStart(s)|
  }

  /** `s.trim()`: the longest infix of `s` that neither starts nor ends with white space. */
  function Trim(s: string): (r: string)
    ensures |r| > 0 ==> !IsSpace(r[0]) && !IsSpace(r[|r| - 1])
    ensures LeadingSpaces(s) + |r| <= |s| && r == s[LeadingSpaces(s)..LeadingSpaces(s) + |r|]
    ensures forall i :: 0 <= i < LeadingSpaces(s) ==> IsSpace(s[i])
    ensures forall i :: LeadingSpaces(s) + |r| <= i < |s| ==> IsSpace(s[i])
  {
    var t := TrimStart(s);
    var r := TrimEnd(t);
    SuffixPrefix(s, t, r);
    r
  }

  /** A prefix `r` of a suffix `t` of `s` is an infix of `s`, and the rest of `t` is the rest of `s`. */
  lemma SuffixPrefix(s: string, t: string, r: string)
    requires |t| <= |s| && t == s[|s| - |t|..]
    requires |r| <= |t| && r == t[..|r|]
    ensures r == s[|s| - |t|..|s| - |t| + |r|]
    ensures forall i :: |r| <= i < |t| ==> t[i] == s[|s| - |t| + i]
  {
  }

  /** The length of the leading run of characters satisfying `p`. */
  function RunLength(s: string, p: char -> bool): (k: nat)
    ensures k <= |s|
    ensures forall i :: 0 <= i < k ==> p(s[i])
    ensures k < |s| ==> !p(s[k])
  {
    if |s| > 0 && p(s[0]) then 1 + RunLength(s[1..], p) else 0
  }

  predicate IsHexDigit(c: char) {
    IsDigit(c) || 'a' <= c <= 'f' || 'A' <= c <= 'F'
  }

  function HexValue(c: char): int
    requires IsHexDigit(c)
  {
    if IsDigit(c) then DigitValue(c) else if 'a' <= c <= 'f' then c as int - 87 else c as int - 55
  }

  function HexDigitsValue(s: string): nat
    requires forall i :: 0 <= i < |s| ==> IsHexDigit(s[i])
  {
    if |s| == 0 then 0 else HexDigitsValue(s[..|s| - 1]) * 16 + HexValue(s[|s| - 1])
  }

  /** The unsigned part of `parseInt`: a hexadecimal run after "0x"/"0X", else a decimal run. */
  function ParseMagnitude(u: string): Option<nat> {
    if |u| >= 2 && u[0] == '0' && (u[1] == 'x' || u[1] == 'X') then
      var k := RunLength(u[2..], IsHexDigit);
      if k == 0 then None else Some(HexDigitsValue(u[2..][..k]))
    else
      var k := RunLength(u, IsDigit);
      if k == 0 then None else Some(DigitsValue(u[..k]))
  }

  /**
   * `parseInt(s)` with no radix: leading white space is skipped, one sign is
   * allowed, a "0x"/"0X" prefix selects base 16, and the longest run of digits
   * that follows is read. No digit at all gives NaN, here `None`.
   */
  function ParseInt(s: string): Option<int> {
    var t := TrimStart(s);
    if |t| > 0 && t[0] == '-' then
      match ParseMagnitude(t[1..])
      case None => None
      case Some(v) => Some(0 - v)
    else if |t| > 0 && t[0] == '+' then
      match ParseMagnitude(t[1..])
      case None => None
      case Some(v) => Some(v as int)
    else
      match ParseMagnitude(t)
      case None => None
      case Some(v) => Some(v as int)
  }

  /** A string of digits reads back through `parseInt` as its magnitude. */
  lemma UnsignedDigits(digits: string, v: nat)
    requires |digits| > 0 && IsDigit(digits[0])
    requires ParseMagnitude(digits) == Some(v)
    ensures ParseInt(digits) == Some(v)
  {
    NoLeadingSpace(digits);
    assert digits[0] != '-' && digits[0] != '+';
  }

  lemma NoLeadingSpace(s: string)
    requires |s| > 0 && !IsSpace(s[0])
    ensures TrimStart(s) == s
  {
  }

  lemma NegatedDigits(digits: string, v: nat)
    requires ParseMagnitude(digits) == Some(v)
    ensures ParseInt("-" + digits) == Some(0 - v)
  {
    var minus := "-" + digits;
    assert minus[0] == '-';
    NoLeadingSpace(minus);
    assert minus[1..] == digits;
  }

  lemma MagnitudeOfDigits(digits: string)
    requires |digits| > 0 && AllDigits(digits)
    ensures ParseMagnitude(digits) == Some(DigitsValue(digits))
  {
    AllDigitsRun(digits);
    assert digits[..|digits|] == digits;
    assert !(|digits| >= 2 && (digits[1] == 'x' || digits[1] == 'X')) by {
      if |digits| >= 2 { assert IsDigit(digits[1]); }
    }
  }

  /** Printing an integer and reading it back with `parseInt` gives the integer. */
  lemma ParseIntOfIntToString(i: int)
    ensures ParseInt(IntToString(i)) == Some(i)
  {
    var n: nat := if i < 0 then -i else i;
    var digits := NatToString(n);
    DigitsValueOfNatToString(n);
    MagnitudeOfDigits(digits);
    if i < 0 {
      NegatedDigits(digits, n);
    } else {
      UnsignedDigits(digits, n);
    }
  }

  lemma {:induction false} AllDigitsRun(s: string)
    requires AllDigits(s)
    ensures RunLength(s, IsDigit) == |s|
  {
    if |s| > 0 {
      AllDigitsRun(s[1..]);
    }
  }

  // ------------------------------------------------------ split, join, search

  /** `s.split(sep)` for a one-character separator. */
  function Split(s: string, sep: char): (parts: seq<string>)
    ensures |parts| >= 1
    ensures forall i, j :: 0 <= i < |parts| && 0 <= j < |parts[i]| ==> parts[i][j] != sep
  {
    if |s| == 0 then [""]
    else if s[0] == sep then [""] + Split(s[1..], sep)
    else
      var rest := Split(s[1..], sep);
      [[s[0]] + rest[0]] + rest[1..]
  }

  /** `parts.join(sep)`. */
  function Join(parts: seq<string>, sep: string): string {
    if |parts| == 0 then ""
    else if |parts| == 1 then parts[0]
    else parts[0] + sep + Join(parts[1..], sep)
  }

  /** Joining the pieces of a split with the separator restores the string. */
  lemma {:induction false} JoinSplit(s: string, sep: char)
    ensures Join(Split(s, sep), [sep]) == s
  {
    if |s| > 0 {
      JoinSplit(s[1..], sep);
      var rest := Split(s[1..], sep);
      if s[0] == sep {
        assert Split(s, sep)[1..] == rest;
      } else {
        var parts := Split(s, sep);
        assert parts[1..] == rest[1..];
        if |rest| == 1 {
          assert Join(parts, [sep]) == [s[0]] + rest[0];
        } else {
          assert Join(rest, [sep]) == rest[0] + [sep] + Join(rest[1..], [sep]);
          assert Join(parts, [sep]) == [s[0]] + rest[0] + [sep] + Join(rest[1..], [sep]);
        }
        assert s == [s[0]] + s[1..];
      }
    }
  }

  /** Splitting pieces that do not contain the separator after joining them gives the pieces back. */
  lemma {:induction false} SplitJoin(parts: seq<string>, sep: char)
    requires |parts| >= 1
    requires forall i, j :: 0 <= i < |parts| && 0 <= j < |parts[i]| ==> parts[i][j] != sep
    ensures Split(Join(parts, [sep]), sep) == parts
  {
    if |parts| == 1 {
      SplitFree(parts[0], sep);
    } else {
      SplitJoin(parts[1..], sep);
      SplitPrefix(parts[0], sep, Join(parts[1..], [sep]));
      assert [sep] + Join(parts[1..], [sep]) == [sep] + Join(parts[1..], [sep]);
      assert parts[0] + [sep] + Join(parts[1..], [sep]) == parts[0] + ([sep] + Join(parts[1..], [sep]));
      assert [parts[0]] + parts[1..] == parts;
    }
  }

  lemma {:induction false} SplitFree(s: string, sep: char)
    requires forall j :: 0 <= j < |s| ==> s[j] != sep
    ensures Split(s, sep) == [s]
  {
    if |s| > 0 {
      SplitFree(s[1..], sep);
      assert [s[0]] + s[1..] == s;
    }
  }

  lemma {:induction false} SplitPrefix(a: string, sep: char, rest: string)
    requires forall j :: 0 <= j < |a| ==> a[j] != sep
    ensures Split(a + ([sep] + rest), sep) == [a] + Split(rest, sep)
  {
    if |a| == 0 {
      assert a + ([sep] + rest) == [sep] + rest;
      assert ([sep] + rest)[1..] == rest;
    } else {
      SplitPrefix(a[1..], sep, rest);
      assert (a + ([sep] + rest))[1..] == a[1..] + ([sep] + rest);
      assert [a[0]] + a[1..] == a;
    }
  }

  /** The characters of a printed integer are digits and the minus sign. */
  lemma IntToStringChars(i: int)
    ensures forall j :: 0 <= j < |IntToString(i)| ==> IsDigit(IntToString(i)[j]) || IntToString(i)[j] == '-'
  {
  }

  /**
   * `s.split(sep)` for a separator of any non-empty length: the pieces between
   * the occurrences of `sep`, found from the left without overlapping.
   */
  function SplitOn(s: string, sep: string): (parts: seq<string>)
    requires |sep| > 0
    ensures |parts| >= 1
    decreases |s|
  {
    if StartsWith(s, sep) then [""] + SplitOn(s[|sep|..], sep)
    else if |s| == 0 then [""]
    else
      var rest := SplitOn(s[1..], sep);
      [[s[0]] + rest[0]] + rest[1..]
  }

  /** With a one-character separator the two splits agree. */
  lemma {:induction false} SplitOnOneChar(s: string, c: char)
    ensures SplitOn(s, [c]) == Split(s, c)
  {
    if |s| > 0 {
      SplitOnOneChar(s[1..], c);
      assert StartsWith(s, [c]) <==> s[0] == c;
    }
  }

  /** `sep` occurs in `p + sep` only at its end, so a split sees `p` whole. */
  predicate SepOnlyAtEnd(p: string, sep: string) {
    forall i :: 0 <= i < |p| ==> !StartsWith((p + sep)[i..], sep)
  }

  /**
   * A piece keeps the separator out when one character of the separator
   * occurs neither in the piece nor earlier in the separator.
   */
  lemma SepOnlyAtEndByChar(p: string, sep: string, k: nat)
    requires k < |sep|
    requires forall j :: 0 <= j < |p| ==> p[j] != sep[k]
    requires forall j :: 0 <= j < k ==> sep[j] != sep[k]
    ensures SepOnlyAtEnd(p, sep)
  {
    forall i | 0 <= i < |p|
      ensures !StartsWith((p + sep)[i..], sep)
    {
      var t := (p + sep)[i..];
      if i + k < |p| {
        assert t[k] == p[i + k];
      } else {
        assert t[k] == sep[i + k - |p|];
      }
      assert t[k] != sep[k];
    }
  }

  /** Dropping a piece's first character keeps the separator out of it. */
  lemma SepOnlyAtEndTail(p: string, sep: string)
    requires |p| > 0 && SepOnlyAtEnd(p, sep)
    ensures SepOnlyAtEnd(p[1..], sep)
  {
    var tail := p[1..];
    forall i | 0 <= i < |tail|
      ensures !StartsWith((tail + sep)[i..], sep)
    {
      assert (tail + sep)[i..] == (p + sep)[i + 1..];
    }
  }

  /** A piece that keeps the separator out does not start with it. */
  lemma SepOnlyAtEndHead(p: string, sep: string, rest: string)
    requires |p| > 0 && SepOnlyAtEnd(p, sep)
    requires rest == "" || StartsWith(rest, sep)
    ensures !StartsWith(p + rest, sep)
  {
    assert !StartsWith((p + sep)[0..], sep);
    if |sep| <= |p| {
      assert (p + sep)[0..][..|sep|] == (p + rest)[..|sep|];
    } else if rest != "" {
      assert (p + sep)[0..][..|sep|] == (p + rest)[..|sep|];
    }
  }

  lemma {:induction false} SplitOnPrefix(p: string, sep: string, rest: string)
    requires |sep| > 0 && SepOnlyAtEnd(p, sep)
    ensures SplitOn(p + sep + rest, sep) == [p] + SplitOn(rest, sep)
  {
    var s := p + sep + rest;
    if |p| == 0 {
      assert s == sep + rest;
      assert s[..|sep|] == sep && s[|sep|..] == rest;
    } else {
      assert s == p + (sep + rest);
      SepOnlyAtEndHead(p, sep, sep + rest);
      SepOnlyAtEndTail(p, sep);
      SplitOnPrefix(p[1..], sep, rest);
      assert s[1..] == p[1..] + sep + rest;
      assert [p[0]] + p[1..] == p;
    }
  }

  lemma {:induction false} SplitOnFree(p: string, sep: string)
    requires |sep| > 0 && SepOnlyAtEnd(p, sep)
    ensures SplitOn(p, sep) == [p]
  {
    if |p| > 0 {
      SepOnlyAtEndHead(p, sep, "");
      assert p + "" == p;
      SepOnlyAtEndTail(p, sep);
      SplitOnFree(p[1..], sep);
      assert [p[0]] + p[1..] == p;
    }
  }

  /** Splitting a join on its separator gives back the pieces, when no piece lets the separator match early. */
  lemma {:induction false} SplitOnJoin(parts: seq<string>, sep: string)
    requires |sep| > 0 && |parts| >= 1
    requires forall i :: 0 <= i < |parts| ==> SepOnlyAtEnd(parts[i], sep)
    ensures SplitOn(Join(parts, sep), sep) == parts
  {
    if |parts| == 1 {
      SplitOnFree(parts[0], sep);
    } else {
      SplitOnJoin(parts[1..], sep);
      SplitOnPrefix(parts[0], sep, Join(parts[1..], sep));
      assert [parts[0]] + parts[1..] == parts;
    }
  }

  /** Every character `replace` leaves is from the string or from the replacement. */
  lemma {:induction false} ReplaceFirstChars(s: string, pattern: string, replacement: string, c: char)
    requires c in ReplaceFirst(s, pattern, replacement)
    ensures c in s || c in replacement
  {
    if !StartsWith(s, pattern) && |s| > 0 {
      if c != s[0] {
        ReplaceFirstChars(s[1..], pattern, replacement, c);
      }
    } else if StartsWith(s, pattern) {
      if c !in replacement {
        assert c in s[|pattern|..];
      }
    }
  }

  /** `s.startsWith(p)`. */
  predicate StartsWith(s: string, p: string) {
    |p| <= |s| && s[..|p|] == p
  }

  /** `s.includes(sub)`. */
  predicate Contains(s: string, sub: string) {
    StartsWith(s, sub) || (|s| > 0 && Contains(s[1..], sub))
  }

  /** A string cannot include a pattern whose first character it lacks. */
  lemma {:induction false} ContainsNeedsFirstChar(s: string, sub: string)
    requires |sub| > 0 && sub[0] !in s
    ensures !Contains(s, sub)
  {
    if |s| > 0 {
      assert s[0] != sub[0];
      ContainsNeedsFirstChar(s[1..], sub);
    }
  }

  /** `s.replace(pattern, replacement)` with a string pattern: only the first occurrence is replaced. */
  function ReplaceFirst(s: string, pattern: string, replacement: string): string {
    if StartsWith(s, pattern) then replacement + s[|pattern|..]
    else if |s| == 0 then s
    else [s[0]] + ReplaceFirst(s[1..], pattern, replacement)
  }

  /** A string that does not include the pattern is left as it is by `replace`. */
  lemma {:induction false} ReplaceFirstAbsent(s: string, pattern: string, replacement: string)
    requires !Contains(s, pattern)
    ensures ReplaceFirst(s, pattern, replacement) == s
  {
    if |s| > 0 {
      ReplaceFirstAbsent(s[1..], pattern, replacement);
    }
  }

  /** `s.substring(0, n)` for n >= 0. */
  function Prefix(s: string, n: nat): (r: string)
    ensures |r| == if n < |s| then n else |s|
    ensures r == s[..|r|]
  {
    if n < |s| then s[..n] else s
  }

  /** `s.toUpperCase()` on ASCII letters; other characters are kept. */
  function UpperAscii(s: string): (r: string)
    ensures |r| == |s|
    ensures forall i :: 0 <= i < |s| ==> r[i] == if 'a' <= s[i] <= 'z' then (s[i] as int - 32) as char else s[i]
  {
    if |s| == 0 then "" else
      [if 'a' <= s[0] <= 'z' then (s[0] as int - 32) as char else s[0]] + UpperAscii(s[1..])
  }

  /** `s.split(' ')[0]`: everything before the first space. */
  function FirstWord(s: string): (w: string)
    ensures StartsWith(s, w)
    ensures forall j :: 0 <= j < |w| ==> w[j] != ' '
    ensures |w| < |s| ==> s[|w|] == ' '
  {
    FirstPiece(s, ' ');
    Split(s, ' ')[0]
  }

  lemma {:induction false} FirstPiece(s: string, sep: char)
    ensures StartsWith(s, Split(s, sep)[0])
    ensures |Split(s, sep)[0]| < |s| ==> s[|Split(s, sep)[0]|] == sep
  {
    if |s| > 0 && s[0] != sep {
      FirstPiece(s[1..], sep);
    }
  }
}
