/** The few Python `str` operations the core relies on: strip, lower/upper, find/rfind,
    split/join, `int(...)` on text and `str(...)` on integers.  Case mapping is ASCII
    only and whitespace is Python's ASCII whitespace plus U+0085 and U+00A0. */
module Strings {
  import opened Wrappers
  import opened Sequences

  /** The characters `str.strip()` and `int()` treat as whitespace, restricted to Latin-1;
      Python's other Unicode spaces (U+2000..U+200A, U+2028, U+3000, ...) are not included. */
  predicate IsSpace(c: char) {
    (9 <= c as int <= 13) || (28 <= c as int <= 32) || c as int == 0x85 || c as int == 0xA0
  }

  predicate IsDigit(c: char) { '0' <= c <= '9' }

  predicate AllDigits(s: string) { forall i :: 0 <= i < |s| ==> IsDigit(s[i]) }

  /** `s.lstrip(chars)`, with the stripped characters given as a predicate. */
  function StripStart(s: string, drop: char -> bool): (r: string)
    ensures |r| <= |s| && r == s[|s| - |r|..]
    ensures r == [] || !drop(r[0])
    ensures forall i :: 0 <= i < |s| - |r| ==> drop(s[i])
    decreases |s|
  {
    if s != [] && drop(s[0]) then
      var r := StripStart(s[1..], drop);
      DroppedFirst(s, drop, r);
      r
    else s
  }

  /** Stripping after a dropped first character strips that character too. */
  lemma DroppedFirst(s: string, drop: char -> bool, r: string)
    requires s != [] && drop(s[0])
    requires |r| <= |s| - 1 && r == s[1..][|s| - 1 - |r|..]
    requires forall i :: 0 <= i < |s| - 1 - |r| ==> drop(s[1..][i])
    ensures r == s[|s| - |r|..]
    ensures forall i :: 0 <= i < |s| - |r| ==> drop(s[i])
  {
    forall i | 0 <= i < |s| - |r| ensures drop(s[i]) {
      if i > 0 { assert s[i] == s[1..][i - 1]; }
    }
  }

  /** `s.rstrip(chars)`. */
  function StripEnd(s: string, drop: char -> bool): (r: string)
    ensures |r| <= |s| && r == s[..|r|]
    ensures r == [] || !drop(r[|r| - 1])
    ensures forall i :: |r| <= i < |s| ==> drop(s[i])
    decreases |s|
  {
    if s != [] && drop(s[|s| - 1]) then StripEnd(s[..|s| - 1], drop) else s
  }

  /** `s.strip(chars)`: the longest middle part that neither starts nor ends with a stripped character. */
  function Strip(s: string, drop: char -> bool): (r: string)
    ensures |r| <= |s|
    ensures r == [] || (!drop(r[0]) && !drop(r[|r| - 1]))
  {
    StripEnd(StripStart(s, drop), drop)
  }

  /** Python's `str.strip()` with no argument. */
  function StripSpace(s: string): (r: string)
    ensures |r| <= |s|
    ensures r == [] || (!IsSpace(r[0]) && !IsSpace(r[|r| - 1]))
  {
    Strip(s, IsSpace)
  }

  /** Stripping takes a slice: the result starts at some position `k` of the input, and every
      character removed before or after it is a stripped one. */
  lemma StripSlice(s: string, drop: char -> bool) returns (k: nat)
    ensures k + |Strip(s, drop)| <= |s| && Strip(s, drop) == s[k..k + |Strip(s, drop)|]
    ensures forall i :: 0 <= i < k ==> drop(s[i])
    ensures forall i :: k + |Strip(s, drop)| <= i < |s| ==> drop(s[i])
  {
    var u := StripStart(s, drop);
    k := |s| - |u|;
    SliceOfSlice(s, u, Strip(s, drop), k, drop);
  }

  /** A prefix `r` of a suffix `u` of `s` is a slice of `s`; characters of `s` before `u`, and
      characters of `u` after `r`, are the ones around that slice. */
  lemma SliceOfSlice(s: string, u: string, r: string, k: nat, drop: char -> bool)
    requires k <= |s| && u == s[k..] && |r| <= |u| && r == u[..|r|]
    requires forall i :: 0 <= i < k ==> drop(s[i])
    requires forall i :: |r| <= i < |u| ==> drop(u[i])
    ensures k + |r| <= |s| && r == s[k..k + |r|]
    ensures forall i :: 0 <= i < k ==> drop(s[i])
    ensures forall i :: k + |r| <= i < |s| ==> drop(s[i])
  {
    forall i | k + |r| <= i < |s| ensures drop(s[i]) {
      assert s[i] == u[i - k];
    }
  }

  lemma StripUnchanged(s: string, drop: char -> bool)
    requires s == [] || (!drop(s[0]) && !drop(s[|s| - 1]))
    ensures Strip(s, drop) == s
  {
  }

  /** Text that neither starts nor ends with whitespace is unchanged by `strip()`. */
  lemma StripSpaceUnchanged(s: string)
    requires s != [] && !IsSpace(s[0]) && !IsSpace(s[|s| - 1])
    ensures StripSpace(s) == s
  {
    StripUnchanged(s, IsSpace);
  }

  /** Stripping twice is stripping once. */
  lemma StripSpaceIdempotent(s: string)
    ensures StripSpace(StripSpace(s)) == StripSpace(s)
  {
    if StripSpace(s) != [] {
      StripSpaceUnchanged(StripSpace(s));
    }
  }

  function LowerChar(c: char): char {
    if 'A' <= c <= 'Z' then (c as int + 32) as char else c
  }

  function UpperChar(c: char): char {
    if 'a' <= c <= 'z' then (c as int - 32) as char else c
  }

  /** `s.lower()` (ASCII letters only). */
  function Lower(s: string): (r: string)
    ensures |r| == |s| && forall i :: 0 <= i < |s| ==> r[i] == LowerChar(s[i])
  {
    seq(|s|, i requires 0 <= i < |s| => LowerChar(s[i]))
  }

  /** `s.upper()` (ASCII letters only). */
  function Upper(s: string): (r: string)
    ensures |r| == |s| && forall i :: 0 <= i < |s| ==> r[i] == UpperChar(s[i])
  {
    seq(|s|, i requires 0 <= i < |s| => UpperChar(s[i]))
  }

  /** Lower-casing commutes with slicing. */
  lemma LowerSlices(s: string, j: nat)
    requires j <= |s|
    ensures Lower(s)[j..] == Lower(s[j..]) && Lower(s)[..j] == Lower(s[..j])
  {
  }

  /** `s.rfind(c)`: the position of the last `c`, or -1 when there is none. */
  function LastIndexOf(s: string, c: char): (i: int)
    ensures -1 <= i < |s|
    ensures i == -1 <==> c !in s
    ensures i >= 0 ==> s[i] == c
    ensures c !in s[i + 1..]
    decreases |s|
  {
    if s == [] then -1
    else if s[|s| - 1] == c then |s| - 1
    else
      var i := LastIndexOf(s[..|s| - 1], c);
      NotAfterLast(s, c, i);
      i
  }

  /** A `c` that is not in `s` after position `i`, save for its last character, and is not
      that last character, is not in `s` after `i`. */
  lemma NotAfterLast(s: string, c: char, i: int)
    requires s != [] && -1 <= i < |s| - 1 && s[|s| - 1] != c
    requires c !in s[..|s| - 1][i + 1..]
    requires i == -1 <==> c !in s[..|s| - 1]
    ensures c !in s[i + 1..]
    ensures i == -1 <==> c !in s
  {
    assert s[i + 1..] == s[..|s| - 1][i + 1..] + [s[|s| - 1]];
    assert s == s[..|s| - 1] + [s[|s| - 1]];
  }

  /** A `c` with no `c` after it is the last one. */
  lemma LastIndexOfAt(s: string, c: char, i: nat)
    requires i < |s| && s[i] == c && c !in s[i + 1..]
    ensures LastIndexOf(s, c) == i
  {
  }

  /** `s.split(sep)` for a one-character separator: the pieces between separators, empty ones included. */
  function Split(s: string, sep: char): (parts: seq<string>)
    ensures |parts| >= 1
    ensures forall k :: 0 <= k < |parts| ==> sep !in parts[k]
    decreases |s|
  {
    if sep !in s then [s]
    else
      var i := FirstIndex(s, sep);
      [s[..i]] + Split(s[i + 1..], sep)
  }

  /** `sep.join(parts)`. */
  function Join(sep: string, parts: seq<string>): string
    decreases |parts|
  {
    if |parts| == 0 then ""
    else if |parts| == 1 then parts[0]
    else parts[0] + sep + Join(sep, parts[1..])
  }

  /** A joined text starts with the first part and ends with the last, and with more than one
      part the separator follows the first part. */
  lemma {:induction false} JoinEnds(sep: string, parts: seq<string>)
    requires parts != []
    ensures var r := Join(sep, parts);
            parts[0] <= r && |parts[|parts| - 1]| <= |r| && r[|r| - |parts[|parts| - 1]|..] == parts[|parts| - 1]
    ensures |parts| > 1 ==> parts[0] + sep <= Join(sep, parts)
    decreases |parts|
  {
    if |parts| > 1 {
      var rest := Join(sep, parts[1..]);
      JoinEnds(sep, parts[1..]);
      var last := parts[|parts| - 1];
      assert parts[1..][|parts[1..]| - 1] == last;
      var r := parts[0] + sep + rest;
      assert r[|r| - |last|..] == rest[|rest| - |last|..];
    }
  }

  /** Splitting loses nothing: joining the pieces with the separator gives the text back. */
  lemma {:induction false} JoinSplit(s: string, sep: char)
    ensures Join([sep], Split(s, sep)) == s
    decreases |s|
  {
    if sep in s {
      var i := FirstIndex(s, sep);
      var rest := s[i + 1..];
      JoinSplit(rest, sep);
      assert Split(s, sep) == [s[..i]] + Split(rest, sep);
      assert s == s[..i] + [sep] + rest;
    }
  }

  function DigitValue(c: char): nat
    requires IsDigit(c)
  {
    c as int - '0' as int
  }

  function DigitChar(d: nat): (c: char)
    requires d < 10
    ensures IsDigit(c) && DigitValue(c) == d
  {
    ('0' as int + d) as char
  }

  /** The value of a run of decimal digits. */
  function DigitsValue(s: string): nat
    requires AllDigits(s)
    decreases |s|
  {
    if s == [] then 0 else DigitsValue(s[..|s| - 1]) * 10 + DigitValue(s[|s| - 1])
  }

  /** The integer literals `int` accepts once the text is stripped, restricted to ASCII: one
      or more decimal digits, or a sign '+' or '-' followed by one or more decimal digits. */
  predicate IsIntText(t: string) {
    (t != [] && AllDigits(t)) || (|t| >= 2 && (t[0] == '-' || t[0] == '+') && AllDigits(t[1..]))
  }

  /** The value such a literal denotes. */
  function IntTextValue(t: string): int
    requires IsIntText(t)
  {
    if t[0] == '-' then -(DigitsValue(t[1..]) as int)
    else if t[0] == '+' then DigitsValue(t[1..])
    else DigitsValue(t)
  }

  /** Python's `int(s)` on text, restricted to ASCII: surrounding whitespace, an optional sign,
      then at least one digit '0'..'9'; None otherwise. Python also accepts `_` between digits
      and non-ASCII decimal digits, which this reading refuses. */
  function ParseInt(s: string): (r: Option<int>)
    ensures r.Some? <==> IsIntText(StripSpace(s))
    ensures r.Some? ==> r.value == IntTextValue(StripSpace(s))
    ensures r.Some? ==> StripSpace(s) != [] && (r.value < 0 ==> StripSpace(s)[0] == '-')
  {
    ParseSigned(StripSpace(s))
  }

  /** `int` on text already stripped: an optional sign, then at least one decimal digit. */
  function ParseSigned(t: string): (r: Option<int>)
    ensures r.Some? <==> IsIntText(t)
    ensures r.Some? ==> r.value == IntTextValue(t)
    ensures r.Some? ==> t != [] && (r.value < 0 ==> t[0] == '-') && (t[0] == '-' ==> r.value <= 0)
    ensures r.Some? ==> t[0] == '-' || t[0] == '+' || IsDigit(t[0])
  {
    if t == [] then None
    else
      var negative := t[0] == '-';
      var digits := if t[0] == '-' || t[0] == '+' then t[1..] else t;
      if digits == [] || !AllDigits(digits) then None
      else
        var v: int := DigitsValue(digits);
        Some(if negative then -v else v)
  }

  /** Python's `str(n)` for a non-negative integer. */
  function NatToString(n: nat): (s: string)
    ensures s != [] && AllDigits(s)
  {
    if n < 10 then [DigitChar(n)] else NatToString(n / 10) + [DigitChar(n % 10)]
  }

  /** Python's `str(n)`. */
  function IntToString(n: int): (s: string)
    ensures s != [] && (s[0] == '-' <==> n < 0)
    ensures n >= 0 ==> AllDigits(s)
    ensures n < 0 ==> AllDigits(s[1..])
  {
    if n < 0 then "-" + NatToString(-n) else NatToString(n)
  }

  lemma {:induction false} NatToStringValue(n: nat)
    ensures DigitsValue(NatToString(n)) == n
  {
    if n >= 10 {
      var s := NatToString(n);
      NatToStringValue(n / 10);
      assert s[..|s| - 1] == NatToString(n / 10);
    }
  }

  lemma ParseDigits(sign: string, digits: string)
    requires sign == "" || sign == "-"
    requires digits != [] && AllDigits(digits)
    ensures var v: int := DigitsValue(digits); ParseInt(sign + digits) == Some(if sign == "" then v else -v)
  {
    var s := sign + digits;
    assert s[|s| - 1] == digits[|digits| - 1];
    assert IsDigit(digits[|digits| - 1]);
    assert !IsSpace(s[0]) && !IsSpace(s[|s| - 1]);
    StripUnchanged(s, IsSpace);
    if sign == "" {
      assert s == digits;
      ParseUnsigned(digits);
    } else {
      ParseNegative(digits);
    }
  }

  lemma ParseUnsigned(digits: string)
    requires digits != [] && AllDigits(digits)
    ensures ParseSigned(digits) == Some(DigitsValue(digits))
  {
    assert IsDigit(digits[0]);
  }

  lemma ParseNegative(digits: string)
    requires digits != [] && AllDigits(digits)
    ensures ParseSigned("-" + digits) == Some(0 - DigitsValue(digits))
  {
    var t := "-" + digits;
    assert t[0] == '-' && t[1..] == digits;
  }

  /** `int(str(n)) == n`: the decimal rendering used in page headers and file names reads back. */
  lemma IntToStringParses(n: int)
    ensures ParseInt(IntToString(n)) == Some(n)
  {
    var m: nat := if n < 0 then -n else n;
    NatToStringValue(m);
    if n < 0 {
      ParseDigits("-", NatToString(m));
    } else {
      ParseDigits("", NatToString(m));
      assert "" + NatToString(m) == NatToString(m);
    }
  }

  /** Different integers render differently. */
  lemma IntToStringInjective(m: int, n: int)
    requires IntToString(m) == IntToString(n)
    ensures m == n
  {
    IntToStringParses(m);
    IntToStringParses(n);
  }
}
