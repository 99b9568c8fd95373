/**
 * The JavaScript primitives the console's code leans on: the number that
 * `parseInt` produces, `String.prototype.trim`, `split` on one separator,
 * ASCII case folding and substring search. Strings are sequences of
 * characters; a JavaScript number is modelled only as far as `parseInt` can
 * produce one, an integer or NaN.
 */
module JsText {

  /** A JavaScript number as produced by `parseInt`: an integer, or NaN. */
  datatype Num = NaN | Int(value: int)

  /** A value that may be absent (`null` in the source). */
  datatype Option<T> = None | Some(value: T)

  /** The ECMAScript WhiteSpace and LineTerminator code points: what `trim`
      strips, what `parseInt` skips and what the regex class `\s` matches. */
  predicate IsWhitespace(c: char) {
    || c == '\t' || c == '\n' || c == '\U{000B}' || c == '\U{000C}' || c == '\r'
    || c == ' ' || c == '\U{00A0}' || c == '\U{1680}'
    || ('\U{2000}' <= c <= '\U{200A}')
    || c == '\U{2028}' || c == '\U{2029}' || c == '\U{202F}' || c == '\U{205F}'
    || c == '\U{3000}' || c == '\U{FEFF}'
  }

  predicate AllWhitespace(s: string) {
    forall i | 0 <= i < |s| :: IsWhitespace(s[i])
  }

  /** Every character of `s` from index `lo` up to `hi` is whitespace. */
  predicate WhitespaceBetween(s: string, lo: int, hi: int) {
    forall i | 0 <= lo <= i < hi <= |s| :: IsWhitespace(s[i])
  }

  /** The index of the first character at or after `i` that is not
      whitespace, or `|s|` when there is none. */
  function SkipSpace(s: string, i: nat): (k: nat)
    requires i <= |s|
    ensures i <= k <= |s|
    ensures WhitespaceBetween(s, i, k)
    ensures k == |s| || !IsWhitespace(s[k])
    decreases |s| - i
  {
    if i < |s| && IsWhitespace(s[i]) then SkipSpace(s, i + 1) else i
  }

  /** The index just after the last character before `j`, and not before
      `lo`, that is not whitespace, or `lo` when there is none. */
  function SkipSpaceBack(s: string, lo: nat, j: nat): (k: nat)
    requires lo <= j <= |s|
    ensures lo <= k <= j
    ensures WhitespaceBetween(s, k, j)
    ensures k == lo || !IsWhitespace(s[k - 1])
  {
    if lo < j && IsWhitespace(s[j - 1]) then SkipSpaceBack(s, lo, j - 1) else j
  }

  /** `s.trimStart()`: the suffix left after the leading whitespace. */
  function TrimStart(s: string): string {
    s[SkipSpace(s, 0)..]
  }

  /** How many characters `trim` strips from the front of `s`. */
  function TrimmedLead(s: string): nat {
    SkipSpace(s, 0)
  }

  /** `s.trim()`: the infix of `s` that starts and ends with a non-whitespace
      character, all that lies around it being whitespace. */
  function Trim(s: string): (r: string)
    ensures r == [] || (!IsWhitespace(r[0]) && !IsWhitespace(r[|r| - 1]))
    ensures TrimmedLead(s) + |r| <= |s| && r == s[TrimmedLead(s)..TrimmedLead(s) + |r|]
    ensures WhitespaceBetween(s, 0, TrimmedLead(s)) && WhitespaceBetween(s, TrimmedLead(s) + |r|, |s|)
  {
    var lead := SkipSpace(s, 0);
    s[lead..SkipSpaceBack(s, lead, |s|)]
  }

  /** Skipping whitespace from `i` ends at `k` when only whitespace lies
      between them and `s[k]` is not whitespace. */
  lemma {:induction false} SkipSpaceTo(s: string, i: nat, k: nat)
    requires i <= k < |s| && WhitespaceBetween(s, i, k) && !IsWhitespace(s[k])
    ensures SkipSpace(s, i) == k
    decreases k - i
  {
    if i < k {
      SkipSpaceTo(s, i + 1, k);
    }
  }

  /** Skipping whitespace backwards from `j` ends at `k` when only
      whitespace lies between them and `s[k - 1]` is not whitespace. */
  lemma {:induction false} SkipSpaceBackTo(s: string, lo: nat, j: nat, k: nat)
    requires lo < k <= j <= |s| && WhitespaceBetween(s, k, j) && !IsWhitespace(s[k - 1])
    ensures SkipSpaceBack(s, lo, j) == k
    decreases j - k
  {
    if k < j {
      SkipSpaceBackTo(s, lo, j - 1, k);
    }
  }

  /** Skipping whitespace after a whitespace prefix is skipping it in the
      rest, shifted by the prefix. */
  lemma {:induction false} SkipSpaceShift(ws: string, s: string, i: nat)
    requires AllWhitespace(ws) && i <= |s|
    ensures SkipSpace(ws + s, i + |ws|) == SkipSpace(s, i) + |ws|
    decreases |s| - i
  {
    var u := ws + s;
    if i < |s| {
      assert u[i + |ws|] == s[i];
      if IsWhitespace(s[i]) {
        SkipSpaceShift(ws, s, i + 1);
      }
    }
  }

  /** Skipping whitespace across a whitespace prefix. */
  lemma {:induction false} SkipSpacePrefix(ws: string, s: string, i: nat)
    requires AllWhitespace(ws) && i <= |ws|
    ensures SkipSpace(ws + s, i) == SkipSpace(s, 0) + |ws|
    decreases |ws| - i
  {
    if i < |ws| {
      assert (ws + s)[i] == ws[i];
      SkipSpacePrefix(ws, s, i + 1);
    } else {
      SkipSpaceShift(ws, s, 0);
    }
  }

  lemma TrimStartPadded(ws: string, s: string)
    requires AllWhitespace(ws)
    ensures TrimStart(ws + s) == TrimStart(s)
  {
    SkipSpacePrefix(ws, s, 0);
    var k := SkipSpace(s, 0);
    assert (ws + s)[k + |ws|..] == s[k..];
  }

  /** Trimming a string that neither starts nor ends with whitespace, padded
      on both sides with whitespace, gives back that string. */
  lemma TrimPadded(pre: string, t: string, post: string)
    requires AllWhitespace(pre) && AllWhitespace(post)
    requires t != [] && !IsWhitespace(t[0]) && !IsWhitespace(t[|t| - 1])
    ensures Trim(pre + t + post) == t
  {
    var s := pre + t + post;
    var lo, hi := |pre|, |pre| + |t|;
    assert s[lo] == t[0] && s[hi - 1] == t[|t| - 1];
    forall i | 0 <= i < lo ensures IsWhitespace(s[i]) {
      assert s[i] == pre[i];
    }
    forall i | hi <= i < |s| ensures IsWhitespace(s[i]) {
      assert s[i] == post[i - hi];
    }
    SkipSpaceTo(s, 0, lo);
    SkipSpaceBackTo(s, lo, |s|, hi);
    assert s[lo..hi] == t;
  }

  /** A string that neither starts nor ends with whitespace is its own
      trim. */
  lemma TrimUnpadded(t: string)
    requires t != [] && !IsWhitespace(t[0]) && !IsWhitespace(t[|t| - 1])
    ensures Trim(t) == t
  {
    TrimPadded([], t, []);
    assert [] + t + [] == t;
  }

  // ---------------------------------------------------------------------
  // parseInt

  predicate IsDigit(c: char, radix: nat) {
    || ('0' <= c <= '9' && (c as int) - ('0' as int) < radix)
    || (radix == 16 && ('a' <= c <= 'f' || 'A' <= c <= 'F'))
  }

  predicate AllDigits(s: string, radix: nat) {
    forall i | 0 <= i < |s| :: IsDigit(s[i], radix)
  }

  function DigitValue(c: char, radix: nat): (d: nat)
    requires IsDigit(c, radix)
    ensures d < radix
  {
    if '0' <= c <= '9' then (c as int) - ('0' as int)
    else if 'a' <= c <= 'f' then (c as int) - ('a' as int) + 10
    else (c as int) - ('A' as int) + 10
  }

  /** The longest prefix of `s` made of digits in `radix`. */
  function LeadingDigits(s: string, radix: nat): (r: string)
    ensures |r| <= |s| && r == s[..|r|]
    ensures AllDigits(r, radix)
    ensures |r| == |s| || !IsDigit(s[|r|], radix)
  {
    if |s| > 0 && IsDigit(s[0], radix) then [s[0]] + LeadingDigits(s[1..], radix) else []
  }

  /** The value of a digit string, most significant digit first. */
  function DigitsValue(ds: string, radix: nat): nat
    requires AllDigits(ds, radix)
  {
    if ds == [] then 0
    else DigitsValue(ds[..|ds| - 1], radix) * radix + DigitValue(ds[|ds| - 1], radix)
  }

  /** `parseInt(s)` with no radix: skip leading whitespace, take one sign,
      switch to radix 16 after `0x` or `0X`, then read the longest run of
      digits; no digit at all gives NaN. */
  function ParseInt(s: string): Num {
    var k := SkipSpace(s, 0);
    ParseSigned(s[k..])
  }

  /** `parseInt` after the leading whitespace is gone: one optional sign,
      then the magnitude. */
  function ParseSigned(t: string): Num {
    var signed := |t| > 0 && (t[0] == '-' || t[0] == '+');
    var u := if signed then t[1..] else t;
    var magnitude := ParseMagnitude(u);
    if magnitude.Int? && signed && t[0] == '-' then Int(-magnitude.value) else magnitude
  }

  /** The unsigned part of `parseInt`: hexadecimal after `0x` or `0X`,
      decimal otherwise. */
  function ParseMagnitude(u: string): (r: Num)
    ensures r.Int? ==> r.value >= 0
  {
    if |u| >= 2 && u[0] == '0' && (u[1] == 'x' || u[1] == 'X') then DigitRun(u[2..], 16)
    else DigitRun(u, 10)
  }

  /** The value of the leading digits of `s`, NaN when there are none. */
  function DigitRun(s: string, radix: nat): (r: Num)
    ensures r.Int? ==> r.value >= 0
  {
    var z := LeadingDigits(s, radix);
    if z == [] then NaN else Int(DigitsValue(z, radix))
  }

  /** Some character of `s` is a digit in base 16, which takes in the
      decimal digits. */
  predicate HasDigit(s: string) {
    exists i | 0 <= i < |s| :: IsDigit(s[i], 16)
  }

  /** `parseInt` yields a number only when `s` holds a digit: a string of
      spaces, signs and letters alone is NaN. */
  lemma ParseIntNeedsDigit(s: string)
    ensures ParseInt(s).Int? ==> HasDigit(s)
  {
    var k := SkipSpace(s, 0);
    var t := s[k..];
    var signed := |t| > 0 && (t[0] == '-' || t[0] == '+');
    var u := if signed then t[1..] else t;
    if ParseMagnitude(u).Int? {
      var hex := |u| >= 2 && u[0] == '0' && (u[1] == 'x' || u[1] == 'X');
      var j := if hex then 2 else 0;
      var z := LeadingDigits(u[j..], if hex then 16 else 10);
      assert z[0] == u[j];
      var i := k + (if signed then 1 else 0) + j;
      assert s[i] == u[j];
    }
  }

  function DigitChar(d: nat): (c: char)
    requires d < 10
    ensures IsDigit(c, 10) && DigitValue(c, 10) == d
  {
    (('0' as int) + d) as char
  }

  /** The decimal numeral of `n`, as `String(n)` writes it. */
  function DecimalString(n: nat): (s: string)
    ensures |s| >= 1 && AllDigits(s, 10)
    ensures s[0] == '0' ==> n == 0
  {
    if n < 10 then [DigitChar(n)] else DecimalString(n / 10) + [DigitChar(n % 10)]
  }

  /** `String(i)` for an integer, as a template literal writes it. */
  function IntString(i: int): string {
    if i < 0 then "-" + DecimalString(-i) else DecimalString(i)
  }

  lemma {:induction false} DecimalStringValue(n: nat)
    ensures DigitsValue(DecimalString(n), 10) == n
  {
    if n >= 10 {
      DecimalStringValue(n / 10);
      var s := DecimalString(n);
      assert s[..|s| - 1] == DecimalString(n / 10);
    }
  }

  lemma {:induction false} LeadingDigitsOfDigits(ds: string, rest: string, radix: nat)
    requires AllDigits(ds, radix)
    requires rest == [] || !IsDigit(rest[0], radix)
    ensures LeadingDigits(ds + rest, radix) == ds
  {
    if ds != [] {
      assert (ds + rest)[1..] == ds[1..] + rest;
      LeadingDigitsOfDigits(ds[1..], rest, radix);
    }
  }

  /** `parseInt` reads back what `String` writes, and stops at the first
      character that cannot continue the numeral. */
  lemma ParseIntString(i: int, rest: string)
    requires rest == [] || (!IsDigit(rest[0], 10) && rest[0] != 'x' && rest[0] != 'X')
    ensures ParseInt(IntString(i) + rest) == Int(i)
  {
    if i < 0 {
      ParseNegativeString(i, rest);
    } else {
      ParseNaturalString(i, rest);
    }
  }

  lemma ParseNaturalString(n: nat, rest: string)
    requires rest == [] || (!IsDigit(rest[0], 10) && rest[0] != 'x' && rest[0] != 'X')
    ensures ParseInt(IntString(n) + rest) == Int(n)
  {
    var ds := DecimalString(n);
    DecimalStringValue(n);
    assert IntString(n) + rest == ds + rest;
    ParseNumeral(ds, rest);
  }

  lemma ParseNegativeString(i: int, rest: string)
    requires i < 0
    requires rest == [] || (!IsDigit(rest[0], 10) && rest[0] != 'x' && rest[0] != 'X')
    ensures ParseInt(IntString(i) + rest) == Int(i)
  {
    var ds := DecimalString(-i);
    DecimalStringValue(-i);
    assert IntString(i) + rest == "-" + (ds + rest);
    ParseNegativeNumeral(ds, rest);
  }

  /** `parseInt` of a decimal numeral followed by a non-digit. */
  lemma ParseNumeral(ds: string, rest: string)
    requires ds != [] && AllDigits(ds, 10) && (ds[0] == '0' ==> |ds| == 1)
    requires rest == [] || (!IsDigit(rest[0], 10) && rest[0] != 'x' && rest[0] != 'X')
    ensures ParseInt(ds + rest) == Int(DigitsValue(ds, 10))
  {
    var u := ds + rest;
    ParseMagnitudeNumeral(ds, rest);
    ParseSignedUnsigned(u);
    NoLeadingWhitespace(u);
  }

  /** `parseInt` of a minus sign, a decimal numeral and a non-digit. */
  lemma ParseNegativeNumeral(ds: string, rest: string)
    requires ds != [] && AllDigits(ds, 10) && (ds[0] == '0' ==> |ds| == 1)
    requires rest == [] || (!IsDigit(rest[0], 10) && rest[0] != 'x' && rest[0] != 'X')
    ensures ParseInt("-" + (ds + rest)) == Int(-(DigitsValue(ds, 10) as int))
  {
    var u := ds + rest;
    ParseMagnitudeNumeral(ds, rest);
    ParseSignedNegative(u);
    NoLeadingWhitespace("-" + u);
  }

  lemma NoLeadingWhitespace(s: string)
    requires s != [] && !IsWhitespace(s[0])
    ensures ParseInt(s) == ParseSigned(s)
  {
  }

  lemma ParseSignedUnsigned(u: string)
    requires u != [] && u[0] != '-' && u[0] != '+'
    ensures ParseSigned(u) == ParseMagnitude(u)
  {
  }

  lemma ParseSignedNegative(u: string)
    ensures ParseSigned("-" + u) == if ParseMagnitude(u).Int? then Int(-ParseMagnitude(u).value) else NaN
  {
    var t := "-" + u;
    assert t[0] == '-' && t[1..] == u;
  }

  lemma ParseMagnitudeNumeral(ds: string, rest: string)
    requires ds != [] && AllDigits(ds, 10) && (ds[0] == '0' ==> |ds| == 1)
    requires rest == [] || (!IsDigit(rest[0], 10) && rest[0] != 'x' && rest[0] != 'X')
    ensures ParseMagnitude(ds + rest) == Int(DigitsValue(ds, 10))
    ensures (ds + rest)[0] == ds[0] && IsDigit(ds[0], 10)
  {
    var u := ds + rest;
    assert u[0] == ds[0];
    assert !(|u| >= 2 && u[0] == '0' && (u[1] == 'x' || u[1] == 'X')) by {
      if |u| >= 2 && u[0] == '0' {
        assert u[1] == rest[0];
      }
    }
    LeadingDigitsOfDigits(ds, rest, 10);
  }

  /** `parseInt` ignores leading whitespace. */
  lemma ParseIntSkipsWhitespace(ws: string, s: string)
    requires AllWhitespace(ws)
    ensures ParseInt(ws + s) == ParseInt(s)
  {
    TrimStartPadded(ws, s);
  }

  // ---------------------------------------------------------------------
  // split and join on one separator character

  /** `s.split(sep)` for a one-character separator: the pieces between the
      separators, always at least one, none containing the separator. */
  function Split(s: string, sep: char): (r: seq<string>)
    ensures |r| >= 1
    ensures forall i | 0 <= i < |r| :: sep !in r[i]
  {
    if |s| == 0 then [""]
    else
      var rest := Split(s[1..], sep);
      if s[0] == sep then [""] + rest else [[s[0]] + rest[0]] + rest[1..]
  }

  /** The number of times `c` occurs in `s`. */
  function Occurrences(s: string, c: char): nat {
    if s == [] then 0 else (if s[0] == c then 1 else 0) + Occurrences(s[1..], c)
  }

  /** `split` yields one piece more than there are separators in `s`. */
  lemma {:induction false} SplitCount(s: string, sep: char)
    ensures |Split(s, sep)| == Occurrences(s, sep) + 1
  {
    if |s| > 0 {
      SplitCount(s[1..], sep);
    }
  }

  /** `pieces.join(sep)`. */
  function Join(pieces: seq<string>, sep: char): string
    requires |pieces| >= 1
  {
    if |pieces| == 1 then pieces[0] else pieces[0] + [sep] + Join(pieces[1..], sep)
  }

  lemma {:induction false} JoinSplit(s: string, sep: char)
    ensures Join(Split(s, sep), sep) == s
  {
    if |s| > 0 {
      JoinSplit(s[1..], sep);
      var rest := Split(s[1..], sep);
      if s[0] != sep && |rest| > 1 {
        assert ([[s[0]] + rest[0]] + rest[1..])[1..] == rest[1..];
      }
    }
  }

  /** Splitting a string whose first part holds no separator keeps that part
      at the head of the first piece. */
  lemma {:induction false} SplitPrefix(p: string, tail: string, sep: char)
    requires sep !in p
    ensures Split(p + tail, sep) == [p + Split(tail, sep)[0]] + Split(tail, sep)[1..]
  {
    if p != [] {
      assert (p + tail)[1..] == p[1..] + tail;
      SplitPrefix(p[1..], tail, sep);
      assert [p[0]] + (p[1..] + Split(tail, sep)[0]) == p + Split(tail, sep)[0];
    } else {
      assert p + tail == tail;
      var r := Split(tail, sep);
      assert r == [r[0]] + r[1..];
      assert p + r[0] == r[0];
    }
  }

  lemma {:induction false} SplitJoin(pieces: seq<string>, sep: char)
    requires |pieces| >= 1
    requires forall i | 0 <= i < |pieces| :: sep !in pieces[i]
    ensures Split(Join(pieces, sep), sep) == pieces
  {
    if |pieces| == 1 {
      SplitPrefix(pieces[0], "", sep);
      assert pieces[0] + "" == pieces[0];
      assert Split("", sep) == [""];
      assert Join(pieces, sep) == pieces[0];
      assert pieces == [pieces[0]];
    } else {
      SplitJoin(pieces[1..], sep);
      var tail := [sep] + Join(pieces[1..], sep);
      assert pieces[0] + [sep] + Join(pieces[1..], sep) == pieces[0] + tail;
      SplitPrefix(pieces[0], tail, sep);
      assert tail[0] == sep && tail[1..] == Join(pieces[1..], sep);
      assert Split(tail, sep) == [""] + pieces[1..];
      assert pieces[0] + "" == pieces[0];
      assert pieces == [pieces[0]] + pieces[1..];
    }
  }

  // ---------------------------------------------------------------------
  // case folding and search

  /** ASCII lower-casing of one character. */
  function AsciiLower(c: char): char {
    if 'A' <= c <= 'Z' then ((c as int) + 32) as char else c
  }

  function ToLowerAscii(s: string): (r: string)
    ensures |r| == |s| && forall i | 0 <= i < |s| :: r[i] == AsciiLower(s[i])
    ensures forall i | 0 <= i < |r| :: !('A' <= r[i] <= 'Z')
  {
    seq(|s|, i requires 0 <= i < |s| => AsciiLower(s[i]))
  }

  /** Lower-casing twice is lower-casing once, and it changes only the
      capital letters `A` to `Z`. */
  lemma ToLowerAsciiIdempotent(s: string)
    ensures ToLowerAscii(ToLowerAscii(s)) == ToLowerAscii(s)
    ensures ToLowerAscii(s) == s <==> forall i | 0 <= i < |s| :: !('A' <= s[i] <= 'Z')
  {
    var r := ToLowerAscii(s);
    assert forall i | 0 <= i < |r| :: AsciiLower(r[i]) == r[i];
    if forall i | 0 <= i < |s| :: !('A' <= s[i] <= 'Z') {
      assert forall i | 0 <= i < |s| :: r[i] == s[i];
    }
  }

  /** `s.includes(t)`. */
  predicate Contains(s: string, t: string) {
    exists i | 0 <= i <= |s| - |t| :: OccursAt(s, t, i)
  }

  predicate OccursAt(s: string, t: string, i: int) {
    0 <= i <= |s| - |t| && s[i..i + |t|] == t
  }
}
