/**
 * The sanitisers of `security.js`: `cleanInput` (a fixed chain of global
 * regular-expression replacements), `validateNoXSS` (seven pattern tests),
 * `sanitizeUrl` (case-insensitive rejection of four protocols) and the two
 * object sanitisers that map `cleanInput` over an object's entries.
 *
 * Each regular expression is modelled by a matcher: a function from the rest
 * of the string to the length of the match that starts there (0 for none).
 * The regular expressions carry no `u` flag, so case-insensitive matching
 * folds ASCII letters only and `\w` is `[A-Za-z0-9_]`.
 */
module Security {
  import opened JsText

  /** The JavaScript values these functions are handed. Numbers are those
      `parseInt` can produce; an object is its own enumerable entries, in
      `Object.entries` order. */
  datatype JsValue =
    | Undefined
    | Null
    | Bool(b: bool)
    | Number(n: Num)
    | Str(s: string)
    | Object(entries: seq<(string, JsValue)>)

  /** `!value`: the falsy values. */
  predicate IsFalsy(v: JsValue) {
    match v
    case Undefined => true
    case Null => true
    case Bool(b) => !b
    case Number(n) => n == NaN || n == Int(0)
    case Str(s) => s == ""
    case Object(_) => false
  }

  /** `typeof value === 'object'`. */
  predicate IsObjectType(v: JsValue) {
    v.Null? || v.Object?
  }

  // ---------------------------------------------------------------------
  // character classes and matchers

  predicate IsAngle(c: char) {
    c == '<' || c == '>'
  }

  /** `[\u0000-\u001F\u007F-\u009F]`. */
  predicate IsControl(c: char) {
    ('\U{0000}' <= c <= '\U{001F}') || ('\U{007F}' <= c <= '\U{009F}')
  }

  /** `\w` without the `u` flag. */
  predicate IsWordChar(c: char) {
    ('a' <= c <= 'z') || ('A' <= c <= 'Z') || ('0' <= c <= '9') || c == '_'
  }

  /** `[0-9A-F]`: upper-case hexadecimal digits only. */
  predicate IsUpperHex(c: char) {
    ('0' <= c <= '9') || ('A' <= c <= 'F')
  }

  /** The length of the run of word characters that starts `t`. */
  function WordRun(t: string): (n: nat)
    ensures n <= |t|
    ensures forall i | 0 <= i < n :: IsWordChar(t[i])
    ensures n == |t| || !IsWordChar(t[n])
  {
    if t != [] && IsWordChar(t[0]) then 1 + WordRun(t[1..]) else 0
  }

  /** A case-insensitive match of the lower-case literal `lit` at the start
      of `t`: its length, or 0. */
  function LiteralCI(t: string, lit: string): (n: nat)
    ensures n <= |t|
    ensures n == 0 || n == |lit|
  {
    if 0 < |lit| <= |t| && ToLowerAscii(t[..|lit|]) == lit then |lit| else 0
  }

  function JavascriptMatch(t: string): (n: nat)
    ensures n <= |t|
  {
    LiteralCI(t, "javascript:")
  }

  function DataMatch(t: string): (n: nat)
    ensures n <= |t|
  {
    LiteralCI(t, "data:")
  }

  function VbscriptMatch(t: string): (n: nat)
    ensures n <= |t|
  {
    LiteralCI(t, "vbscript:")
  }

  /** `/on\w+=/i` at the start of `t`. `\w+` is greedy and `=` is not a word
      character, so the only candidate end is the first non-word character
      after `on`. */
  function HandlerMatch(t: string): (n: nat)
    ensures n <= |t|
    ensures n == 0 || (4 <= n && t[n - 1] == '=')
  {
    if |t| >= 2 && AsciiLower(t[0]) == 'o' && AsciiLower(t[1]) == 'n' then
      var w := WordRun(t[2..]);
      if w >= 1 && 2 + w < |t| && t[2 + w] == '=' then 3 + w else 0
    else 0
  }

  /** What `/on\w+=/i` matches at the start of `t`: `on` in any case, one or
      more word characters, then `=`. */
  predicate HandlerShape(t: string, k: int) {
    && 2 < k < |t|
    && AsciiLower(t[0]) == 'o' && AsciiLower(t[1]) == 'n'
    && (forall j | 2 <= j < k :: IsWordChar(t[j]))
    && t[k] == '='
  }

  /** The greedy matcher finds a match exactly when the pattern has one,
      and then it is the only one. */
  lemma HandlerMatchIff(t: string)
    ensures HandlerMatch(t) > 0 <==> exists k :: HandlerShape(t, k)
    ensures forall k | HandlerShape(t, k) :: HandlerMatch(t) == k + 1
  {
    if HandlerMatch(t) > 0 {
      var w := WordRun(t[2..]);
      assert forall j | 2 <= j < 2 + w :: t[j] == t[2..][j - 2];
      assert HandlerShape(t, 2 + w);
    }
    if exists k :: HandlerShape(t, k) {
      var k :| HandlerShape(t, k);
      var w := WordRun(t[2..]);
      assert forall j | 0 <= j < k - 2 :: t[2..][j] == t[j + 2];
      assert t[2..][k - 2] == '=';
    }
    forall k | HandlerShape(t, k) ensures HandlerMatch(t) == k + 1 {
      var w := WordRun(t[2..]);
      assert forall j | 0 <= j < k - 2 :: t[2..][j] == t[j + 2];
      assert t[2..][k - 2] == '=';
    }
  }

  /** `m` matches `t` at index `i`. */
  predicate MatchAt(t: string, m: string -> nat, i: int) {
    0 <= i < |t| && 0 < m(t[i..]) <= |t| - i
  }

  /** `pattern.test(t)` for the pattern that `m` matches. */
  predicate MatchesAnywhere(t: string, m: string -> nat) {
    exists i | 0 <= i < |t| :: MatchAt(t, m, i)
  }

  // ---------------------------------------------------------------------
  // global replacement

  /** `t.replace(/[...]/g, '')` for a one-character class `p`. */
  function DeleteChars(t: string, p: char -> bool): (r: string)
    ensures |r| <= |t|
    ensures r == t <==> forall i | 0 <= i < |t| :: !p(t[i])
  {
    if t == [] then []
    else if p(t[0]) then DeleteChars(t[1..], p)
    else
      var rest := DeleteChars(t[1..], p);
      assert forall i | 1 <= i < |t| :: t[i] == t[1..][i - 1];
      [t[0]] + rest
  }

  /** `t.replace(re, '')` for a global `re` matched by `m`: scanning from the
      left, every match is cut out and the scan resumes after it. */
  function DeleteAll(t: string, m: string -> nat): (r: string)
    ensures |r| <= |t|
    ensures forall c | c in r :: c in t
    decreases |t|
  {
    if t == [] then []
    else
      var n := m(t);
      if 0 < n <= |t| then DeleteAll(t[n..], m)
      else [t[0]] + DeleteAll(t[1..], m)
  }

  /** A deletion changes its input exactly when the pattern occurs in it. */
  lemma {:induction false} DeleteAllUnchanged(t: string, m: string -> nat)
    ensures DeleteAll(t, m) == t <==> !MatchesAnywhere(t, m)
    decreases |t|
  {
    if t != [] {
      var n := m(t);
      if 0 < n <= |t| {
        assert MatchAt(t, m, 0) by { assert t[0..] == t; }
        assert |DeleteAll(t[n..], m)| <= |t| - n;
      } else {
        DeleteAllUnchanged(t[1..], m);
        assert !MatchAt(t, m, 0) by { assert t[0..] == t; }
        forall i ensures MatchAt(t[1..], m, i) <==> MatchAt(t, m, i + 1) {
          if 0 <= i < |t| - 1 {
            assert t[1..][i..] == t[i + 1..];
          }
        }
        if MatchesAnywhere(t, m) {
          var i :| MatchAt(t, m, i);
          assert MatchAt(t[1..], m, i - 1);
        }
        if MatchesAnywhere(t[1..], m) {
          var i :| MatchAt(t[1..], m, i);
          assert MatchAt(t, m, i + 1);
        }
      }
    }
  }

  /** `t.replace(/&#/g, '&amp;#')`. */
  function EscapeEntities(t: string): (r: string)
    ensures |r| >= |t|
    ensures t != [] ==> r != [] && r[0] == t[0]
    ensures forall c | c in r :: c in t || c in {'a', 'm', 'p', ';'}
  {
    if t == [] then []
    else if |t| >= 2 && t[0] == '&' && t[1] == '#' then "&amp;#" + EscapeEntities(t[2..])
    else [t[0]] + EscapeEntities(t[1..])
  }

  /** `&#` starts at index `i` of `t`. */
  predicate EntityAt(t: string, i: int) {
    0 <= i < |t| - 1 && t[i] == '&' && t[i + 1] == '#'
  }

  /** `/&#/.test(t)`. */
  predicate HasEntity(t: string) {
    exists i | 0 <= i < |t| :: EntityAt(t, i)
  }

  /** After escaping no `&` is followed by `#`. */
  lemma {:induction false} EscapeLeavesNoEntity(t: string)
    ensures !HasEntity(EscapeEntities(t))
  {
    if t != [] {
      var r := EscapeEntities(t);
      if |t| >= 2 && t[0] == '&' && t[1] == '#' {
        var rest := EscapeEntities(t[2..]);
        EscapeLeavesNoEntity(t[2..]);
        forall i | 0 <= i < |r| ensures !EntityAt(r, i) {
          if i >= 6 && i < |r| - 1 {
            assert !EntityAt(rest, i - 6);
            assert r[i] == rest[i - 6] && r[i + 1] == rest[i - 5];
          }
        }
      } else {
        var rest := EscapeEntities(t[1..]);
        EscapeLeavesNoEntity(t[1..]);
        forall i | 0 <= i < |r| ensures !EntityAt(r, i) {
          if i >= 1 && i < |r| - 1 {
            assert !EntityAt(rest, i - 1);
            assert r[i] == rest[i - 1] && r[i + 1] == rest[i];
          } else if i == 0 && |r| > 1 {
            assert r[1] == rest[0] == t[1];
          }
        }
      }
    }
  }

  /** Escaping changes its input exactly when the input holds an `&#`. */
  lemma {:induction false} EscapeUnchanged(t: string)
    ensures EscapeEntities(t) == t <==> !HasEntity(t)
  {
    if t != [] {
      if |t| >= 2 && t[0] == '&' && t[1] == '#' {
        assert EntityAt(t, 0);
        assert |EscapeEntities(t[2..])| >= |t| - 2;
      } else {
        EscapeUnchanged(t[1..]);
        assert !EntityAt(t, 0);
        forall i ensures EntityAt(t[1..], i) <==> EntityAt(t, i + 1) {
          if 0 <= i < |t| - 2 {
            assert t[1..][i] == t[i + 1] && t[1..][i + 1] == t[i + 2];
          }
        }
        if HasEntity(t) {
          var i :| 0 <= i < |t| && EntityAt(t, i);
          assert EntityAt(t[1..], i - 1);
        }
        if HasEntity(t[1..]) {
          var i :| 0 <= i < |t[1..]| && EntityAt(t[1..], i);
          assert EntityAt(t, i + 1);
        }
      }
    }
  }

  // ---------------------------------------------------------------------
  // cleanInput

  /** The chain of replacements `cleanInput` applies to a string, in order. */
  function CleanText(s: string): (r: string)
    ensures forall c | c in r :: !IsAngle(c) && !IsControl(c)
  {
    var t1 := Trim(s);
    var t2 := DeleteChars(t1, IsAngle);
    var t3 := DeleteAll(t2, JavascriptMatch);
    var t4 := DeleteAll(t3, HandlerMatch);
    var t5 := DeleteAll(t4, DataMatch);
    var t6 := DeleteAll(t5, VbscriptMatch);
    var t7 := EscapeEntities(t6);
    DeleteCharsKeeps(t1, IsAngle);
    DeleteCharsKeeps(t7, IsControl);
    DeleteChars(t7, IsControl)
  }

  /** `cleanInput`: strings are cleaned, every other value is returned as
      it is. */
  function CleanInput(input: JsValue): (r: JsValue)
    ensures !input.Str? ==> r == input
    ensures input.Str? ==> r.Str? && forall c | c in r.s :: !IsAngle(c) && !IsControl(c)
  {
    match input
    case Str(s) => Str(CleanText(s))
    case _ => input
  }

  // ---------------------------------------------------------------------
  // validateNoXSS

  /** `/<[^>]*>/.test(t)`: a `<`, then no `>` until a `>`. */
  predicate HasTag(t: string) {
    exists i, k | 0 <= i < k < |t| :: t[i] == '<' && t[k] == '>' && '>' !in t[i + 1..k]
  }

  /** `/%[0-9A-F]{2}/.test(t)`. */
  predicate HasPercentEscape(t: string) {
    exists i | 0 <= i < |t| :: PercentEscapeAt(t, i)
  }

  predicate PercentEscapeAt(t: string, i: int) {
    0 <= i < |t| - 2 && t[i] == '%' && IsUpperHex(t[i + 1]) && IsUpperHex(t[i + 2])
  }

  /** Some of the seven patterns matches `t`. */
  predicate MatchesXssPattern(t: string) {
    || HasTag(t)
    || MatchesAnywhere(t, JavascriptMatch)
    || MatchesAnywhere(t, DataMatch)
    || MatchesAnywhere(t, HandlerMatch)
    || HasEntity(t)
    || '\\' in t
    || HasPercentEscape(t)
  }

  /** `validateNoXSS`: true for every non-string, and for a string exactly
      when none of the patterns matches it. */
  function ValidateNoXSS(value: JsValue): (ok: bool)
    ensures !value.Str? ==> ok
    ensures value.Str? && '\\' in value.s ==> !ok
  {
    match value
    case Str(s) => !MatchesXssPattern(s)
    case _ => true
  }

  /** The tag pattern holds exactly when a `<` has a `>` somewhere after
      it. */
  lemma TagPatternIff(t: string)
    ensures HasTag(t) <==> exists i, j | 0 <= i < j < |t| :: t[i] == '<' && t[j] == '>'
  {
    if exists i, j | 0 <= i < j < |t| :: t[i] == '<' && t[j] == '>' {
      var i, j :| 0 <= i < j < |t| && t[i] == '<' && t[j] == '>';
      var k := FirstGreater(t, i, j);
      assert t[i] == '<' && t[k] == '>' && '>' !in t[i + 1..k];
    }
  }

  /** The first `>` after index `i`, given that index `j` holds one. */
  lemma {:induction false} FirstGreaterExists(t: string, i: int, j: int)
    requires 0 <= i < j < |t| && t[j] == '>'
    ensures exists k | i < k <= j :: t[k] == '>' && '>' !in t[i + 1..k]
    decreases j
  {
    if '>' in t[i + 1..j] {
      var m :| i + 1 <= m < j && t[m] == '>';
      FirstGreaterExists(t, i, m);
    } else {
      assert t[j] == '>' && '>' !in t[i + 1..j];
    }
  }

  function FirstGreater(t: string, i: int, j: int): (k: int)
    requires 0 <= i < j < |t| && t[j] == '>'
    ensures i < k <= j && t[k] == '>' && '>' !in t[i + 1..k]
  {
    FirstGreaterExists(t, i, j);
    var k :| i < k <= j && t[k] == '>' && '>' !in t[i + 1..k];
    k
  }

  /** A cleaned string never looks like a tag: the tag pattern needs both
      angle brackets and cleaning removes them. */
  lemma CleanedHasNoTag(s: string)
    ensures !HasTag(CleanText(s))
  {
    var r := CleanText(s);
    forall i | 0 <= i < |r| ensures r[i] != '<' {
      assert r[i] in r;
    }
  }

  /** The case-insensitive literal matcher finds `lit` exactly where the
      lower-cased string holds it. */
  lemma LiteralMatchIff(t: string, m: string -> nat, lit: string)
    requires lit != []
    requires forall u :: m(u) == LiteralCI(u, lit)
    ensures forall i :: MatchAt(t, m, i) <==> OccursAt(ToLowerAscii(t), lit, i)
    ensures MatchesAnywhere(t, m) <==> Contains(ToLowerAscii(t), lit)
  {
    var lower := ToLowerAscii(t);
    forall i ensures MatchAt(t, m, i) <==> OccursAt(lower, lit, i) {
      if 0 <= i <= |t| - |lit| {
        assert t[i..][..|lit|] == t[i..i + |lit|];
        assert ToLowerAscii(t[i..i + |lit|]) == lower[i..i + |lit|];
      }
    }
    if Contains(lower, lit) {
      var i :| 0 <= i <= |lower| - |lit| && OccursAt(lower, lit, i);
      assert MatchAt(t, m, i);
    }
  }

  /** A text that passes `validateNoXSS` and holds no angle bracket, no
      control character and no `vbscript:` comes out of `cleanInput` only
      trimmed. */
  lemma ValidatedTextOnlyTrimmed(s: string)
    requires ValidateNoXSS(Str(s))
    requires forall i | 0 <= i < |s| :: !IsAngle(s[i]) && !IsControl(s[i])
    requires !Contains(ToLowerAscii(s), "vbscript:")
    ensures CleanText(s) == Trim(s)
  {
    LiteralMatchIff(s, VbscriptMatch, "vbscript:");
    PatternFreeTextOnlyTrimmed(s);
  }

  /** The same, stated with the matchers of the chain. */
  lemma PatternFreeTextOnlyTrimmed(s: string)
    requires forall i | 0 <= i < |s| :: !IsAngle(s[i]) && !IsControl(s[i])
    requires !MatchesAnywhere(s, JavascriptMatch) && !MatchesAnywhere(s, HandlerMatch)
    requires !MatchesAnywhere(s, DataMatch) && !MatchesAnywhere(s, VbscriptMatch)
    requires !HasEntity(s)
    ensures CleanText(s) == Trim(s)
  {
    var t := Trim(s);
    var lead := TrimmedLead(s);
    PatternFreeSlice(s, t, lead);
    CleanTextOfCleanTrim(s, t);
  }

  /** An infix of a text free of the patterns is free of them too. */
  lemma PatternFreeSlice(s: string, t: string, lead: int)
    requires 0 <= lead <= |s| - |t| && t == s[lead..lead + |t|]
    requires forall i | 0 <= i < |s| :: !IsAngle(s[i]) && !IsControl(s[i])
    requires !MatchesAnywhere(s, JavascriptMatch) && !MatchesAnywhere(s, HandlerMatch)
    requires !MatchesAnywhere(s, DataMatch) && !MatchesAnywhere(s, VbscriptMatch)
    requires !HasEntity(s)
    ensures forall i | 0 <= i < |t| :: !IsAngle(t[i])
    ensures !MatchesAnywhere(t, JavascriptMatch) && !MatchesAnywhere(t, HandlerMatch)
    ensures !MatchesAnywhere(t, DataMatch) && !MatchesAnywhere(t, VbscriptMatch)
    ensures !HasEntity(t)
    ensures DeleteChars(t, IsControl) == t
  {
    forall i | 0 <= i < |t| ensures !IsAngle(t[i]) && !IsControl(t[i]) {
      assert t[i] == s[lead + i];
    }
    assert DeleteChars(t, IsControl) == t;
    NoLiteralInSlice(s, t, lead, JavascriptMatch, "javascript:");
    NoHandlerInSlice(s, t, lead);
    NoLiteralInSlice(s, t, lead, DataMatch, "data:");
    NoLiteralInSlice(s, t, lead, VbscriptMatch, "vbscript:");
    NoEntityInSlice(s, t, lead);
  }

  /** An `&#` in an infix is one in the whole string. */
  lemma NoEntityInSlice(s: string, t: string, lead: int)
    requires 0 <= lead <= |s| - |t| && t == s[lead..lead + |t|]
    requires !HasEntity(s)
    ensures !HasEntity(t)
  {
    if HasEntity(t) {
      var i :| 0 <= i < |t| && EntityAt(t, i);
      assert t[i] == s[lead + i] && t[i + 1] == s[lead + i + 1];
      assert EntityAt(s, lead + i);
    }
  }

  /** When none of the steps before the last finds anything in the trimmed
      text, the chain only deletes its control characters. */
  lemma CleanTextOfCleanTrim(s: string, t: string)
    requires t == Trim(s)
    requires forall i | 0 <= i < |t| :: !IsAngle(t[i])
    requires !MatchesAnywhere(t, JavascriptMatch) && !MatchesAnywhere(t, HandlerMatch)
    requires !MatchesAnywhere(t, DataMatch) && !MatchesAnywhere(t, VbscriptMatch)
    requires !HasEntity(t)
    ensures CleanText(s) == DeleteChars(t, IsControl)
  {
    DeleteAllUnchanged(t, JavascriptMatch);
    DeleteAllUnchanged(t, HandlerMatch);
    DeleteAllUnchanged(t, DataMatch);
    DeleteAllUnchanged(t, VbscriptMatch);
    EscapeUnchanged(t);
  }

  /** A literal that the whole string lacks, its infix lacks too. */
  lemma NoLiteralInSlice(s: string, t: string, lead: int, m: string -> nat, lit: string)
    requires 0 <= lead <= |s| - |t| && t == s[lead..lead + |t|]
    requires lit != []
    requires forall u :: m(u) == LiteralCI(u, lit)
    requires !MatchesAnywhere(s, m)
    ensures !MatchesAnywhere(t, m)
  {
    if MatchesAnywhere(t, m) {
      var i :| 0 <= i < |t| && MatchAt(t, m, i);
      LiteralInSlice(s, t, lead, m, lit, i);
    }
  }

  /** A literal's match in an infix is one in the whole string. */
  lemma LiteralInSlice(s: string, t: string, lead: int, m: string -> nat, lit: string, i: int)
    requires 0 <= lead <= |s| - |t| && t == s[lead..lead + |t|]
    requires forall u :: m(u) == LiteralCI(u, lit)
    requires MatchAt(t, m, i)
    ensures MatchAt(s, m, lead + i)
  {
    var n := |lit|;
    assert m(t[i..]) == LiteralCI(t[i..], lit) == n;
    assert t[i..][..n] == s[lead + i..][..n];
    assert m(s[lead + i..]) == LiteralCI(s[lead + i..], lit) == n;
  }

  /** An event-handler match in an infix is one in the whole string. */
  lemma NoHandlerInSlice(s: string, t: string, lead: int)
    requires 0 <= lead <= |s| - |t| && t == s[lead..lead + |t|]
    requires !MatchesAnywhere(s, HandlerMatch)
    ensures !MatchesAnywhere(t, HandlerMatch)
  {
    if MatchesAnywhere(t, HandlerMatch) {
      var i :| 0 <= i < |t| && MatchAt(t, HandlerMatch, i);
      var u, w := t[i..], s[lead + i..];
      HandlerMatchIff(u);
      var k :| HandlerShape(u, k);
      forall j | 0 <= j <= k ensures u[j] == w[j] {
        assert u[j] == t[i + j] == s[lead + i + j];
      }
      HandlerShapeAgrees(u, w, k);
      HandlerMatchIff(w);
      assert MatchAt(s, HandlerMatch, lead + i);
    }
  }

  /** The handler shape depends only on the characters up to its `=`. */
  lemma HandlerShapeAgrees(u: string, w: string, k: int)
    requires HandlerShape(u, k) && k < |w|
    requires forall j | 0 <= j <= k :: u[j] == w[j]
    ensures HandlerShape(w, k)
  {
  }

  /** Deleting keeps only characters of the text outside the class. */
  lemma {:induction false} DeleteCharsKeeps(t: string, p: char -> bool)
    ensures forall c | c in DeleteChars(t, p) :: c in t && !p(c)
  {
    if t != [] {
      DeleteCharsKeeps(t[1..], p);
    }
  }

  /** Deleting characters from a concatenation deletes them from each
      part. */
  lemma {:induction false} DeleteCharsConcat(a: string, b: string, p: char -> bool)
    ensures DeleteChars(a + b, p) == DeleteChars(a, p) + DeleteChars(b, p)
  {
    if a != [] {
      assert (a + b)[0] == a[0];
      assert (a + b)[1..] == a[1..] + b;
      DeleteCharsConcat(a[1..], b, p);
    } else {
      assert a + b == b;
    }
  }

  /** Of three characters only the middle one is a control character. */
  lemma DeleteMiddleControl(a: char, c: char, b: char)
    requires !IsControl(a) && IsControl(c) && !IsControl(b)
    ensures DeleteChars([a, c, b], IsControl) == [a, b]
  {
    var s := [a, c, b];
    assert s[1..] == [c, b] && s[2..] == [b] && [b][1..] == [];
    assert DeleteChars([b], IsControl) == [b];
  }

  /** The chain is not a closure: deleting control characters comes after
      escaping, so an `&#` split by a control character comes out whole and
      unescaped, and the result fails `validateNoXSS`. */
  lemma CleanTextCanJoinEntity(c: char)
    requires IsControl(c)
    ensures CleanText(['&', c, '#']) == "&#"
    ensures !ValidateNoXSS(CleanInput(Str(['&', c, '#'])))
  {
    var s := ['&', c, '#'];
    SplitEntityCleaned(s, c);
    EntityFailsValidation(CleanText(s));
  }

  /** The cleaning of `&`, a control character and `#`, step by step. */
  lemma SplitEntityCleaned(s: string, c: char)
    requires IsControl(c) && s == ['&', c, '#']
    ensures CleanText(s) == ['&', '#']
  {
    TrimUnpadded(s);
    assert !MatchesAnywhere(s, JavascriptMatch);
    assert !MatchesAnywhere(s, DataMatch);
    assert !MatchesAnywhere(s, VbscriptMatch);
    assert !MatchesAnywhere(s, HandlerMatch) by {
      forall i | 0 <= i < |s| ensures !MatchAt(s, HandlerMatch, i) {
        assert HandlerMatch(s[i..]) == 0;
      }
    }
    assert !HasEntity(s) by {
      assert !EntityAt(s, 0) && !EntityAt(s, 1) && !EntityAt(s, 2);
    }
    assert forall i | 0 <= i < |s| :: !IsAngle(s[i]);
    CleanTextOfCleanTrim(s, s);
    DeleteMiddleControl('&', c, '#');
  }

  /** A bare `&#` fails `validateNoXSS`. */
  lemma EntityFailsValidation(r: string)
    requires r == "&#"
    ensures !ValidateNoXSS(Str(r))
  {
    assert EntityAt(r, 0);
  }

  /** In the same way `javascript:` split by a control character comes out
      whole: the protocol deletion runs before the control characters are
      gone. */
  lemma CleanTextCanJoinProtocol(c: char)
    requires IsControl(c)
    ensures CleanText("java" + [c] + "script:") == "javascript:"
    ensures !ValidateNoXSS(CleanInput(Str("java" + [c] + "script:")))
  {
    var s := "java" + [c] + "script:";
    SplitProtocolCleaned(s, c);
    SplitProtocolChars(s, c);
    ProtocolFailsValidation(CleanText(s));
  }

  /** The cleaning of the split protocol name, step by step. */
  lemma SplitProtocolCleaned(s: string, c: char)
    requires IsControl(c) && s == "java" + [c] + "script:"
    ensures CleanText(s) == s[..4] + s[5..]
  {
    SplitProtocolChars(s, c);
    SplitProtocolNoLiteral(s, c);
    SplitProtocolNoHandler(s, c);
    TrimUnpadded(s);
    CleanTextOfCleanTrim(s, s);
    DeleteSoleChar(s, 4, IsControl);
  }

  /** A bare `javascript:` fails `validateNoXSS`. */
  lemma ProtocolFailsValidation(r: string)
    requires r == "javascript:"
    ensures !ValidateNoXSS(Str(r))
  {
    var lower := ToLowerAscii(r);
    forall i | 0 <= i < |r| ensures lower[i] == r[i] {
    }
    assert OccursAt(lower, "javascript:", 0);
    LiteralMatchIff(r, JavascriptMatch, "javascript:");
  }

  /** The characters of the split protocol name. */
  lemma SplitProtocolChars(s: string, c: char)
    requires IsControl(c) && s == "java" + [c] + "script:"
    ensures |s| == 12 && s[4] == c && s[11] == ':' && s[0] == 'j'
    ensures !IsWhitespace(s[0]) && !IsWhitespace(s[11])
    ensures forall i | 0 <= i < |s| :: !IsAngle(s[i]) && s[i] != '=' && s[i] != '&'
    ensures forall i | 0 <= i < 11 :: s[i] != ':'
    ensures forall i | 0 <= i < |s| && i != 4 :: !IsControl(s[i])
    ensures s[..4] + s[5..] == "javascript:"
    ensures ToLowerAscii(s) == s
    ensures !HasEntity(s)
  {
    var head, tail := "java", "script:";
    forall i | 0 <= i < |s|
      ensures s[i] == (if i < 4 then head[i] else if i == 4 then c else tail[i - 5])
    {
    }
    var lower := ToLowerAscii(s);
    forall i | 0 <= i < |s| ensures lower[i] == s[i] {
    }
    forall i | 0 <= i < |s| ensures !EntityAt(s, i) {
    }
  }

  /** None of the three protocol deletions finds anything in it. */
  lemma SplitProtocolNoLiteral(s: string, c: char)
    requires IsControl(c) && s == "java" + [c] + "script:"
    ensures !MatchesAnywhere(s, JavascriptMatch)
    ensures !MatchesAnywhere(s, DataMatch)
    ensures !MatchesAnywhere(s, VbscriptMatch)
  {
    SplitProtocolChars(s, c);
    assert !Contains(s, "javascript:") by {
      assert s[4] != 's' && s[1] != 'j';
    }
    LiteralMatchIff(s, JavascriptMatch, "javascript:");
    assert !Contains(s, "data:") by {
      forall i | 0 <= i <= |s| - 5 ensures !OccursAt(s, "data:", i) {
        if i == 7 {
          assert s[7] != 'd';
        } else {
          assert s[i..i + 5][4] == s[i + 4];
        }
      }
    }
    LiteralMatchIff(s, DataMatch, "data:");
    assert !Contains(s, "vbscript:") by {
      forall i | 0 <= i <= |s| - 9 ensures !OccursAt(s, "vbscript:", i) {
        assert s[i..i + 9][0] == s[i] && s[i..i + 9][1] == s[i + 1];
      }
    }
    LiteralMatchIff(s, VbscriptMatch, "vbscript:");
  }

  /** Nor does the event-handler deletion: there is no `=`. */
  lemma SplitProtocolNoHandler(s: string, c: char)
    requires IsControl(c) && s == "java" + [c] + "script:"
    ensures !MatchesAnywhere(s, HandlerMatch)
  {
    SplitProtocolChars(s, c);
    forall i | 0 <= i < |s| ensures !MatchAt(s, HandlerMatch, i) {
      HandlerMatchIff(s[i..]);
    }
  }

  /** Deleting the only character of a class joins the parts on either
      side of it. */
  lemma {:induction false} DeleteSoleChar(s: string, k: int, p: char -> bool)
    requires 0 <= k < |s| && p(s[k])
    requires forall i | 0 <= i < |s| && i != k :: !p(s[i])
    ensures DeleteChars(s, p) == s[..k] + s[k + 1..]
  {
    var t := s[1..];
    if k == 0 {
      forall i | 0 <= i < |t| ensures !p(t[i]) {
        assert t[i] == s[i + 1];
      }
      assert DeleteChars(t, p) == t;
    } else {
      forall i | 0 <= i < |t| && i != k - 1 ensures !p(t[i]) {
        assert t[i] == s[i + 1];
      }
      DeleteSoleChar(t, k - 1, p);
      assert s[..k] == [s[0]] + t[..k - 1];
      assert s[k + 1..] == t[k..];
    }
  }

  // ---------------------------------------------------------------------
  // sanitizeUrl

  const DANGEROUS_PROTOCOLS: seq<string> := ["javascript:", "data:", "vbscript:", "file:"]

  /** The lower-cased URL contains one of the dangerous protocols. */
  predicate IsDangerousUrl(url: string) {
    exists p | p in DANGEROUS_PROTOCOLS :: Contains(ToLowerAscii(url), p)
  }

  /** `sanitizeUrl`: `''` for a non-string, `'#'` for a dangerous URL, the
      URL itself otherwise. */
  function SanitizeUrl(url: JsValue): (r: string)
    ensures !IsDangerousUrl(r)
    ensures url.Str? && !IsDangerousUrl(url.s) ==> r == url.s
    ensures !url.Str? ==> r == ""
  {
    if !url.Str? then ""
    else if IsDangerousUrl(url.s) then "#"
    else url.s
  }

  /** Sanitising a sanitised URL changes nothing, and a URL is replaced by
      `#` exactly when it is dangerous. */
  lemma SanitizeUrlIdempotent(url: JsValue)
    ensures SanitizeUrl(Str(SanitizeUrl(url))) == SanitizeUrl(url)
    ensures url.Str? ==> (SanitizeUrl(url) == "#" <==> IsDangerousUrl(url.s) || url.s == "#")
  {
  }

  // ---------------------------------------------------------------------
  // sanitizeRequestData and sanitizeResponseData

  /** Assigning `acc['__proto__']` on a fresh `{}` goes to the prototype
      setter and creates no own property. */
  const PROTO_KEY: string := "__proto__"

  /** The `reduce` that copies each entry into a fresh `{}` with its value
      passed through `f`. */
  function CopyEntries(entries: seq<(string, JsValue)>, f: JsValue -> JsValue): (r: seq<(string, JsValue)>)
    ensures |r| <= |entries|
    ensures forall e | e in r :: e.0 != PROTO_KEY
    ensures forall e | e in entries && e.0 != PROTO_KEY :: (e.0, f(e.1)) in r
    ensures forall e | e in r :: exists d | d in entries :: d.0 == e.0 && e.1 == f(d.1)
  {
    if entries == [] then []
    else
      var rest := CopyEntries(entries[1..], f);
      var d := entries[0];
      assert forall e | e in entries[1..] :: e in entries;
      if d.0 == PROTO_KEY then rest else [(d.0, f(d.1))] + rest
  }

  /** `sanitizeRequestData`: falsy and non-object values pass through,
      objects have every value cleaned. */
  function SanitizeRequestData(data: JsValue): (r: JsValue)
    ensures !data.Object? ==> r == data
    ensures data.Object? ==> r.Object? && forall e | e in r.entries :: e.1.Str? ==> forall c | c in e.1.s :: !IsAngle(c)
  {
    if IsFalsy(data) || !IsObjectType(data) then data
    else Object(CopyEntries(data.entries, CleanInput))
  }

  /** The value `sanitizeResponseData` stores for one entry. */
  function CleanIfString(v: JsValue): (r: JsValue)
    ensures r == CleanInput(v)
  {
    if v.Str? then CleanInput(v) else v
  }

  /** `sanitizeResponseData`: strings are cleaned, non-null objects have
      their string values cleaned, anything else passes through. */
  function SanitizeResponseData(data: JsValue): (r: JsValue)
    ensures data.Str? ==> r == CleanInput(data)
    ensures !data.Str? && !data.Object? ==> r == data
  {
    if data.Str? then CleanInput(data)
    else if IsObjectType(data) && !data.Null? then Object(CopyEntries(data.entries, CleanIfString))
    else data
  }

  /** Copying with two functions that agree on every value gives the same
      entries. */
  lemma {:induction false} CopyEntriesAgree(entries: seq<(string, JsValue)>, f: JsValue -> JsValue, g: JsValue -> JsValue)
    requires forall v :: f(v) == g(v)
    ensures CopyEntries(entries, f) == CopyEntries(entries, g)
  {
    if entries != [] {
      CopyEntriesAgree(entries[1..], f, g);
    }
  }

  /** On a non-null object the two sanitisers give the same result. */
  lemma SanitizersAgreeOnObjects(data: JsValue)
    requires data.Object?
    ensures SanitizeResponseData(data) == SanitizeRequestData(data)
  {
    CopyEntriesAgree(data.entries, CleanIfString, CleanInput);
  }
}
