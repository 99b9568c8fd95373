/**
 * The `useInputValidation` composable behind the SafeInput component: it
 * holds an `errorMessage` and offers `validate`, which runs the checks of a
 * `validation` options object in a fixed order, stops at the first that
 * fails, records its message and answers whether the value passed.
 */
module InputValidation {
  import opened JsText

  /** The `validation` options. An absent option is its falsy default:
      `false`, the empty string, 0 or `None`. The caller's `pattern` RegExp
      is the predicate its `test` computes. */
  datatype Validation = Validation(
    required: bool,
    message: string,
    minLength: int,
    maxLength: int,
    pattern: Option<string -> bool>,
    email: bool)

  /** `useInputValidation()` called without options. */
  const NO_VALIDATION: Validation := Validation(false, "", 0, 0, None, false)

  const REQUIRED_MESSAGE: string := "此欄位為必填"
  const PATTERN_MESSAGE: string := "格式不正確"
  const EMAIL_MESSAGE: string := "請輸入有效的電子郵件地址"

  /** `validation.message || fallback`. */
  function MessageOr(message: string, fallback: string): (r: string)
    ensures fallback != "" ==> r != ""
    ensures r == message || r == fallback
  {
    if message != "" then message else fallback
  }

  /** The template `最少需要 ${minLength} 個字符`. */
  function MinLengthMessage(minLength: int): (r: string)
    ensures r != []
  {
    "最少需要 " + IntString(minLength) + " 個字符"
  }

  /** The template `不能超過 ${maxLength} 個字符`. */
  function MaxLengthMessage(maxLength: int): (r: string)
    ensures r != []
  {
    "不能超過 " + IntString(maxLength) + " 個字符"
  }

  // ---------------------------------------------------------------------
  // validateEmail

  /** `[^\s@]`. */
  predicate IsEmailChar(c: char) {
    !IsWhitespace(c) && c != '@'
  }

  predicate AllEmailChars(s: string) {
    forall i | 0 <= i < |s| :: IsEmailChar(s[i])
  }

  /** `/^[^\s@]+@[^\s@]+\.[^\s@]+$/.test(s)`: a non-empty part, `@`, a
      non-empty part, `.`, a non-empty part, none of the parts holding
      whitespace or `@`. */
  predicate ValidateEmail(s: string) {
    exists at, dot | 0 < at && at + 1 < dot && dot + 1 < |s| ::
      && s[at] == '@' && s[dot] == '.'
      && AllEmailChars(s[..at]) && AllEmailChars(s[at + 1..dot]) && AllEmailChars(s[dot + 1..])
  }

  /** The only `@` of `s` sits at index `at`. */
  predicate SoleAt(s: string, at: int) {
    0 <= at < |s| && s[at] == '@' && forall i | 0 <= i < |s| && i != at :: s[i] != '@'
  }

  /** The accepted addresses, described without the regular expression: no
      whitespace, exactly one `@` and not at the start, and after it a `.`
      that is neither the first nor the last character of the domain. */
  predicate PlainAddress(s: string) {
    && (forall i | 0 <= i < |s| :: !IsWhitespace(s[i]))
    && exists at | 0 < at < |s| :: SoleAt(s, at) && exists d | at + 1 < d < |s| - 1 :: s[d] == '.'
  }

  /** `validateEmail` accepts exactly the plain addresses. */
  lemma ValidateEmailIff(s: string)
    ensures ValidateEmail(s) <==> PlainAddress(s)
  {
    if ValidateEmail(s) {
      ValidatedIsPlain(s);
    }
    if PlainAddress(s) {
      PlainIsValidated(s);
    }
  }

  lemma ValidatedIsPlain(s: string)
    requires ValidateEmail(s)
    ensures PlainAddress(s)
  {
    var at, dot :| 0 < at && at + 1 < dot && dot + 1 < |s|
      && s[at] == '@' && s[dot] == '.'
      && AllEmailChars(s[..at]) && AllEmailChars(s[at + 1..dot]) && AllEmailChars(s[dot + 1..]);
    forall i | 0 <= i < |s| && i != at ensures IsEmailChar(s[i]) {
      if i < at {
        assert s[i] == s[..at][i];
      } else if i < dot {
        assert s[i] == s[at + 1..dot][i - at - 1];
      } else if i > dot {
        assert s[i] == s[dot + 1..][i - dot - 1];
      }
    }
    assert SoleAt(s, at);
  }

  lemma PlainIsValidated(s: string)
    requires PlainAddress(s)
    ensures ValidateEmail(s)
  {
    var at :| 0 < at < |s| && SoleAt(s, at) && exists d | at + 1 < d < |s| - 1 :: s[d] == '.';
    var dot :| at + 1 < dot < |s| - 1 && s[dot] == '.';
    assert AllEmailChars(s[..at]);
    assert AllEmailChars(s[at + 1..dot]);
    assert AllEmailChars(s[dot + 1..]);
  }

  // ---------------------------------------------------------------------
  // validate

  /** The message of the first check `value` fails, in the order required,
      minLength, maxLength, pattern, email; `None` when it fails none. */
  function FirstFailure(v: Validation, value: string): (r: Option<string>)
    ensures r.Some? ==> r.value != ""
  {
    if v.required && value == "" then Some(MessageOr(v.message, REQUIRED_MESSAGE))
    else if v.minLength != 0 && |value| < v.minLength then Some(MinLengthMessage(v.minLength))
    else if v.maxLength != 0 && |value| > v.maxLength then Some(MaxLengthMessage(v.maxLength))
    else if v.pattern.Some? && !v.pattern.value(value) then Some(MessageOr(v.message, PATTERN_MESSAGE))
    else if v.email && !ValidateEmail(value) then Some(MessageOr(v.message, EMAIL_MESSAGE))
    else None
  }

  /** `validate` passes a value exactly when it passes every check on its
      own: the order decides only which message is shown. */
  lemma PassesIffEveryCheck(v: Validation, value: string)
    ensures FirstFailure(v, value).None? <==>
      && !(v.required && value == "")
      && (v.minLength == 0 || |value| >= v.minLength)
      && (v.maxLength == 0 || |value| <= v.maxLength)
      && (v.pattern.Some? ==> v.pattern.value(value))
      && (v.email ==> ValidateEmail(value))
  {
  }

  /** Without options every value passes. */
  lemma NoValidationPassesAll(value: string)
    ensures FirstFailure(NO_VALIDATION, value) == None
  {
  }

  /** A required, empty value fails with the caller's message, or the default
      one when that is empty, whatever the other options say. */
  lemma RequiredEmptyMessage(v: Validation)
    requires v.required
    ensures FirstFailure(v, "") == Some(if v.message == "" then REQUIRED_MESSAGE else v.message)
  {
  }

  /** A length failure reports the bound and ignores the caller's message;
      an empty value that is not required still fails a positive
      `minLength`. */
  lemma LengthFailures(v: Validation, value: string)
    requires !(v.required && value == "")
    ensures v.minLength > |value| ==> FirstFailure(v, value) == Some(MinLengthMessage(v.minLength))
    ensures (v.minLength == 0 || |value| >= v.minLength) && v.maxLength != 0 && |value| > v.maxLength
            ==> FirstFailure(v, value) == Some(MaxLengthMessage(v.maxLength))
  {
  }

  /** Turning a check off never makes a passing value fail. */
  lemma DroppingChecksKeepsPass(v: Validation, value: string)
    requires FirstFailure(v, value).None?
    ensures FirstFailure(v.(required := false), value).None?
    ensures FirstFailure(v.(minLength := 0, maxLength := 0), value).None?
    ensures FirstFailure(v.(pattern := None), value).None?
    ensures FirstFailure(v.(email := false), value).None?
  {
    PassesIffEveryCheck(v, value);
  }

  /** The composable's state: the options it was created with and the
      current error message. */
  class InputValidator {
    const validation: Validation
    var errorMessage: string

    /** `useInputValidation(validation)`: the message starts out empty. */
    constructor (validation: Validation)
      ensures this.validation == validation
      ensures errorMessage == ""
    {
      this.validation := validation;
      errorMessage := "";
    }

    /** `validate(value)`: reset the message, then return at the first
        failing check with its message set. */
    method Validate(value: string) returns (ok: bool)
      modifies this
      ensures ok <==> FirstFailure(validation, value).None?
      ensures ok <==> errorMessage == ""
      ensures !ok ==> errorMessage == FirstFailure(validation, value).value
    {
      errorMessage := "";
      if validation.required && value == "" {
        errorMessage := MessageOr(validation.message, REQUIRED_MESSAGE);
        return false;
      }
      if validation.minLength != 0 && |value| < validation.minLength {
        errorMessage := MinLengthMessage(validation.minLength);
        return false;
      }
      if validation.maxLength != 0 && |value| > validation.maxLength {
        errorMessage := MaxLengthMessage(validation.maxLength);
        return false;
      }
      if validation.pattern.Some? && !validation.pattern.value(value) {
        errorMessage := MessageOr(validation.message, PATTERN_MESSAGE);
        return false;
      }
      if validation.email && !ValidateEmail(value) {
        errorMessage := MessageOr(validation.message, EMAIL_MESSAGE);
        return false;
      }
      return true;
    }
  }
}
