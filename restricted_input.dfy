/**
 * RestrictedInput: a text field that, on submit, strips its value and
 * checks it against a registered custom validator, one of six built-in
 * patterns, or a raw regular expression, then shows the verdict through
 * its border colour and error text and reports it to an `on_validate`
 * callback.
 *
 * The six built-in regular expressions are written out as explicit
 * matchers (`EmailMatch`, ...), each paired with a declarative reading
 * of the pattern (`EmailShape`, ...) and a lemma proving the two agree.
 * A raw regular expression supplied by the user is an oracle parameter.
 */
module RestrictedInput {
  import opened Wrappers
  import opened PyStr

  // ---------------------------------------------------------------
  // Character classes (ASCII readings of `\w` and `\d`)
  // ---------------------------------------------------------------

  predicate IsAsciiLetter(c: char) { 'A' <= c <= 'Z' || 'a' <= c <= 'z' }

  predicate IsDigit(c: char) { '0' <= c <= '9' }

  /** `\w` */
  predicate IsWord(c: char) { IsAsciiLetter(c) || IsDigit(c) || c == '_' }

  /** `[\w\.-]` */
  predicate IsEmailChar(c: char) { IsWord(c) || c == '.' || c == '-' }

  /** `[A-Za-zÁÉÍÓÚáéíóúñÑ\s]` */
  predicate IsLetterChar(c: char)
  {
    IsAsciiLetter(c) || IsSpace(c) ||
    c == '\U{C1}' || c == '\U{C9}' || c == '\U{CD}' || c == '\U{D3}' || c == '\U{DA}' ||
    c == '\U{E1}' || c == '\U{E9}' || c == '\U{ED}' || c == '\U{F3}' || c == '\U{FA}' ||
    c == '\U{F1}' || c == '\U{D1}'
  }

  /** `[A-Za-z0-9]` */
  predicate IsAlnum(c: char) { IsAsciiLetter(c) || IsDigit(c) }

  /** `[A-Za-z\d@$!%*?&]` */
  predicate IsPasswordChar(c: char)
  {
    IsAsciiLetter(c) || IsDigit(c) ||
    c == '@' || c == '$' || c == '!' || c == '%' || c == '*' || c == '?' || c == '&'
  }

  /** Every character of `s[lo..hi]` is in the class `p`. */
  predicate AllIn(s: string, lo: nat, hi: nat, p: char -> bool)
    requires lo <= hi <= |s|
  {
    forall k :: lo <= k < hi ==> p(s[k])
  }

  /** Position of the first `c` at or after `i`. */
  function FirstIndex(s: string, c: char, i: nat): (r: Option<nat>)
    requires i <= |s|
    ensures r.Some? ==> i <= r.value < |s| && s[r.value] == c
    ensures r.Some? ==> forall k :: i <= k < r.value ==> s[k] != c
    ensures r.None? ==> forall k :: i <= k < |s| ==> s[k] != c
    decreases |s| - i
  {
    if i == |s| then None
    else if s[i] == c then Some(i)
    else FirstIndex(s, c, i + 1)
  }

  /** Position of the last `c` before `j`. */
  function LastIndex(s: string, c: char, j: nat): (r: Option<nat>)
    requires j <= |s|
    ensures r.Some? ==> r.value < j && s[r.value] == c
    ensures r.Some? ==> forall k :: r.value < k < j ==> s[k] != c
    ensures r.None? ==> forall k :: 0 <= k < j ==> s[k] != c
  {
    if j == 0 then None
    else if s[j - 1] == c then Some(j - 1)
    else LastIndex(s, c, j - 1)
  }

  // ---------------------------------------------------------------
  // Built-in patterns
  // ---------------------------------------------------------------

  /**
   * `^[\w\.-]+@[\w\.-]+\.\w+$`: the first `@` ends the local part and the
   * last `.` starts the final word.
   */
  predicate EmailMatch(v: string)
  {
    match FirstIndex(v, '@', 0)
    case None => false
    case Some(a) =>
      match LastIndex(v, '.', |v|)
      case None => false
      case Some(p) =>
        0 < a && a + 1 < p && p + 1 < |v| &&
        AllIn(v, 0, a, IsEmailChar) && AllIn(v, a + 1, p, IsEmailChar) && AllIn(v, p + 1, |v|, IsWord)
  }

  /** The email pattern read as a shape: local part, `@`, domain, `.`, final word. */
  predicate EmailShape(v: string)
  {
    exists a: nat, p: nat ::
      0 < a && a + 1 < p && p + 1 < |v| && v[a] == '@' && v[p] == '.' &&
      AllIn(v, 0, a, IsEmailChar) && AllIn(v, a + 1, p, IsEmailChar) && AllIn(v, p + 1, |v|, IsWord)
  }

  lemma EmailMatchShape(v: string)
    ensures EmailMatch(v) <==> EmailShape(v)
  {
    if EmailShape(v) {
      var a: nat, p: nat :|
        0 < a && a + 1 < p && p + 1 < |v| && v[a] == '@' && v[p] == '.' &&
        AllIn(v, 0, a, IsEmailChar) && AllIn(v, a + 1, p, IsEmailChar) && AllIn(v, p + 1, |v|, IsWord);
      var fa := FirstIndex(v, '@', 0);
      var lp := LastIndex(v, '.', |v|);
      assert fa == Some(a) by {
        assert !IsEmailChar('@');
      }
      assert lp == Some(p) by {
        assert !IsWord('.');
      }
    }
    if EmailMatch(v) {
      var a := FirstIndex(v, '@', 0).value;
      var p := LastIndex(v, '.', |v|).value;
      assert v[a] == '@' && v[p] == '.';
    }
  }

  /** `^\+?\d{7,15}$` */
  predicate PhoneMatch(v: string)
  {
    var s := if 0 < |v| && v[0] == '+' then 1 else 0;
    7 <= |v| - s <= 15 && AllIn(v, s, |v|, IsDigit)
  }

  /** The phone pattern read as a shape: an optional `+` followed by 7 to 15 digits. */
  predicate PhoneShape(v: string)
  {
    exists s: nat :: s <= 1 && s <= |v| && (s == 1 ==> v[0] == '+') &&
      7 <= |v| - s <= 15 && AllIn(v, s, |v|, IsDigit)
  }

  lemma PhoneMatchShape(v: string)
    ensures PhoneMatch(v) <==> PhoneShape(v)
  {
    var s := if 0 < |v| && v[0] == '+' then 1 else 0;
    if PhoneShape(v) {
      var s': nat :| s' <= 1 && s' <= |v| && (s' == 1 ==> v[0] == '+') &&
        7 <= |v| - s' <= 15 && AllIn(v, s', |v|, IsDigit);
      assert s' == s by { assert !IsDigit('+'); }
    }
    if PhoneMatch(v) {
      assert s <= 1 && s <= |v| && (s == 1 ==> v[0] == '+') && 7 <= |v| - s <= 15 && AllIn(v, s, |v|, IsDigit);
    }
  }

  /** `^-?\d+(\.\d+)?$`: the first `.` after the sign starts the fraction. */
  predicate NumberMatch(v: string)
  {
    var s := if 0 < |v| && v[0] == '-' then 1 else 0;
    match FirstIndex(v, '.', s)
    case None => s < |v| && AllIn(v, s, |v|, IsDigit)
    case Some(p) => s < p && p + 1 < |v| && AllIn(v, s, p, IsDigit) && AllIn(v, p + 1, |v|, IsDigit)
  }

  /**
   * The number pattern read as a shape: an optional `-`, digits up to `p`,
   * and either nothing more or `.` followed by digits.
   */
  predicate NumberShape(v: string)
  {
    exists s: nat, p: nat :: s <= 1 && (s == 1 ==> 0 < |v| && v[0] == '-') && s < p <= |v| &&
      AllIn(v, s, p, IsDigit) &&
      (p == |v| || (p + 1 < |v| && v[p] == '.' && AllIn(v, p + 1, |v|, IsDigit)))
  }

  lemma NumberMatchShape(v: string)
    ensures NumberMatch(v) <==> NumberShape(v)
  {
    var s := if 0 < |v| && v[0] == '-' then 1 else 0;
    if NumberShape(v) {
      var s': nat, p: nat :| s' <= 1 && (s' == 1 ==> 0 < |v| && v[0] == '-') && s' < p <= |v| &&
        AllIn(v, s', p, IsDigit) &&
        (p == |v| || (p + 1 < |v| && v[p] == '.' && AllIn(v, p + 1, |v|, IsDigit)));
      assert s' == s by { assert !IsDigit('-'); }
      assert !IsDigit('.');
      if p == |v| {
        assert FirstIndex(v, '.', s).None?;
      } else {
        assert FirstIndex(v, '.', s) == Some(p);
      }
    }
    if NumberMatch(v) {
      match FirstIndex(v, '.', s)
      case None =>
        assert s <= 1 && (s == 1 ==> 0 < |v| && v[0] == '-') && s < |v| <= |v| && AllIn(v, s, |v|, IsDigit);
      case Some(p) =>
        assert s <= 1 && (s == 1 ==> 0 < |v| && v[0] == '-') && s < p <= |v| && AllIn(v, s, p, IsDigit) &&
          p + 1 < |v| && v[p] == '.' && AllIn(v, p + 1, |v|, IsDigit);
    }
  }

  /** `^[A-Za-zÁÉÍÓÚáéíóúñÑ\s]+$` */
  predicate LettersMatch(v: string)
  {
    0 < |v| && AllIn(v, 0, |v|, IsLetterChar)
  }

  /** `^[A-Za-z0-9]+$` */
  predicate AlphanumericMatch(v: string)
  {
    0 < |v| && AllIn(v, 0, |v|, IsAlnum)
  }

  /** The look-ahead `(?=.*X)`: some `X` character before the first line feed. */
  predicate LookAhead(v: string, x: char -> bool)
  {
    exists k :: 0 <= k < |v| && x(v[k]) && forall j :: 0 <= j < k ==> v[j] != '\n'
  }

  /** `^(?=.*[A-Za-z])(?=.*\d)[A-Za-z\d@$!%*?&]{6,}$` */
  predicate PasswordMatch(v: string)
  {
    LookAhead(v, IsAsciiLetter) && LookAhead(v, IsDigit) &&
    6 <= |v| && AllIn(v, 0, |v|, IsPasswordChar)
  }

  /**
   * Because no password character is a line feed, the look-aheads reduce
   * to "contains a letter" and "contains a digit".
   */
  lemma PasswordRule(v: string)
    ensures PasswordMatch(v) <==>
      6 <= |v| && AllIn(v, 0, |v|, IsPasswordChar) &&
      (exists k :: 0 <= k < |v| && IsAsciiLetter(v[k])) &&
      (exists k :: 0 <= k < |v| && IsDigit(v[k]))
  {
    if 6 <= |v| && AllIn(v, 0, |v|, IsPasswordChar) {
      assert forall j :: 0 <= j < |v| ==> v[j] != '\n' by {
        forall j | 0 <= j < |v| ensures v[j] != '\n' { assert IsPasswordChar(v[j]); }
      }
    }
  }

  /** `re.fullmatch(".*", v)`: `.` matches everything but a line feed. */
  predicate DotStarMatch(v: string)
  {
    forall k :: 0 <= k < |v| ==> v[k] != '\n'
  }

  /** The keys of the built-in pattern table. */
  const PatternNames: set<string> := {"email", "phone", "number", "letters", "alphanumeric", "password"}

  /** `re.fullmatch(PATTERNS[name], v) is not None`. */
  predicate BuiltInMatch(name: string, v: string)
    requires name in PatternNames
  {
    if name == "email" then EmailMatch(v)
    else if name == "phone" then PhoneMatch(v)
    else if name == "number" then NumberMatch(v)
    else if name == "letters" then LettersMatch(v)
    else if name == "alphanumeric" then AlphanumericMatch(v)
    else PasswordMatch(v)
  }

  // ---------------------------------------------------------------
  // Custom validators and the validation decision
  // ---------------------------------------------------------------

  /** The Python exceptions that `_validate_input` and `register_validator` can raise. */
  datatype PyError = TypeError | NotImplementedError | RegexError

  /**
   * A validator class: whether it inherits from `BaseValidator`, its
   * `validate` (None when it does not override the base, whose `validate`
   * raises NotImplementedError) and what its `error_message` returns.
   */
  datatype ValidatorClass = ValidatorClass(
    isBaseValidator: bool,
    validate: Option<string -> bool>,
    errorMessage: Option<string>)

  /** `BaseValidator.error_message()`. */
  const DefaultErrorMessage: string := "Entrada inv\U{E1}lida."

  /** A subclass of `BaseValidator` overriding only `validate`. */
  function Subclass(validate: string -> bool): (cls: ValidatorClass)
    ensures cls.isBaseValidator && cls.validate == Some(validate)
    ensures cls.errorMessage == Some(DefaultErrorMessage)
  {
    ValidatorClass(true, Some(validate), Some(DefaultErrorMessage))
  }

  /**
   * A user-supplied regular expression: `oracle(regex, value)` is None when
   * `re` rejects the expression, else whether it matches the whole value.
   */
  type RegexOracle = (string, string) -> Option<bool>

  /** The message shown for a failed regex pattern. */
  function PatternError(name: string): string
  {
    "Entrada inv\U{E1}lida (" + name + ")"
  }

  /** The outcome of one validation: `valid`, `pattern_name` and `error_msg`. */
  datatype Verdict = Verdict(valid: bool, patternName: string, errorMsg: Option<string>)

  /** `self.pattern or "custom"`. */
  function PatternName(pattern: Option<string>): (name: string)
    ensures name == "custom" <==> pattern.None? || pattern.value == "" || pattern.value == "custom"
    ensures pattern.Some? && pattern.value != "" ==> name == pattern.value
  {
    if pattern.None? || pattern.value == "" then "custom" else pattern.value
  }

  /**
   * `re.fullmatch(PATTERNS.get(pattern, pattern or ".*"), value)`: a built-in
   * name uses its pattern, the empty string stands for `.*`, anything else
   * is compiled as a regular expression.
   */
  function RegexVerdict(pattern: string, oracle: RegexOracle, value: string): (r: Option<bool>)
    ensures pattern in PatternNames ==> r == Some(BuiltInMatch(pattern, value))
    ensures pattern == "" ==> r == Some(DotStarMatch(value))
    ensures pattern !in PatternNames && pattern != "" ==> r == oracle(pattern, value)
  {
    if pattern in PatternNames then Some(BuiltInMatch(pattern, value))
    else if pattern == "" then Some(DotStarMatch(value))
    else oracle(pattern, value)
  }

  /**
   * The decision `_validate_input` makes for the stripped `value`: a
   * registered custom validator first, then a regex pattern, and no pattern
   * at all accepts everything.
   */
  function Decide(pattern: Option<string>, registry: map<string, ValidatorClass>,
                  oracle: RegexOracle, value: string): (r: Result<Verdict, PyError>)
    ensures r.Ok? ==> r.value.patternName == PatternName(pattern)
    ensures pattern.None? ==> r == Ok(Verdict(true, "custom", None))
    ensures pattern.Some? && pattern.value in registry ==>
      match registry[pattern.value].validate
      case None => r == Err(NotImplementedError)
      case Some(f) => r.Ok? && r.value.valid == f(value) &&
                      r.value.errorMsg == registry[pattern.value].errorMessage
    ensures pattern.Some? && pattern.value !in registry ==>
      match RegexVerdict(pattern.value, oracle, value)
      case None => r == Err(RegexError)
      case Some(ok) => r.Ok? && r.value.valid == ok &&
                       (r.value.errorMsg.Some? <==> !ok) &&
                       (!ok ==> r.value.errorMsg == Some(PatternError(PatternName(pattern))))
  {
    var name := PatternName(pattern);
    if pattern.Some? && pattern.value in registry then
      var cls := registry[pattern.value];
      match cls.validate
      case None => Err(NotImplementedError)
      case Some(f) => Ok(Verdict(f(value), name, cls.errorMessage))
    else if pattern.Some? then
      match RegexVerdict(pattern.value, oracle, value)
      case None => Err(RegexError)
      case Some(ok) => Ok(Verdict(ok, name, if ok then None else Some(PatternError(name))))
    else
      Ok(Verdict(true, name, None))
  }

  // ---------------------------------------------------------------
  // Visual state
  // ---------------------------------------------------------------

  datatype Colour = Grey400 | Green400 | Red400

  datatype Look = Look(border: Colour, errorText: Option<string>)

  /**
   * The border colour and error text after a verdict: an empty value is
   * never flagged, a valid non-empty one is green, an invalid non-empty one
   * is red with a non-empty message.
   */
  function Appearance(valid: bool, errorMsg: Option<string>, value: string): (l: Look)
    ensures l.border == Grey400 <==> value == ""
    ensures l.border == Green400 <==> valid && value != ""
    ensures l.border == Red400 <==> !valid && value != ""
    ensures l.errorText.Some? <==> l.border == Red400
    ensures l.errorText.Some? ==> l.errorText.value != []
    ensures l.errorText.Some? && errorMsg.Some? && errorMsg.value != "" ==> l.errorText == errorMsg
    ensures l.errorText.Some? && (errorMsg.None? || errorMsg.value == "") ==>
      l.errorText == Some(DefaultErrorMessage)
  {
    if valid || value == "" then
      Look(if value != "" then Green400 else Grey400, None)
    else
      Look(Red400, Some(if errorMsg.None? || errorMsg.value == "" then DefaultErrorMessage else errorMsg.value))
  }

  /** The `RestrictedInputEvent` passed to `on_validate` (its `data` equals `value`). */
  datatype ValidateEvent = ValidateEvent(valid: bool, patternName: string, value: string)

  // ---------------------------------------------------------------
  // Properties of the decision
  // ---------------------------------------------------------------

  /** A registered validator wins even over a built-in pattern of the same name. */
  lemma CustomFirst(name: string, registry: map<string, ValidatorClass>, oracle: RegexOracle,
                    value: string, f: string -> bool)
    requires name in registry && registry[name].validate == Some(f)
    ensures Decide(Some(name), registry, oracle, value) ==
      Ok(Verdict(f(value), PatternName(Some(name)), registry[name].errorMessage))
  {
  }

  /** After registering `cls` under `name`, validation under `name` uses it. */
  lemma RegisteredIsUsed(name: string, registry: map<string, ValidatorClass>, cls: ValidatorClass,
                         oracle: RegexOracle, value: string)
    requires cls.isBaseValidator && cls.validate.Some?
    ensures var r := Decide(Some(name), registry[name := cls], oracle, value);
      r.Ok? && r.value.valid == cls.validate.value(value) && r.value.errorMsg == cls.errorMessage
  {
  }

  /** The empty pattern is "custom" and accepts exactly the values without a line feed. */
  lemma EmptyPattern(registry: map<string, ValidatorClass>, oracle: RegexOracle, value: string)
    requires "" !in registry
    ensures var r := Decide(Some(""), registry, oracle, value);
      r.Ok? && r.value.patternName == "custom" && (r.value.valid <==> DotStarMatch(value))
  {
  }

  /** An accepted email address. */
  lemma EmailAccepts()
    ensures EmailMatch("a@b.com")
  {
    var v := "a@b.com";
    assert FirstIndex(v, '@', 0) == Some(1) by {
      assert v[0] == 'a' && v[1] == '@';
    }
    assert LastIndex(v, '.', 7) == Some(3) by {
      assert v[6] == 'm' && v[5] == 'o' && v[4] == 'c' && v[3] == '.';
    }
  }

  /** "a@b.com" is valid under "email"; "abc" is invalid with the message naming the pattern. */
  lemma EmailExamples(registry: map<string, ValidatorClass>, oracle: RegexOracle)
    requires "email" !in registry
    ensures Decide(Some("email"), registry, oracle, "a@b.com") == Ok(Verdict(true, "email", None))
    ensures Decide(Some("email"), registry, oracle, "abc") ==
      Ok(Verdict(false, "email", Some("Entrada inv\U{E1}lida (email)")))
    ensures Appearance(false, Some(PatternError("email")), "abc") ==
      Look(Red400, Some("Entrada inv\U{E1}lida (email)"))
  {
    EmailAccepts();
    assert FirstIndex("abc", '@', 0).None? by {
      assert forall k :: 0 <= k < 3 ==> "abc"[k] != '@';
    }
    assert !EmailMatch("abc");
    assert PatternError("email") == "Entrada inv\U{E1}lida (email)";
  }

  /** An empty submission that fails its pattern is shown neutral, yet reported invalid. */
  lemma EmptyValueNeutral(registry: map<string, ValidatorClass>, oracle: RegexOracle)
    requires "email" !in registry
    ensures var r := Decide(Some("email"), registry, oracle, "");
      r.Ok? && !r.value.valid && Appearance(r.value.valid, r.value.errorMsg, "") == Look(Grey400, None)
  {
  }

  // ---------------------------------------------------------------
  // The registry and the widget
  // ---------------------------------------------------------------

  /** The class-level `CUSTOM_VALIDATORS` table, shared by every input. */
  class ValidatorRegistry {
    var validators: map<string, ValidatorClass>

    constructor()
      ensures validators == map[]
    {
      validators := map[];
    }

    /** `register_validator`: only `BaseValidator` subclasses are accepted. */
    method Register(name: string, cls: ValidatorClass) returns (r: Result<(), PyError>)
      modifies this
      ensures !cls.isBaseValidator ==> r == Err(TypeError) && validators == old(validators)
      ensures cls.isBaseValidator ==> r == Ok(()) && validators == old(validators)[name := cls]
    {
      if !cls.isBaseValidator {
        return Err(TypeError);
      }
      validators := validators[name := cls];
      return Ok(());
    }
  }

  class RestrictedInput {
    const pattern: Option<string>
    /** Whether an `on_validate` callback was given. */
    const hasOnValidate: bool
    var borderColour: Colour
    var errorText: Option<string>
    /** The events delivered to `on_validate`, oldest first. */
    var events: seq<ValidateEvent>

    constructor(pattern: Option<string>, hasOnValidate: bool)
      ensures this.pattern == pattern && this.hasOnValidate == hasOnValidate
      ensures borderColour == Grey400 && errorText == None && events == []
    {
      this.pattern := pattern;
      this.hasOnValidate := hasOnValidate;
      borderColour := Grey400;
      errorText := None;
      events := [];
    }

    /**
     * `_validate_input` on submit of `raw`: the stripped value is judged,
     * the look updated, and the verdict reported to `on_validate`. A
     * raised exception leaves the field as it was.
     */
    method ValidateInput(raw: string, registry: ValidatorRegistry, oracle: RegexOracle)
      returns (r: Result<Verdict, PyError>)
      modifies this
      ensures r == Decide(pattern, registry.validators, oracle, Strip(raw))
      ensures r.Err? ==> borderColour == old(borderColour) && errorText == old(errorText) &&
                         events == old(events)
      ensures r.Ok? ==> Look(borderColour, errorText) == Appearance(r.value.valid, r.value.errorMsg, Strip(raw))
      ensures r.Ok? ==> (events == old(events) +
        (if hasOnValidate then [ValidateEvent(r.value.valid, r.value.patternName, Strip(raw))] else []))
    {
      var value := Strip(raw);
      r := Decide(pattern, registry.validators, oracle, value);
      if r.Err? {
        return;
      }
      var look := Appearance(r.value.valid, r.value.errorMsg, value);
      borderColour := look.border;
      errorText := look.errorText;
      if hasOnValidate {
        events := events + [ValidateEvent(r.value.valid, r.value.patternName, value)];
      }
    }
  }

  /**
   * Submitting the value the field already shows stripped gives the same
   * verdict: validation sees only the stripped text.
   */
  lemma ResubmitSameVerdict(pattern: Option<string>, registry: map<string, ValidatorClass>,
                            oracle: RegexOracle, raw: string)
    ensures Decide(pattern, registry, oracle, Strip(Strip(raw))) == Decide(pattern, registry, oracle, Strip(raw))
  {
    StripIdempotent(raw);
  }
}
