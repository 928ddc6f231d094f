/** The three input validators of src/validators.py. The regular expressions
    are written out as character-class predicates; `\d` is taken to mean the
    ASCII digits. Python's `$` also matches just before a final '\n': the
    functions named ...AsWritten keep that behaviour, the others match the
    whole string, and the two agree on every string that went through
    `strip()`, which is how every caller uses them. */
module Validators {
  import Text

  /** The `(is_valid, message)` pair returned by validate_password and validate_username. */
  datatype Verdict = Verdict(ok: bool, message: string)

  predicate IsAsciiUpper(c: char) { 'A' <= c <= 'Z' }
  predicate IsAsciiLower(c: char) { 'a' <= c <= 'z' }
  predicate IsAsciiLetter(c: char) { IsAsciiUpper(c) || IsAsciiLower(c) }
  predicate IsDigit(c: char) { '0' <= c <= '9' }
  /** `[a-zA-Z0-9_]` */
  predicate IsWordChar(c: char) { IsAsciiLetter(c) || IsDigit(c) || c == '_' }
  /** `[a-zA-Z0-9._%+-]`, the local part of an email. */
  predicate IsLocalChar(c: char) { IsAsciiLetter(c) || IsDigit(c) || c in "._%+-" }
  /** `[a-zA-Z0-9.-]`, the domain of an email. */
  predicate IsDomainChar(c: char) { IsAsciiLetter(c) || IsDigit(c) || c == '.' || c == '-' }
  /** `[!@#$%^&*(),.?":{}|<>]` */
  predicate IsSpecial(c: char) { c in "!@#$%^&*(),.?\":{}|<>" }

  /** Python's `$` in `re.match`: the pattern matches the whole of s, or all
      of s but a final newline. */
  predicate DollarMatch(s: string, matches: string -> bool) {
    matches(s) || (s != [] && s[|s| - 1] == '\n' && matches(s[..|s| - 1]))
  }

  // ---------------------------------------------------------------------
  // validate_email
  // ---------------------------------------------------------------------

  /** The '@' at `at` and the '.' at `dot` split s into a non-empty local
      part, a non-empty domain body and a top-level domain of at least two
      letters, each made of its own character class. */
  predicate EmailSplit(s: string, at: int, dot: int) {
    && 0 < at && at + 1 < dot && dot + 2 < |s|
    && s[at] == '@' && s[dot] == '.'
    && (forall i :: 0 <= i < at ==> IsLocalChar(s[i]))
    && (forall i :: at < i < dot ==> IsDomainChar(s[i]))
    && (forall i :: dot < i < |s| ==> IsAsciiLetter(s[i]))
  }

  /** `^[a-zA-Z0-9._%+-]+@[a-zA-Z0-9.-]+\.[a-zA-Z]{2,}` covering all of s. */
  predicate ValidateEmail(s: string) {
    exists at, dot | 0 < at < dot < |s| :: EmailSplit(s, at, dot)
  }

  /** validate_email as written: `re.match` with the `$` anchor. */
  function ValidateEmailAsWritten(s: string): (r: bool)
    ensures r <==> ValidateEmail(s) || (s != [] && s[|s| - 1] == '\n' && ValidateEmail(s[..|s| - 1]))
  {
    DollarMatch(s, ValidateEmail)
  }

  /** An accepted email holds exactly one '@', with something before it, is
      at least five characters long and ends in two ASCII letters. */
  lemma EmailShape(s: string)
    requires ValidateEmail(s)
    ensures exists at :: 0 < at < |s| && s[at] == '@' && forall j :: 0 <= j < |s| && s[j] == '@' ==> j == at
    ensures |s| >= 5 && IsAsciiLetter(s[|s| - 1]) && IsAsciiLetter(s[|s| - 2])
  {
    var at, dot :| 0 < at < dot < |s| && EmailSplit(s, at, dot);
    assert !IsLocalChar('@') && !IsDomainChar('@') && !IsAsciiLetter('@');
    // '@' belongs to none of the three classes, so it can only sit at `at`.
    forall j | 0 <= j < |s| && j != at
      ensures s[j] != '@'
    {
      if j < at {
        assert IsLocalChar(s[j]);
      } else if j < dot {
        assert IsDomainChar(s[j]);
      } else if dot < j {
        assert IsAsciiLetter(s[j]);
      }
    }
    assert IsAsciiLetter(s[|s| - 1]) && IsAsciiLetter(s[|s| - 2]);
  }

  /** Conversely, every local@domain.tld built from the three character classes is accepted. */
  lemma EmailFromParts(local: string, domain: string, tld: string)
    requires |local| > 0 && forall i :: 0 <= i < |local| ==> IsLocalChar(local[i])
    requires |domain| > 0 && forall i :: 0 <= i < |domain| ==> IsDomainChar(domain[i])
    requires |tld| >= 2 && forall i :: 0 <= i < |tld| ==> IsAsciiLetter(tld[i])
    ensures ValidateEmail(local + "@" + domain + "." + tld)
  {
    var s := local + "@" + domain + "." + tld;
    var at, dot := |local|, |local| + 1 + |domain|;
    assert s[at] == '@' && s[dot] == '.';
    assert forall i :: 0 <= i < at ==> s[i] == local[i];
    assert forall i :: at < i < dot ==> s[i] == domain[i - at - 1];
    assert forall i :: dot < i < |s| ==> s[i] == tld[i - dot - 1];
    assert EmailSplit(s, at, dot);
  }

  // ---------------------------------------------------------------------
  // validate_password
  // ---------------------------------------------------------------------

  const TooShortMessage := "La contraseña debe tener al menos 8 caracteres"
  const NoUpperMessage := "Debe contener al menos una mayúscula"
  const NoLowerMessage := "Debe contener al menos una minúscula"
  const NoDigitMessage := "Debe contener al menos un número"
  const NoSpecialMessage := "Debe contener al menos un carácter especial"
  const PasswordOkMessage := "Contraseña válida"

  /** `re.search(class, s) is not None` for a one-character class. */
  function Search(s: string, cls: char -> bool): (found: bool)
    ensures found <==> exists i :: 0 <= i < |s| && cls(s[i])
  {
    if s == [] then false
    else if cls(s[0]) then true
    else
      var rest := Search(s[1..], cls);
      assert rest ==> exists i :: 0 <= i < |s| && cls(s[i]) by {
        if rest {
          var i :| 0 <= i < |s| - 1 && cls(s[1..][i]);
          assert cls(s[i + 1]);
        }
      }
      assert (exists i :: 0 <= i < |s| && cls(s[i])) ==> rest by {
        if exists i :: 0 <= i < |s| && cls(s[i]) {
          var i :| 0 <= i < |s| && cls(s[i]);
          assert i > 0 && s[1..][i - 1] == s[i];
        }
      }
      rest
  }

  /** The five password rules, in the order the source checks them. */
  datatype PasswordRule = MinLength | Uppercase | Lowercase | Digit | Special

  const PasswordRules: seq<PasswordRule> := [MinLength, Uppercase, Lowercase, Digit, Special]

  /** The rule holds of s; the character-class rules ask for one character
      of the class somewhere in s (see Search). */
  predicate Satisfies(s: string, rule: PasswordRule) {
    match rule
    case MinLength => |s| >= 8
    case Uppercase => Search(s, IsAsciiUpper)
    case Lowercase => Search(s, IsAsciiLower)
    case Digit => Search(s, IsDigit)
    case Special => Search(s, IsSpecial)
  }

  /** The message that reports a broken rule. */
  function Reason(rule: PasswordRule): string {
    match rule
    case MinLength => TooShortMessage
    case Uppercase => NoUpperMessage
    case Lowercase => NoLowerMessage
    case Digit => NoDigitMessage
    case Special => NoSpecialMessage
  }

  /** Rule k is the first, in the fixed order, that s breaks. */
  predicate BreaksFirst(s: string, k: int) {
    && 0 <= k < |PasswordRules|
    && !Satisfies(s, PasswordRules[k])
    && forall j :: 0 <= j < k ==> Satisfies(s, PasswordRules[j])
  }

  /** validate_password: accepted iff every rule holds; otherwise the reason
      given is that of the first rule, in the fixed order, that fails. */
  function ValidatePassword(s: string): (r: Verdict)
    ensures r.ok <==> forall k :: 0 <= k < |PasswordRules| ==> Satisfies(s, PasswordRules[k])
    ensures r.ok ==> r.message == PasswordOkMessage
    ensures !r.ok ==> exists k :: BreaksFirst(s, k) && r.message == Reason(PasswordRules[k])
  {
    if |s| < 8 then
      assert BreaksFirst(s, 0);
      Verdict(false, TooShortMessage)
    else if !Search(s, IsAsciiUpper) then
      assert BreaksFirst(s, 1);
      Verdict(false, NoUpperMessage)
    else if !Search(s, IsAsciiLower) then
      assert BreaksFirst(s, 2);
      Verdict(false, NoLowerMessage)
    else if !Search(s, IsDigit) then
      assert BreaksFirst(s, 3);
      Verdict(false, NoDigitMessage)
    else if !Search(s, IsSpecial) then
      assert BreaksFirst(s, 4);
      Verdict(false, NoSpecialMessage)
    else
      Verdict(true, PasswordOkMessage)
  }

  /** The length rule is checked first: a short password is always refused
      for its length, whatever else it lacks. */
  lemma ShortPasswordRefusedForLength(s: string)
    requires |s| < 8
    ensures ValidatePassword(s) == Verdict(false, TooShortMessage)
  {
  }

  /** A password with one character of every kind, eight long, is accepted. */
  lemma SamplePasswordAccepted()
    ensures ValidatePassword("Abcd123!").ok
  {
    var s := "Abcd123!";
    assert IsAsciiUpper(s[0]) && IsAsciiLower(s[1]) && IsDigit(s[4]) && IsSpecial(s[7]);
  }

  // ---------------------------------------------------------------------
  // validate_username
  // ---------------------------------------------------------------------

  const UsernameRuleMessage := "El usuario debe tener 3-20 caracteres, comenzar con letra y solo contener letras, números y guiones bajos"
  const UsernameOkMessage := "Usuario válido"

  /** `[a-zA-Z0-9_]{lo,hi}` followed by the end of the input, consumed one
      character at a time as a regex engine does. */
  predicate WordRun(t: string, lo: nat, hi: nat) {
    if t == [] then lo == 0
    else hi > 0 && IsWordChar(t[0]) && WordRun(t[1..], if lo == 0 then 0 else lo - 1, hi - 1)
  }

  lemma {:induction false} WordRunMeaning(t: string, lo: nat, hi: nat)
    ensures WordRun(t, lo, hi) <==> lo <= |t| <= hi && forall i :: 0 <= i < |t| ==> IsWordChar(t[i])
  {
    if t != [] && hi > 0 {
      WordRunMeaning(t[1..], if lo == 0 then 0 else lo - 1, hi - 1);
      assert forall i :: 1 <= i < |t| ==> t[1..][i - 1] == t[i];
    }
  }

  /** `^[a-zA-Z][a-zA-Z0-9_]{2,19}` covering all of s. */
  predicate UsernamePattern(s: string) {
    s != [] && IsAsciiLetter(s[0]) && WordRun(s[1..], 2, 19)
  }

  /** validate_username: 3 to 20 characters, an ASCII letter first, then
      only ASCII letters, digits and underscores. */
  function ValidateUsername(s: string): (r: Verdict)
    ensures r.ok <==> 3 <= |s| <= 20 && IsAsciiLetter(s[0])
                      && forall i :: 1 <= i < |s| ==> IsWordChar(s[i])
    ensures r.message == if r.ok then UsernameOkMessage else UsernameRuleMessage
  {
    if s != [] then
      WordRunMeaning(s[1..], 2, 19);
      assert forall i :: 1 <= i < |s| ==> s[1..][i - 1] == s[i];
      if UsernamePattern(s) then Verdict(true, UsernameOkMessage) else Verdict(false, UsernameRuleMessage)
    else
      Verdict(false, UsernameRuleMessage)
  }

  /** A username that starts with a digit or an underscore is refused. */
  lemma UsernameMustStartWithLetter(s: string)
    requires s != [] && (IsDigit(s[0]) || s[0] == '_')
    ensures ValidateUsername(s) == Verdict(false, UsernameRuleMessage)
  {
  }

  /** validate_username as written: `re.match` with the `$` anchor. */
  function ValidateUsernameAsWritten(s: string): (r: Verdict)
    ensures r.ok <==> ValidateUsername(s).ok
                      || (s != [] && s[|s| - 1] == '\n' && ValidateUsername(s[..|s| - 1]).ok)
    ensures r.message == if r.ok then UsernameOkMessage else UsernameRuleMessage
  {
    if DollarMatch(s, UsernamePattern) then Verdict(true, UsernameOkMessage)
    else Verdict(false, UsernameRuleMessage)
  }

  /** As written, a username with a trailing newline passes, although the
      rule it enforces forbids any character but letters, digits and '_'. */
  lemma UsernameTrailingNewlineAccepted()
    ensures ValidateUsernameAsWritten("abc\n").ok
    ensures !ValidateUsername("abc\n").ok
  {
    assert "abc\n"[..3] == "abc";
  }

  /** As written, an email with a trailing newline passes as well. */
  lemma EmailTrailingNewlineAccepted()
    ensures ValidateEmailAsWritten("a@b.co\n")
    ensures !ValidateEmail("a@b.co\n")
  {
    EmailFromParts("a", "b", "co");
    assert "a@b.co\n"[..6] == "a" + "@" + "b" + "." + "co";
    assert !IsAsciiLetter("a@b.co\n"[6]);
    if ValidateEmail("a@b.co\n") {
      EmailShape("a@b.co\n");
    }
  }

  /** Every caller strips its input first, and on stripped input the
      validators as written and as intended agree. */
  lemma AsWrittenAgreesOnStrippedInput(s: string)
    requires s == [] || !Text.IsSpace(s[|s| - 1])
    ensures ValidateUsernameAsWritten(s) == ValidateUsername(s)
    ensures ValidateEmailAsWritten(s) == ValidateEmail(s)
  {
    assert s != [] ==> s[|s| - 1] != '\n';
  }
}
