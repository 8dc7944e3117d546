/**
 * The sign-up validators: the email shape check, the password policy (written
 * twice in the source, as a validator class and as the serializer's
 * `validate_password`) and the terms check. A raised `ValidationError` is an
 * `Err` carrying its message; an accepted value comes back as `Ok`.
 */
module Serializers {
  import opened Wrappers
  import opened Text

  const InvalidEmailMessage := "El correo electrónico no es válido"
  const MinLengthMessage := "La contraseña debe tener mínimo 8 caracteres"
  const UppercaseMessage := "Debe contener al menos una letra mayúscula"
  const LowercaseMessage := "Debe contener al menos una letra minúscula"
  const DigitMessage := "Debe contener al menos un número"
  const SpecialMessage := "Debe contener al menos un caracter especial"
  const TermsMessage := "Debes aceptar los términos y condiciones"

  const MinPasswordLength := 8

  /** The members of the character class `[!@#$%^&*(),.?":{}|<>]`. */
  const SpecialChars := "!@#$%^&*(),.?\":{}|<>"

  // ---------------------------------------------------------------------------
  // Password policy

  predicate HasUppercase(s: string) { exists i :: 0 <= i < |s| && IsUpperAscii(s[i]) }
  predicate HasLowercase(s: string) { exists i :: 0 <= i < |s| && IsLowerAscii(s[i]) }
  predicate HasDigit(s: string) { exists i :: 0 <= i < |s| && IsDigit(s[i]) }
  predicate HasSpecial(s: string) { exists i :: 0 <= i < |s| && s[i] in SpecialChars }

  /** `PasswordValidator.__call__`: the checks run in order and the first one
      that fails decides the message. */
  function PasswordValidator(value: string): (r: Result<string, string>)
    ensures r.Ok? ==> r.value == value && |value| >= MinPasswordLength
    ensures r.Err? ==> r.error in {MinLengthMessage, UppercaseMessage, LowercaseMessage,
                                   DigitMessage, SpecialMessage}
  {
    if |value| < MinPasswordLength then Err(MinLengthMessage)
    else if !HasUppercase(value) then Err(UppercaseMessage)
    else if !HasLowercase(value) then Err(LowercaseMessage)
    else if !HasDigit(value) then Err(DigitMessage)
    else if !HasSpecial(value) then Err(SpecialMessage)
    else Ok(value)
  }

  /** `UserCreateSerializer.validate_password`, a second copy of the policy. */
  function ValidatePassword(value: string): (r: Result<string, string>)
    ensures r == PasswordValidator(value)
  {
    if |value| < MinPasswordLength then Err(MinLengthMessage)
    else if !HasUppercase(value) then Err(UppercaseMessage)
    else if !HasLowercase(value) then Err(LowercaseMessage)
    else if !HasDigit(value) then Err(DigitMessage)
    else if !HasSpecial(value) then Err(SpecialMessage)
    else Ok(value)
  }

  /** The policy as an ordered list of rules, each with its message. */
  datatype Rule = MinLength | Uppercase | Lowercase | Digit | Special

  const PolicyOrder: seq<Rule> := [MinLength, Uppercase, Lowercase, Digit, Special]

  predicate Holds(rule: Rule, s: string) {
    match rule
    case MinLength => |s| >= MinPasswordLength
    case Uppercase => HasUppercase(s)
    case Lowercase => HasLowercase(s)
    case Digit => HasDigit(s)
    case Special => HasSpecial(s)
  }

  function Message(rule: Rule): string {
    match rule
    case MinLength => MinLengthMessage
    case Uppercase => UppercaseMessage
    case Lowercase => LowercaseMessage
    case Digit => DigitMessage
    case Special => SpecialMessage
  }

  /** A password is accepted exactly when every rule holds, and then it is
      returned unchanged. */
  lemma PasswordAcceptedIffAllRules(value: string)
    ensures PasswordValidator(value).Ok? <==> forall rule :: Holds(rule, value)
    ensures PasswordValidator(value).Ok? ==> PasswordValidator(value).value == value
  {
    if forall rule :: Holds(rule, value) {
      assert Holds(MinLength, value) && Holds(Uppercase, value) && Holds(Lowercase, value);
      assert Holds(Digit, value) && Holds(Special, value);
    }
  }

  /** The message reported is that of rule k exactly when rule k fails and all
      rules before it in the policy order hold. */
  lemma PasswordFirstFailureWins(value: string, k: nat)
    requires k < |PolicyOrder|
    ensures PasswordValidator(value) == Err(Message(PolicyOrder[k]))
            <==> !Holds(PolicyOrder[k], value) && forall j :: 0 <= j < k ==> Holds(PolicyOrder[j], value)
  {
    if forall j :: 0 <= j < k ==> Holds(PolicyOrder[j], value) {
      if k > 0 { assert Holds(PolicyOrder[0], value); }
      if k > 1 { assert Holds(PolicyOrder[1], value); }
      if k > 2 { assert Holds(PolicyOrder[2], value); }
      if k > 3 { assert Holds(PolicyOrder[3], value); }
    }
  }

  lemma PasswordExamples()
    ensures PasswordValidator("Abc1!") == Err(MinLengthMessage)
    ensures PasswordValidator("abcdefg1!") == Err(UppercaseMessage)
    ensures PasswordValidator("Abcdefg1!").Ok?
  {
    assert IsUpperAscii("Abcdefg1!"[0]) && IsLowerAscii("Abcdefg1!"[1]);
    assert IsDigit("Abcdefg1!"[7]) && "Abcdefg1!"[8] in SpecialChars;
  }

  // ---------------------------------------------------------------------------
  // Terms

  /** `validate_terms`: a false value is refused, true comes back unchanged. */
  function ValidateTerms(value: bool): (r: Result<bool, string>)
    ensures r.Ok? <==> value
    ensures r.Ok? ==> r.value == value
    ensures r.Err? ==> r.error == TermsMessage
  {
    if !value then Err(TermsMessage) else Ok(value)
  }

  // ---------------------------------------------------------------------------
  // Email shape

  /** `[a-zA-Z0-9_.+-]`, `[a-zA-Z0-9-]` and `[a-zA-Z0-9-.]`: the characters of
      the local part, of the first domain label, and of the rest of the domain. */
  predicate IsLocalChar(c: char) { IsAlnumAscii(c) || c == '_' || c == '.' || c == '+' || c == '-' }
  predicate IsLabelChar(c: char) { IsAlnumAscii(c) || c == '-' }
  predicate IsRestChar(c: char) { IsAlnumAscii(c) || c == '-' || c == '.' }

  predicate AllLocal(s: string) { forall i :: 0 <= i < |s| ==> IsLocalChar(s[i]) }
  predicate AllLabel(s: string) { forall i :: 0 <= i < |s| ==> IsLabelChar(s[i]) }
  predicate AllRest(s: string) { forall i :: 0 <= i < |s| ==> IsRestChar(s[i]) }

  /** `s` reads as local `@` label `.` rest with the '@' at i and the '.' at j. */
  predicate SplitsAt(s: string, i: int, j: int) {
    && 0 < i && i + 1 < j && j + 1 < |s|
    && s[i] == '@' && s[j] == '.'
    && AllLocal(s[..i]) && AllLabel(s[i + 1..j]) && AllRest(s[j + 1..])
  }

  /** Reference shape of an address: some split into three non-empty parts. */
  ghost predicate EmailShape(s: string) {
    exists i, j :: SplitsAt(s, i, j)
  }

  /** The pattern without its `$`, matched against the whole of `s`: none of the
      three classes holds '@' and the label class holds no '.', so the '@' is the
      first one and the '.' the first one after it. */
  function MatchesPattern(s: string): bool {
    match IndexOf(s, '@')
    case None => false
    case Some(at) =>
      var domain := s[at + 1..];
      match IndexOf(domain, '.')
      case None => false
      case Some(dot) =>
        && 0 < at && AllLocal(s[..at])
        && 0 < dot && AllLabel(domain[..dot])
        && dot + 1 < |domain| && AllRest(domain[dot + 1..])
  }

  /** `re.match` with the trailing `$`, which also matches just before a final
      newline. */
  function RegexMatches(s: string): bool {
    MatchesPattern(s) || (|s| > 0 && s[|s| - 1] == '\n' && MatchesPattern(s[..|s| - 1]))
  }

  /** `EmailValidator.__call__`. */
  function EmailValidator(value: string): (r: Result<string, string>)
    ensures r.Ok? ==> r.value == value && '@' in value
    ensures r.Err? ==> r.error == InvalidEmailMessage
  {
    if !RegexMatches(value) then Err(InvalidEmailMessage) else Ok(value)
  }

  /** The scanning matcher accepts exactly the strings of the reference shape. */
  lemma MatchesPatternIffShape(s: string)
    ensures MatchesPattern(s) <==> EmailShape(s)
  {
    if MatchesPattern(s) {
      MatchedSplit(s);
    }
    if EmailShape(s) {
      var i, j :| SplitsAt(s, i, j);
      SplitMatches(s, i, j);
    }
  }

  /** The positions the matcher finds form a split. */
  lemma MatchedSplit(s: string)
    requires MatchesPattern(s)
    ensures EmailShape(s)
  {
    var at := IndexOf(s, '@').value;
    var domain := s[at + 1..];
    var dot := IndexOf(domain, '.').value;
    assert s[at + 1..at + 1 + dot] == domain[..dot];
    assert s[at + 1 + dot + 1..] == domain[dot + 1..];
    assert SplitsAt(s, at, at + 1 + dot);
  }

  /** The matcher finds the '@' and the '.' of any split, so it accepts. */
  lemma SplitMatches(s: string, i: int, j: int)
    requires SplitsAt(s, i, j)
    ensures MatchesPattern(s)
  {
    assert forall k :: 0 <= k < i ==> s[..i][k] == s[k];
    IndexOfFirst(s, '@', i);
    var domain := s[i + 1..];
    assert domain[..j - i - 1] == s[i + 1..j];
    assert domain[j - i..] == s[j + 1..];
    assert forall k :: 0 <= k < j - i - 1 ==> domain[k] == s[i + 1..j][k];
    IndexOfFirst(domain, '.', j - i - 1);
  }

  /** An address is accepted exactly when it has the reference shape, or has it
      once a single final newline is dropped; it comes back unchanged. */
  lemma EmailValidatorAccepts(s: string)
    ensures EmailValidator(s).Ok?
            <==> EmailShape(s) || (|s| > 0 && s[|s| - 1] == '\n' && EmailShape(s[..|s| - 1]))
    ensures EmailValidator(s).Ok? ==> EmailValidator(s).value == s
    ensures EmailValidator(s).Err? ==> EmailValidator(s).error == InvalidEmailMessage
  {
    MatchesPatternIffShape(s);
    if |s| > 0 {
      MatchesPatternIffShape(s[..|s| - 1]);
    }
  }

  /** What a split says about the whole string: one '@', not followed by '.',
      and only ASCII characters. */
  lemma SplitFacts(s: string, i: int, j: int)
    requires SplitsAt(s, i, j)
    ensures forall k :: 0 <= k < |s| && s[k] == '@' ==> k == i
    ensures forall k :: 0 <= k < |s| - 1 && s[k] == '@' ==> s[k + 1] != '.'
    ensures IsAscii(s)
  {
    forall k | 0 <= k < |s|
      ensures s[k] as int < 128 && (s[k] == '@' ==> k == i)
    {
      if k < i {
        assert IsLocalChar(s[..i][k]);
      } else if i < k < j {
        assert IsLabelChar(s[i + 1..j][k - i - 1]);
      } else if j < k {
        assert IsRestChar(s[j + 1..][k - j - 1]);
      }
    }
    assert IsLabelChar(s[i + 1..j][0]);
  }

  /** The facts of `SplitFacts`, for a split followed by one newline. */
  lemma NewlineSplitFacts(s: string, i: int, j: int)
    requires |s| > 0 && s[|s| - 1] == '\n'
    requires SplitsAt(s[..|s| - 1], i, j)
    ensures s[i] == '@'
    ensures forall k :: 0 <= k < |s| && s[k] == '@' ==> k == i
    ensures forall k :: 0 <= k < |s| - 1 && s[k] == '@' ==> s[k + 1] != '.'
    ensures IsAscii(s)
  {
    var t := s[..|s| - 1];
    SplitFacts(t, i, j);
    forall k | 0 <= k < |s|
      ensures s[k] as int < 128 && (s[k] == '@' ==> k == i)
    {
      if k < |t| {
        assert s[k] == t[k];
      }
    }
  }

  /** Every accepted address holds exactly one '@', no '.' right after it, and
      only ASCII characters. */
  lemma AcceptedEmailFacts(s: string)
    requires EmailValidator(s).Ok?
    ensures exists i :: 0 <= i < |s| && s[i] == '@'
    ensures forall k, l :: 0 <= k < l < |s| && s[k] == '@' ==> s[l] != '@'
    ensures forall k :: 0 <= k < |s| - 1 && s[k] == '@' ==> s[k + 1] != '.'
    ensures IsAscii(s)
  {
    EmailValidatorAccepts(s);
    var i: int;
    if EmailShape(s) {
      var j;
      i, j :| SplitsAt(s, i, j);
      SplitFacts(s, i, j);
    } else {
      var j;
      i, j :| SplitsAt(s[..|s| - 1], i, j);
      NewlineSplitFacts(s, i, j);
    }
    assert s[i] == '@';
  }

  /** A plain address is accepted. */
  lemma EmailAcceptedExample()
    ensures EmailValidator("ana@uni.edu").Ok?
  {
    assert SplitsAt("ana@uni.edu", 3, 7);
    EmailValidatorAccepts("ana@uni.edu");
  }

  /** The same address with a final newline is accepted too, since `$` matches
      before it. */
  lemma EmailTrailingNewlineExample()
    ensures EmailValidator("ana@uni.edu\n").Ok?
  {
    var s := "ana@uni.edu\n";
    assert s[..|s| - 1] == "ana@uni.edu";
    assert SplitsAt("ana@uni.edu", 3, 7);
    EmailValidatorAccepts(s);
  }

  /** A domain without a dot is refused. */
  lemma EmailNoDotRejected()
    ensures EmailValidator("ana@edu").Err?
  {
    assert IndexOf("edu", '.') == None;
  }

  /** An empty local part is refused. */
  lemma EmailEmptyLocalRejected()
    ensures EmailValidator("@uni.edu").Err?
  {
    IndexOfFirst("@uni.edu", '@', 0);
  }

  /** An empty first label of the domain is refused. */
  lemma EmailEmptyLabelRejected()
    ensures EmailValidator("ana@.edu").Err?
  {
    var s := "ana@.edu";
    IndexOfFirst(s, '@', 3);
    assert s[4..] == ".edu";
    IndexOfFirst(".edu", '.', 0);
  }
}
