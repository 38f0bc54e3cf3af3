/** The body of sign-up and sign-in requests and its validation rules. */
module AuthCredentials {
  import opened Validation
  import PasswordPattern

  const WeakPasswordMessage := "password too weak"

  datatype AuthCredentialsDto = AuthCredentialsDto(username: Input, password: Input)

  /** IsString, MinLength(4), MaxLength(20). */
  function UsernameViolations(username: Input): (r: set<Violation>)
    ensures r == {} <==> username.Str? && 4 <= MeasuredLength(username.value) <= 20
    ensures forall v :: v in r ==> v.property == "username"
  {
    Check("username", username.Str?, IsString)
    + Check("username", LengthAtLeast(username, 4), MinLength(4))
    + Check("username", LengthAtMost(username, 20), MaxLength(20))
  }

  /** IsString, MinLength(3), MaxLength(20) and the strength pattern, whose
      failure carries the message 'password too weak'. */
  function PasswordViolations(password: Input): (r: set<Violation>)
    ensures r == {} <==> password.Str? && 3 <= MeasuredLength(password.value) <= 20 && PasswordPattern.PatternMatches(password.value)
    ensures Violation("password", Matches(WeakPasswordMessage)) in r
            <==> !(password.Str? && PasswordPattern.PatternMatches(password.value))
    ensures forall v :: v in r ==> v.property == "password"
  {
    Check("password", password.Str?, IsString)
    + Check("password", LengthAtLeast(password, 3), MinLength(3))
    + Check("password", LengthAtMost(password, 20), MaxLength(20))
    + Check("password", password.Str? && PasswordPattern.PatternMatches(password.value), Matches(WeakPasswordMessage))
  }

  function Validate(dto: AuthCredentialsDto): (r: Verdict)
    ensures r == Accepted <==> UsernameViolations(dto.username) == {} && PasswordViolations(dto.password) == {}
    ensures r != TransformFailed
  {
    VerdictOf(UsernameViolations(dto.username) + PasswordViolations(dto.password))
  }

  /** A password that matches the pattern and holds no variation selector is
      never too short: the pattern alone needs three characters. */
  lemma MatchingPasswordLongEnough(s: string)
    requires PasswordPattern.PatternMatches(s)
    requires forall m :: 0 <= m < |s| ==> !IsVariationSelector(s[m])
    ensures Violation("password", MinLength(3)) !in PasswordViolations(Str(s))
  {
    PasswordPattern.MatchImpliesLengthAtLeast3(s);
  }

  /** A variation selector is `\W` for the pattern but no character for
      MinLength: "Ab" followed by U+FE0F matches and is still too short. */
  lemma SelectorMatchesButTooShort()
    ensures PasswordPattern.PatternMatches("Ab\U{FE0F}")
    ensures PasswordViolations(Str("Ab\U{FE0F}")) == {Violation("password", MinLength(3))}
  {
    var s := "Ab\U{FE0F}";
    assert PasswordPattern.IsUpper(s[0]) && PasswordPattern.IsLower(s[1]) && !PasswordPattern.IsWordChar(s[2]);
    assert PasswordPattern.GoodStart(s, 0);
    MeasuredLengthAppend("Ab", "\U{FE0F}");
    MeasuredLengthOfSelectors("\U{FE0F}");
  }

  /** Nor does MaxLength count them: a strong eight-character password
      followed by thirteen U+FE0F, 21 `char`s long, is accepted. */
  lemma SelectorsNotCountedByMaxLength()
    ensures PasswordViolations(Str("Passw0rd" + seq(13, _ => '\U{FE0F}'))) == {}
  {
    var p, v := "Passw0rd", seq(13, _ => '\U{FE0F}');
    assert MeasuredLength(p + v) == 8 by {
      assert forall m :: 0 <= m < |p| ==> !IsVariationSelector(p[m]);
      SelectorsAppended(p, v);
    }
    assert PasswordPattern.PatternMatches(p + v) by {
      assert PasswordPattern.IsUpper(p[0]) && PasswordPattern.IsLower(p[1]) && PasswordPattern.IsDigit(p[5]);
      PasswordPattern.SingleLinePasswordAccepted(p);
      PasswordPattern.AppendKeepsMatch(p, v);
    }
  }

  /** Passwords of an acceptable length that miss a letter case, that are
      letters only, or that end with a line terminator are refused as too
      weak, and for that reason only. */
  lemma WeakPasswordRejected(s: string)
    requires 3 <= MeasuredLength(s) <= 20
    requires || (forall m :: 0 <= m < |s| ==> !PasswordPattern.IsUpper(s[m]))
             || (forall m :: 0 <= m < |s| ==> !PasswordPattern.IsLower(s[m]))
             || (forall m :: 0 <= m < |s| ==> PasswordPattern.IsUpper(s[m]) || PasswordPattern.IsLower(s[m]))
             || PasswordPattern.IsLineTerminator(s[|s| - 1])
    ensures PasswordViolations(Str(s)) == {Violation("password", Matches(WeakPasswordMessage))}
  {
    if PasswordPattern.IsLineTerminator(s[|s| - 1]) {
      PasswordPattern.TrailingLineTerminatorRejected(s);
    } else if forall m :: 0 <= m < |s| ==> PasswordPattern.IsUpper(s[m]) || PasswordPattern.IsLower(s[m]) {
      PasswordPattern.LettersOnlyRejected(s);
    } else {
      PasswordPattern.MissingLetterCaseRejected(s);
    }
    OnlyTooWeak(s);
  }

  /** A string of acceptable length fails at most the pattern. */
  lemma OnlyTooWeak(s: string)
    requires 3 <= MeasuredLength(s) <= 20
    requires !PasswordPattern.PatternMatches(s)
    ensures PasswordViolations(Str(s)) == {Violation("password", Matches(WeakPasswordMessage))}
  {
  }

  /** The documented example credentials pass validation. */
  lemma ExampleCredentialsAccepted()
    ensures Validate(AuthCredentialsDto(Str("usuario123"), Str("Password123"))) == Accepted
  {
    ExampleUsernameAccepted();
    ExamplePasswordAccepted();
  }

  /** The example username alone. */
  lemma ExampleUsernameAccepted()
    ensures UsernameViolations(Str("usuario123")) == {}
  {
    var u := "usuario123";
    assert forall m :: 0 <= m < |u| ==> !IsVariationSelector(u[m]);
    assert MeasuredLength(u) == 10;
  }

  /** The example password alone. */
  lemma ExamplePasswordAccepted()
    ensures PasswordViolations(Str("Password123")) == {}
  {
    var p := "Password123";
    assert PasswordPattern.IsUpper(p[0]) && PasswordPattern.IsLower(p[1]) && PasswordPattern.IsDigit(p[8]);
    PasswordPattern.SingleLinePasswordAccepted(p);
    ExampleLength(p);
  }

  /** The example password has no variation selector, so its length is its
      number of `char`s. */
  lemma ExampleLength(p: string)
    requires p == "Password123"
    ensures MeasuredLength(p) == 11
  {
    assert forall m :: 0 <= m < |p| ==> !IsVariationSelector(p[m]);
  }
}
