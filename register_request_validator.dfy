/** The five rules of Auth/Validators/RegisterRequestValidator.cs. Each rule
    chain runs all of its checks, so a property has an error exactly when any
    check of its chain fails. The username-uniqueness query of the injected
    repository is the parameter `isUnique`. */
module Validators {
  import opened Text
  import opened Models

  datatype Property = Username | Password | FirstName | LastName | PrimaryLocationId

  /** `NotEmpty` on a string: not empty and not whitespace only. */
  predicate NotEmpty(s: string) {
    !IsNullOrWhiteSpace(s)
  }

  /** A .NET match of `^[cls]*$`. Because `$` also matches before a final
      line feed, one trailing "\n" is accepted after the class characters. */
  predicate MatchesWholly(s: string, cls: char -> bool) {
    (forall i :: 0 <= i < |s| ==> cls(s[i]))
    || (|s| > 0 && s[|s| - 1] == '\n' && forall i :: 0 <= i < |s| - 1 ==> cls(s[i]))
  }

  /** An unanchored match of a one-character class: some character is in it. */
  predicate ContainsSome(s: string, cls: char -> bool) {
    exists i :: 0 <= i < |s| && cls(s[i])
  }

  /** The special-character class of the password rule:
      ] [ " ! @ $ % ^ & * ( ) { } : ; < > , . ? / + _ = | ' ~ \ -
      (`#` is not in it). */
  predicate IsSpecial(c: char) {
    c in "][\"!@$%^&*(){}:;<>,.?/+_='|~\\-"
  }

  /** Letters and digits are not in the special class. */
  lemma LetterOrDigitIsNotSpecial(c: char)
    requires IsAsciiLetterOrDigit(c)
    ensures !IsSpecial(c)
  {
  }

  const PasswordMinimumLength: nat := 6

  /** `BeNewUsername`: the repository's answer. */
  predicate BeNewUsername(username: string, isUnique: string -> bool) {
    isUnique(username)
  }

  /** `BeAValidLocation`: location checking is not implemented yet. */
  predicate BeAValidLocation(locationId: Guid) {
    true
  }

  predicate UsernameRule(username: string, isUnique: string -> bool) {
    NotEmpty(username) && MatchesWholly(username, IsAsciiLetterOrDigit) && BeNewUsername(username, isUnique)
  }

  predicate PasswordRule(password: string) {
    && NotEmpty(password)
    && |password| >= PasswordMinimumLength
    && ContainsSome(password, IsAsciiLower)
    && ContainsSome(password, IsAsciiUpper)
    && ContainsSome(password, IsSpecial)
    && ContainsSome(password, IsDecimalDigit)
  }

  /** The rule for first and last names. */
  predicate NameRule(name: string) {
    NotEmpty(name) && MatchesWholly(name, IsAsciiLetter)
  }

  predicate LocationRule(locationId: Guid) {
    locationId != EmptyGuid && BeAValidLocation(locationId)
  }

  /** The properties that fail validation. */
  function Validate(request: RegisterRequest, isUnique: string -> bool): set<Property> {
    (if UsernameRule(request.username, isUnique) then {} else {Username})
    + (if PasswordRule(request.password) then {} else {Password})
    + (if NameRule(request.userInformation.firstName) then {} else {FirstName})
    + (if NameRule(request.userInformation.lastName) then {} else {LastName})
    + (if LocationRule(request.userInformation.primaryLocationId) then {} else {PrimaryLocationId})
  }

  // ---------------------------------------------------------------------
  // Properties
  // ---------------------------------------------------------------------

  /** A request is valid exactly when all five rules pass. */
  lemma ValidIffAllRulesPass(request: RegisterRequest, isUnique: string -> bool)
    ensures Validate(request, isUnique) == {} <==>
      && UsernameRule(request.username, isUnique)
      && PasswordRule(request.password)
      && NameRule(request.userInformation.firstName)
      && NameRule(request.userInformation.lastName)
      && LocationRule(request.userInformation.primaryLocationId)
  {
    var e := Validate(request, isUnique);
    if !UsernameRule(request.username, isUnique) { assert Username in e; }
    if !PasswordRule(request.password) { assert Password in e; }
    if !NameRule(request.userInformation.firstName) { assert FirstName in e; }
    if !NameRule(request.userInformation.lastName) { assert LastName in e; }
    if !LocationRule(request.userInformation.primaryLocationId) { assert PrimaryLocationId in e; }
  }

  /** Each property is reported exactly when its own rule fails. */
  lemma ErrorsPerProperty(request: RegisterRequest, isUnique: string -> bool)
    ensures Username in Validate(request, isUnique) <==> !UsernameRule(request.username, isUnique)
    ensures Password in Validate(request, isUnique) <==> !PasswordRule(request.password)
    ensures FirstName in Validate(request, isUnique) <==> !NameRule(request.userInformation.firstName)
    ensures LastName in Validate(request, isUnique) <==> !NameRule(request.userInformation.lastName)
    ensures PrimaryLocationId in Validate(request, isUnique)
            <==> request.userInformation.primaryLocationId == EmptyGuid
  {
  }

  /** A username the repository reports as taken always gets a Username error. */
  lemma TakenUsernameRejected(request: RegisterRequest, isUnique: string -> bool)
    requires !isUnique(request.username)
    ensures Username in Validate(request, isUnique)
  {
  }

  /** A non-empty string of class characters is not whitespace only. */
  lemma {:induction false} ClassCharacterIsNotWhite(s: string, cls: char -> bool, k: nat)
    requires k < |s| && cls(s[k])
    requires forall c :: cls(c) ==> !IsWhiteSpace(c)
    ensures NotEmpty(s)
  {
    assert !IsWhiteSpace(s[k]);
  }

  /** The username rule: non-empty letters and digits, optionally followed by
      one line feed, and unique in the repository. */
  lemma UsernameRuleMeaning(username: string, isUnique: string -> bool)
    ensures UsernameRule(username, isUnique) <==>
      && isUnique(username)
      && ((|username| > 0 && forall i :: 0 <= i < |username| ==> IsAsciiLetterOrDigit(username[i]))
          || (|username| > 1 && username[|username| - 1] == '\n'
              && forall i :: 0 <= i < |username| - 1 ==> IsAsciiLetterOrDigit(username[i])))
  {
    if |username| > 0 && forall i :: 0 <= i < |username| ==> IsAsciiLetterOrDigit(username[i]) {
      ClassCharacterIsNotWhite(username, IsAsciiLetterOrDigit, 0);
    }
    if |username| > 1 && username[|username| - 1] == '\n'
       && forall i :: 0 <= i < |username| - 1 ==> IsAsciiLetterOrDigit(username[i]) {
      ClassCharacterIsNotWhite(username, IsAsciiLetterOrDigit, 0);
    }
    if |username| == 1 && username[0] == '\n' {
      assert IsWhiteSpace(username[0]);
    }
  }

  /** The name rule: non-empty letters, optionally followed by one line feed. */
  lemma NameRuleMeaning(name: string)
    ensures NameRule(name) <==>
      || (|name| > 0 && forall i :: 0 <= i < |name| ==> IsAsciiLetter(name[i]))
      || (|name| > 1 && name[|name| - 1] == '\n' && forall i :: 0 <= i < |name| - 1 ==> IsAsciiLetter(name[i]))
  {
    if |name| > 0 && IsAsciiLetter(name[0]) {
      ClassCharacterIsNotWhite(name, IsAsciiLetter, 0);
    }
    if |name| == 1 && name[0] == '\n' {
      assert IsWhiteSpace(name[0]);
    }
  }

  /** The location rule only asks for a non-empty identifier. */
  lemma LocationRuleMeaning(locationId: Guid)
    ensures LocationRule(locationId) <==> locationId != EmptyGuid
  {
  }

  /** Because `$` accepts a final line feed, a username, first name or last
      name may end in "\n". */
  lemma TrailingLineFeedAccepted(isUnique: string -> bool)
    requires isUnique("bob\n")
    ensures UsernameRule("bob\n", isUnique)
    ensures NameRule("Bob\n")
  {
    UsernameRuleMeaning("bob\n", isUnique);
    NameRuleMeaning("Bob\n");
  }

  /** The rejected password vectors of Tests/RegisterRequestValidatorTests.cs:
      too short, no capital letter, no special character. */
  lemma RejectedPasswordVectors()
    ensures !PasswordRule("12345")
    ensures !PasswordRule("qwerty12345")
    ensures !PasswordRule("Qwerty12345")
  {
    var noUpper := "qwerty12345";
    assert forall i :: 0 <= i < |noUpper| ==> !IsAsciiUpper(noUpper[i]);
    var noSpecial := "Qwerty12345";
    forall i | 0 <= i < |noSpecial|
      ensures !IsSpecial(noSpecial[i])
    {
      LetterOrDigitIsNotSpecial(noSpecial[i]);
    }
  }

  /** The accepted password vector of Tests/RegisterRequestValidatorTests.cs. */
  lemma AcceptedPasswordVector()
    ensures PasswordRule("Qwerty12345!")
  {
    var good := "Qwerty12345!";
    assert !IsWhiteSpace(good[0]);
    assert IsAsciiUpper(good[0]);
    assert IsAsciiLower(good[1]);
    assert IsSpecial(good[11]);
    AsciiDigitIsDecimalDigit(good[6]);
  }

  /** The first- and last-name vectors of Tests/RegisterRequestValidatorTests.cs. */
  lemma NameVectors()
    ensures NameRule("name")
    ensures !NameRule("111") && !NameRule("name1") && !NameRule("name!")
  {
    NameRuleMeaning("name");
    NameRuleMeaning("111");
    NameRuleMeaning("name1");
    NameRuleMeaning("name!");
  }

  /** `#` is not a special character, so a password whose only symbol is `#`
      fails the rule. */
  lemma HashSignIsNotSpecial()
    ensures !IsSpecial('#')
    ensures !PasswordRule("Qwerty12345#")
  {
    var p := "Qwerty12345#";
    forall i | 0 <= i < |p| - 1
      ensures !IsSpecial(p[i])
    {
      LetterOrDigitIsNotSpecial(p[i]);
    }
    assert !IsSpecial(p[|p| - 1]);
  }
}
