/**
 * The input validators of the web application (app/models/schemas.py): the
 * short-identifier rule of `shortURL.isValid`, the password-strength rule of
 * `Password.check_password`, and the `validateShortUrl` helper.
 */
module Schemas {
  import opened Wrappers

  const MinShortUrlLength: nat := 10
  const MaxShortUrlLength: nat := 15
  const MinPasswordLength: nat := 8

  // ---------------------------------------------------------------------------
  // Short identifiers
  // ---------------------------------------------------------------------------

  /** A member of the character class `[A-Za-z0-9_-]`. */
  predicate IsShortIdChar(c: char) {
    ('A' <= c <= 'Z') || ('a' <= c <= 'z') || ('0' <= c <= '9') || c == '_' || c == '-'
  }

  predicate AllShortIdChars(s: string) {
    forall i :: 0 <= i < |s| ==> IsShortIdChar(s[i])
  }

  /**
   * Whether Python's `re.match("^[A-Za-z0-9_-]*$", s)` succeeds. Without the
   * MULTILINE flag, `$` matches at the end of the string and also just before
   * a newline that ends the string, so one trailing "\n" slips through.
   */
  predicate MatchesPatternAsWritten(s: string) {
    || AllShortIdChars(s)
    || (|s| > 0 && s[|s| - 1] == '\n' && AllShortIdChars(s[..|s| - 1]))
  }

  /** Why a short identifier was refused (the two `ValueError` messages). */
  datatype ShortIdError = BadLength(length: nat) | BadCharacters

  /** The strings the short-identifier rule is meant to admit. */
  predicate WellFormedShortId(s: string) {
    MinShortUrlLength <= |s| <= MaxShortUrlLength && AllShortIdChars(s)
  }

  /**
   * `shortURL.isValid` exactly as written, with Python's reading of the
   * pattern. The length check comes first, so a string that is both too long
   * and ill-charactered is reported as a length error.
   */
  function IsValidAsWritten(s: string): (r: Result<string, ShortIdError>)
    ensures r.Success? <==> MinShortUrlLength <= |s| <= MaxShortUrlLength && MatchesPatternAsWritten(s)
    ensures r.Success? ==> r.value == s
    ensures r.Failure? && r.error.BadCharacters? ==> MinShortUrlLength <= |s| <= MaxShortUrlLength
    ensures r.Failure? && r.error.BadLength? ==> r.error.length == |s| && !(MinShortUrlLength <= |s| <= MaxShortUrlLength)
  {
    if |s| > MaxShortUrlLength || |s| < MinShortUrlLength then
      Failure(BadLength(|s|))
    else if !MatchesPatternAsWritten(s) then
      Failure(BadCharacters)
    else
      Success(s)
  }

  /**
   * `shortURL.isValid` as its comment describes it: only letters, digits,
   * `_` and `-`, with no trailing newline admitted. The rest of the model
   * validates short identifiers with this function.
   */
  function IsValid(s: string): (r: Result<string, ShortIdError>)
    ensures r.Success? <==> WellFormedShortId(s)
    ensures r.Success? ==> r.value == s
    ensures r.Failure? && r.error.BadCharacters? ==> MinShortUrlLength <= |s| <= MaxShortUrlLength
    ensures r.Failure? && r.error.BadLength? ==> r.error.length == |s| && !(MinShortUrlLength <= |s| <= MaxShortUrlLength)
  {
    if |s| > MaxShortUrlLength || |s| < MinShortUrlLength then
      Failure(BadLength(|s|))
    else if !AllShortIdChars(s) then
      Failure(BadCharacters)
    else
      Success(s)
  }

  /** A value of the pydantic model `shortURL`: a string its validator accepted. */
  type ShortUrl = s: string | IsValid(s).Success? witness "AAAAAAAAAA"

  /**
   * The one kind of string on which the written rule and the described rule
   * disagree: an otherwise valid identifier with a newline at its end.
   */
  lemma AsWrittenDiffersOnlyOnTrailingNewline(s: string)
    ensures IsValidAsWritten(s) != IsValid(s) <==>
      && MinShortUrlLength <= |s| <= MaxShortUrlLength
      && s[|s| - 1] == '\n'
      && AllShortIdChars(s[..|s| - 1])
  {
    if MinShortUrlLength <= |s| <= MaxShortUrlLength && s[|s| - 1] == '\n' {
      assert !IsShortIdChar(s[|s| - 1]);
    }
  }

  /** A ten-character string ending in a newline passes the rule as written. */
  lemma AsWrittenAcceptsTrailingNewline()
    ensures IsValidAsWritten("abcdefghi\n") == Success("abcdefghi\n")
    ensures IsValid("abcdefghi\n") == Failure(BadCharacters)
  {
    var s := "abcdefghi\n";
    assert s[..|s| - 1] == "abcdefghi";
    assert !IsShortIdChar(s[9]);
  }

  /** The cases of tests/test_schemas.py for short identifiers. */
  lemma ShortUrlExamples()
    ensures IsValid("woIfJ61243Wdf") == Success("woIfJ61243Wdf")
    ensures IsValid("wfd3528") == Failure(BadLength(7))
    ensures IsValid("wofijwef032jf09ef29j2f09") == Failure(BadLength(24))
    ensures IsValid("736&lsdo#lsd)()") == Failure(BadCharacters)
  {
    assert !IsShortIdChar("736&lsdo#lsd)()"[3]);
  }

  /**
   * `validateShortUrl`: an absent or empty argument gives `None` before any
   * validation; otherwise the validated identifier, or `None` when the
   * validator refuses it (the error is only printed).
   */
  function ValidateShortUrl(url: Option<string>): (r: Option<ShortUrl>)
    ensures (url == None || url == Some("")) ==> r == None
    ensures r.Some? <==> url.Some? && WellFormedShortId(url.value)
    ensures r.Some? ==> r.value == url.value
  {
    match url
    case None => None
    case Some(u) =>
      if u == "" then None
      else match IsValid(u)
        case Success(v) => Some(v)
        case Failure(_) => None
  }

  // ---------------------------------------------------------------------------
  // Passwords
  // ---------------------------------------------------------------------------

  predicate IsUpper(c: char) { 'A' <= c <= 'Z' }
  predicate IsLower(c: char) { 'a' <= c <= 'z' }
  predicate IsDigit(c: char) { '0' <= c <= '9' }

  predicate HasUpper(s: string) { exists i :: 0 <= i < |s| && IsUpper(s[i]) }
  predicate HasLower(s: string) { exists i :: 0 <= i < |s| && IsLower(s[i]) }
  predicate HasDigit(s: string) { exists i :: 0 <= i < |s| && IsDigit(s[i]) }

  /** Why a password was refused, in the order `check_password` tests for it. */
  datatype PasswordError = ContainsSpace | TooShort | NoUppercase | NoLowercase | NoDigit

  /** The position of a check in `check_password`'s sequence of checks. */
  function CheckOrder(e: PasswordError): nat {
    match e
    case ContainsSpace => 0
    case TooShort => 1
    case NoUppercase => 2
    case NoLowercase => 3
    case NoDigit => 4
  }

  /** Whether `value` satisfies the requirement whose violation is `e`. */
  predicate Meets(value: string, e: PasswordError) {
    match e
    case ContainsSpace => ' ' !in value
    case TooShort => |value| >= MinPasswordLength
    case NoUppercase => HasUpper(value)
    case NoLowercase => HasLower(value)
    case NoDigit => HasDigit(value)
  }

  /** The password-strength rule: no blank, at least eight characters, and an upper-case letter, a lower-case letter and a digit. */
  predicate StrongPassword(value: string) {
    ' ' !in value && |value| >= MinPasswordLength && HasUpper(value) && HasLower(value) && HasDigit(value)
  }

  /**
   * `Password.check_password`: a password is accepted exactly when it is
   * strong, and is then returned unchanged.
   */
  function CheckPassword(value: string): (r: Result<string, PasswordError>)
    ensures r.Success? <==> StrongPassword(value)
    ensures r.Success? ==> r.value == value
    ensures r.Failure? ==> !Meets(value, r.error)
  {
    if ' ' in value then
      Failure(ContainsSpace)
    else if |value| < MinPasswordLength then
      Failure(TooShort)
    else if !(exists c :: c in value && IsUpper(c)) then
      Failure(NoUppercase)
    else if !(exists c :: c in value && IsLower(c)) then
      Failure(NoLowercase)
    else if !(exists c :: c in value && IsDigit(c)) then
      Failure(NoDigit)
    else
      Success(value)
  }

  /**
   * The checks run in their written order: a refused password meets every
   * requirement checked before the one it is refused for, and a strong
   * password meets all of them.
   */
  lemma PasswordChecksInOrder(value: string)
    ensures CheckPassword(value).Failure? ==>
      forall e :: CheckOrder(e) < CheckOrder(CheckPassword(value).error) ==> Meets(value, e)
    ensures StrongPassword(value) <==> forall e :: Meets(value, e)
  {
    var r := CheckPassword(value);
    forall e | r.Failure? && CheckOrder(e) < CheckOrder(r.error)
      ensures Meets(value, e)
    {
      match e
      case ContainsSpace =>
      case TooShort =>
      case NoUppercase =>
      case NoLowercase =>
      case NoDigit =>
    }
    if StrongPassword(value) {
      forall e ensures Meets(value, e) {
        match e
        case ContainsSpace =>
        case TooShort =>
        case NoUppercase =>
        case NoLowercase =>
        case NoDigit =>
      }
    } else {
      assert !Meets(value, ContainsSpace) || !Meets(value, TooShort) || !Meets(value, NoUppercase)
        || !Meets(value, NoLowercase) || !Meets(value, NoDigit);
    }
  }

  /** A value of the pydantic model `Password`: a string its validator accepted. */
  type Password = s: string | CheckPassword(s).Success?
    witness (assert IsUpper("Passw0rd"[0]) && IsLower("Passw0rd"[1]) && IsDigit("Passw0rd"[5]); "Passw0rd")

  /** The accepted case of tests/test_schemas.py for passwords. */
  lemma StrongPasswordExample()
    ensures CheckPassword("09fwfiojwOFISJDF2398f") == Success("09fwfiojwOFISJDF2398f")
  {
    var valid := "09fwfiojwOFISJDF2398f";
    assert IsUpper(valid[9]) && IsLower(valid[2]) && IsDigit(valid[0]);
  }

  /** Three refused cases of tests/test_schemas.py for passwords, each with its error. */
  lemma WeakPasswordExamples()
    ensures CheckPassword("OIWEJFso idjf98") == Failure(ContainsSpace)
    ensures CheckPassword("sd0Ssa") == Failure(TooShort)
    ensures CheckPassword("sdfoijwef82374ws") == Failure(NoUppercase)
  {
    assert "OIWEJFso idjf98"[8] == ' ';
  }

  /** The refused case of tests/test_schemas.py that has no lower-case letter. */
  lemma NoLowercaseExample()
    ensures CheckPassword("OSFJOJWEF09FS") == Failure(NoLowercase)
  {
    assert IsUpper("OSFJOJWEF09FS"[0]);
  }

  /** The refused case of tests/test_schemas.py that has no digit. */
  lemma NoDigitExample()
    ensures CheckPassword("osdfjioWFIODFSJD") == Failure(NoDigit)
  {
    var s, front, back := "osdfjioWFIODFSJD", "osdfjioW", "FIODFSJD";
    assert IsLower(s[0]) && IsUpper(s[7]);
    assert s == front + back;
    assert forall c :: c in front ==> !IsDigit(c);
    assert forall c :: c in back ==> !IsDigit(c);
  }
}
