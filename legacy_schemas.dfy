/**
 * The validator of the earlier, in-memory version of the service
 * (models/schemas.py). It is stated here the way a regular-expression matcher
 * reads the pattern `^[A-Za-z0-9_-]*$`, one character at a time, and is then
 * proved to accept exactly what the web application's validator accepts.
 */
module LegacySchemas {
  import opened Wrappers
  import Schemas

  /**
   * A left-to-right match of `[A-Za-z0-9_-]*` followed by Python's `$`,
   * which succeeds at the end of the input or before a newline that ends it.
   */
  predicate MatchesFrom(s: string)
    decreases |s|
  {
    if s == [] || s == "\n" then true
    else Schemas.IsShortIdChar(s[0]) && MatchesFrom(s[1..])
  }

  /** The same scan without the allowance `$` makes for a final newline. */
  predicate AllowedFrom(s: string)
    decreases |s|
  {
    s == [] || (Schemas.IsShortIdChar(s[0]) && AllowedFrom(s[1..]))
  }

  /** `shortURL.isValid` of models/schemas.py as written. */
  function IsValidAsWritten(s: string): (r: Result<string, Schemas.ShortIdError>)
    ensures r.Success? ==> r.value == s && Schemas.MinShortUrlLength <= |s| <= Schemas.MaxShortUrlLength
  {
    if |s| > 15 || |s| < 10 then Failure(Schemas.BadLength(|s|))
    else if !MatchesFrom(s) then Failure(Schemas.BadCharacters)
    else Success(s)
  }

  /** `shortURL.isValid` of models/schemas.py as its comment describes it. */
  function IsValid(s: string): (r: Result<string, Schemas.ShortIdError>)
    ensures r.Success? ==> r.value == s && Schemas.MinShortUrlLength <= |s| <= Schemas.MaxShortUrlLength
  {
    if |s| > 15 || |s| < 10 then Failure(Schemas.BadLength(|s|))
    else if !AllowedFrom(s) then Failure(Schemas.BadCharacters)
    else Success(s)
  }

  /** The character-by-character scan agrees with the quantified reading. */
  lemma {:induction false} AllowedFromIsAllShortIdChars(s: string)
    ensures AllowedFrom(s) <==> Schemas.AllShortIdChars(s)
    decreases |s|
  {
    if s != [] {
      AllowedFromIsAllShortIdChars(s[1..]);
      assert forall i :: 1 <= i < |s| ==> s[i] == s[1..][i - 1];
    }
  }

  /** Python's reading of the pattern, scanned, agrees with the one stated on the whole string. */
  lemma {:induction false} MatchesFromIsPatternAsWritten(s: string)
    ensures MatchesFrom(s) <==> Schemas.MatchesPatternAsWritten(s)
    decreases |s|
  {
    if s == [] {
    } else if s == "\n" {
      assert s[..0] == [];
    } else {
      MatchesFromIsPatternAsWritten(s[1..]);
      var t := s[1..];
      assert forall i :: 1 <= i < |s| ==> s[i] == t[i - 1];
      if |s| > 1 {
        assert t[..|t| - 1] == s[..|s| - 1][1..];
      }
      if !Schemas.IsShortIdChar(s[0]) {
        assert !Schemas.AllShortIdChars(s);
        assert |s| > 1 ==> !Schemas.AllShortIdChars(s[..|s| - 1]) by {
          if |s| > 1 { assert s[..|s| - 1][0] == s[0]; }
        }
      }
    }
  }

  /** The older validator accepts and refuses exactly as the application's does. */
  lemma SameRuleAsApplication(s: string)
    ensures IsValid(s) == Schemas.IsValid(s)
    ensures IsValidAsWritten(s) == Schemas.IsValidAsWritten(s)
  {
    AllowedFromIsAllShortIdChars(s);
    MatchesFromIsPatternAsWritten(s);
  }

  /** The older rule, as written, also admits an otherwise valid identifier ending in a newline. */
  lemma AsWrittenAcceptsTrailingNewline()
    ensures IsValidAsWritten("abcdefghi\n") == Success("abcdefghi\n")
    ensures IsValid("abcdefghi\n") == Failure(Schemas.BadCharacters)
  {
    SameRuleAsApplication("abcdefghi\n");
    Schemas.AsWrittenAcceptsTrailingNewline();
  }

  /** A value of the older pydantic model `shortURL`. */
  type ShortUrl = s: string | IsValid(s).Success? witness "AAAAAAAAAA"
}
