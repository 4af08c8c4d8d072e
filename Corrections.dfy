/**
 * Two branches of the validators that cannot do what their comments say,
 * each shown on a concrete input, next to a corrected definition with the
 * evidently intended property proved about it.
 *
 * 1. ClientsControllerTests.cs:137-142 means to accept domains ending in
 *    ".com.br" or ".com", but the labels come from a split on '.', so the
 *    last label is "br" for a ".com.br" domain and the address is refused.
 * 2. ClientsControllerTests.cs:159-183 lets 10-digit numbers through the
 *    length test and then formats them as "(XX) XXXXX-XXX", which has only
 *    three digits after the dash, so every 10-digit number is refused.
 */
module CorrectedValidation {
  import opened Text
  import opened Patterns
  import opened ContactValidation

  // ---------------------------------------------------------------------------
  // ".com.br"
  // ---------------------------------------------------------------------------

  /** As written: a Brazilian commercial address is refused. */
  lemma ComBrAddressRefusedAsWritten()
    ensures !IsValidEmail("joao@empresa.com.br")
  {
    EmailVerdict("joao@empresa.com.br", "joao", ["empresa", "com", "br"]);
  }

  /** The domain ends with the label "com", or with the labels "com", "br". */
  predicate EndsWithComOrComBr(labels: seq<string>) {
    || (|labels| >= 1 && labels[|labels| - 1] == "com")
    || (|labels| >= 2 && labels[|labels| - 2] == "com" && labels[|labels| - 1] == "br")
  }

  /** `IsValidEmail` with the suffix test of line 139 made to look at the
      last two labels. */
  function IsValidEmailCorrected(email: string): bool {
    var emailParts := Split(email, '@');
    if |emailParts| != 2 then false
    else
      var username := emailParts[0];
      var domainParts := Split(emailParts[1], '.');
      if !LabelLoopPasses(username, domainParts) then false
      else if !EndsWithComOrComBr(domainParts) then false
      else ' ' !in email
  }

  /** The verdict of the corrected check on an address assembled from a user
      name and domain labels: as before, but ".com.br" also ends it well. */
  lemma EmailVerdictCorrected(email: string, user: string, labels: seq<string>)
    requires '@' !in user && |labels| > 0
    requires forall i :: 0 <= i < |labels| ==> '@' !in labels[i] && '.' !in labels[i]
    requires email == user + "@" + Join(labels, '.')
    ensures IsValidEmailCorrected(email) <==>
              && !IsBlank(user)
              && (forall i :: 0 <= i < |labels| ==> Utf16Length(labels[i]) >= 2)
              && EndsWithComOrComBr(labels)
              && ' ' !in email
  {
    NotInJoin(labels, '.', '@');
    SplitInTwo(user, Join(labels, '.'), '@');
    SplitJoin(labels, '.');
    LabelLoopPassesIff(user, labels);
  }

  /** The correction only widens: every address accepted as written is still
      accepted, and the only new ones end in ".com.br". */
  lemma CorrectedEmailExtendsAsWritten(email: string)
    ensures IsValidEmail(email) ==> IsValidEmailCorrected(email)
    ensures IsValidEmailCorrected(email) && !IsValidEmail(email) ==>
              var labels := Split(Split(email, '@')[1], '.');
              |labels| >= 2 && labels[|labels| - 2] == "com" && labels[|labels| - 1] == "br"
  {
    if IsValidEmail(email) {
      EmailLastLabelIsCom(email);
    }
  }

  /** `WellShaped` with the corrected suffix test. */
  predicate WellShapedCorrected(local: string, labels: seq<string>) {
    && '@' !in local && ' ' !in local && !IsBlank(local)
    && |labels| > 0
    && (forall i :: 0 <= i < |labels| ==>
          '@' !in labels[i] && '.' !in labels[i] && ' ' !in labels[i] && Utf16Length(labels[i]) >= 2)
    && EndsWithComOrComBr(labels)
  }

  lemma EmailCorrectedAcceptsWellShaped(local: string, labels: seq<string>)
    requires WellShapedCorrected(local, labels)
    ensures IsValidEmailCorrected(local + "@" + Join(labels, '.'))
  {
    NotInJoin(labels, '.', ' ');
    EmailVerdictCorrected(local + "@" + Join(labels, '.'), local, labels);
  }

  lemma ComBrAddressIsWellShaped()
    ensures "joao@empresa.com.br" == "joao" + "@" + Join(["empresa", "com", "br"], '.')
    ensures WellShapedCorrected("joao", ["empresa", "com", "br"])
  {
    assert !IsWhiteSpace("joao"[0]);
  }

  lemma ComBrAddressAcceptedWhenCorrected()
    ensures IsValidEmailCorrected("joao@empresa.com.br")
  {
    ComBrAddressIsWellShaped();
    EmailCorrectedAcceptsWellShaped("joao", ["empresa", "com", "br"]);
  }

  // ---------------------------------------------------------------------------
  // Ten-digit numbers
  // ---------------------------------------------------------------------------

  lemma LandlineHasTenDigits()
    ensures |StripNonDigits("(11) 3456-7890")| == 10
  {
  }

  /** As written: a 10-digit landline number is refused. */
  lemma LandlineRefusedAsWritten()
    ensures !IsValidPhoneNumber("(11) 3456-7890")
  {
    LandlineHasTenDigits();
    PhoneValidIffElevenDigits("(11) 3456-7890");
  }

  /** `\(\d{2}\) \d{4}-\d{4}`, the shape of a 10-digit number. */
  const AreaCodeLandline: Pattern :=
    [Literal('('), Digit, Digit, Literal(')'), Literal(' ')] + DigitRun(4) + [Literal('-')] + DigitRun(4)

  /** `$"({d.Substring(0, 2)}) {d.Substring(2, 4)}-{d.Substring(6)}"`. */
  function LandlineFormat(d: string): string
    requires |d| >= 6
  {
    "(" + d[0..2] + ") " + d[2..6] + "-" + d[6..]
  }

  /** `IsValidPhoneNumber` with lines 181-182 formatting and matching
      2 + 4 + 4 digits; every other branch is as written. */
  function IsValidPhoneNumberCorrected(phoneNumber: string): bool {
    var digits := StripNonDigits(phoneNumber);
    if |digits| != 10 && |digits| != 11 then false
    else if |digits| == 11 then true
    else if |digits| == 11 then IsMatch(AreaCodeFormat(digits), AreaCodeEightDigits)
    else if |digits| == 10 && IsMatch(digits, GroupedTenDigits) then
      IsMatch(LandlineFormat(digits), AreaCodeLandline)
    else |digits| == 10 && IsMatch(digits, TenDigits)
  }

  /** Ten digits formatted as a landline match the landline pattern. */
  lemma LandlineFormatMatches(d: string)
    requires |d| == 10 && forall i :: 0 <= i < |d| ==> IsAsciiDigit(d[i])
    ensures IsMatch(LandlineFormat(d), AreaCodeLandline)
  {
    var f := LandlineFormat(d);
    assert f[1..3] == d[0..2] && f[5..9] == d[2..6] && f[10..] == d[6..];
    assert MatchesAt(AreaCodeLandline, f, 0);
  }

  /** The intended rule: a number is accepted exactly when it has 10 or 11 digits. */
  lemma CorrectedPhoneIffTenOrEleven(phoneNumber: string)
    ensures IsValidPhoneNumberCorrected(phoneNumber) <==>
              |StripNonDigits(phoneNumber)| == 10 || |StripNonDigits(phoneNumber)| == 11
  {
    var digits := StripNonDigits(phoneNumber);
    if |digits| == 10 {
      TenDigitGuardAlwaysHolds(digits);
      LandlineFormatMatches(digits);
    }
  }

  lemma LandlineAcceptedWhenCorrected()
    ensures IsValidPhoneNumberCorrected("(11) 3456-7890")
  {
    LandlineHasTenDigits();
    CorrectedPhoneIffTenOrEleven("(11) 3456-7890");
  }
}
