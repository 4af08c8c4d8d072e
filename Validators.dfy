/**
 * The e-mail and phone-number validators of the controller's test class:
 * `IsValidEmail` (ClientsControllerTests.cs:106-151) and `IsValidPhoneNumber`
 * (ClientsControllerTests.cs:154-187), with what their branches reduce to.
 */
module ContactValidation {
  import opened Wrappers
  import opened Text
  import opened Patterns

  // ---------------------------------------------------------------------------
  // E-mail
  // ---------------------------------------------------------------------------

  /** The `foreach` over the domain labels: it fails on the first label for
      which the user name is null or white space, or the label is shorter than
      two UTF-16 units. */
  function LabelLoopPasses(username: string, labels: seq<string>): (passes: bool)
    ensures labels != [] && IsBlank(username) ==> !passes
    ensures passes && labels != [] ==> Utf16Length(labels[0]) >= 2
  {
    if labels == [] then true
    else if IsNullOrWhiteSpace(Some(username)) || Utf16Length(labels[0]) < 2 then false
    else LabelLoopPasses(username, labels[1..])
  }

  /** For a non-empty list of labels the loop passes exactly when the user
      name is not blank and every label has at least two units. */
  lemma {:induction false} LabelLoopPassesIff(username: string, labels: seq<string>)
    requires |labels| > 0
    ensures LabelLoopPasses(username, labels) <==>
            !IsBlank(username) && forall i :: 0 <= i < |labels| ==> Utf16Length(labels[i]) >= 2
  {
    if |labels| > 1 {
      LabelLoopPassesIff(username, labels[1..]);
      assert forall i :: 1 <= i < |labels| ==> labels[i] == labels[1..][i - 1];
    }
  }

  /** The source's `IsValidEmail`, branch for branch. */
  function IsValidEmail(email: string): (valid: bool)
    ensures valid ==> Count(email, '@') == 1 && ' ' !in email
  {
    var emailParts := Split(email, '@');
    if |emailParts| != 2 then false
    else
      var username := emailParts[0];
      var domain := emailParts[1];
      var domainParts := Split(domain, '.');
      if |domainParts| < 1 then false
      else if !LabelLoopPasses(username, domainParts) then false
      else
        var lastDomainPart := domainParts[|domainParts| - 1];
        if lastDomainPart != "com.br" && lastDomainPart != "com" then false
        else if ' ' in email then false
        else true
  }

  /** The shape an accepted address has, stated without splitting: a user
      name and a list of domain labels, joined as `user@label.label...com`. */
  predicate WellShaped(local: string, labels: seq<string>) {
    && '@' !in local && ' ' !in local && !IsBlank(local)
    && |labels| > 0
    && (forall i :: 0 <= i < |labels| ==>
          '@' !in labels[i] && '.' !in labels[i] && ' ' !in labels[i] && Utf16Length(labels[i]) >= 2)
    && labels[|labels| - 1] == "com"
  }

  /** Every well-shaped address is accepted. */
  lemma EmailAcceptsWellShaped(local: string, labels: seq<string>)
    requires WellShaped(local, labels)
    ensures IsValidEmail(local + "@" + Join(labels, '.'))
  {
    var domain := Join(labels, '.');
    var email := local + "@" + domain;
    NotInJoin(labels, '.', ' ');
    EmailVerdict(email, local, labels);
  }

  /** The verdict on any address assembled from a user name and domain
      labels: accepted exactly when the user name is not blank, every label
      has two units or more, the last label is "com" and there is no space. */
  lemma EmailVerdict(email: string, user: string, labels: seq<string>)
    requires '@' !in user && |labels| > 0
    requires forall i :: 0 <= i < |labels| ==> '@' !in labels[i] && '.' !in labels[i]
    requires email == user + "@" + Join(labels, '.')
    ensures IsValidEmail(email) <==>
              && !IsBlank(user)
              && (forall i :: 0 <= i < |labels| ==> Utf16Length(labels[i]) >= 2)
              && labels[|labels| - 1] == "com"
              && ' ' !in email
  {
    NotInJoin(labels, '.', '@');
    SplitInTwo(user, Join(labels, '.'), '@');
    SplitJoin(labels, '.');
    LabelLoopPassesIff(user, labels);
  }

  /** What an accepted address passed, read off the branches. */
  lemma EmailAcceptedChecks(email: string)
    requires IsValidEmail(email)
    ensures var parts := Split(email, '@');
            |parts| == 2 &&
            var labels := Split(parts[1], '.');
            LabelLoopPasses(parts[0], labels) &&
            (labels[|labels| - 1] == "com.br" || labels[|labels| - 1] == "com") &&
            ' ' !in email
  {
  }

  /** Every accepted address is well shaped: it is its user name and its
      domain labels joined back together. */
  lemma EmailAcceptedIsWellShaped(email: string)
    requires IsValidEmail(email)
    ensures var parts := Split(email, '@');
            |parts| == 2 &&
            WellShaped(parts[0], Split(parts[1], '.')) &&
            email == parts[0] + "@" + Join(Split(parts[1], '.'), '.')
  {
    EmailAcceptedChecks(email);
    var parts := Split(email, '@');
    var labels := Split(parts[1], '.');
    LabelLoopPassesIff(parts[0], labels);
    LastLabelNeverComBr(parts[1]);
    NotInSplitPieces(email, '@', ' ');
    NotInSplitPieces(parts[1], '.', ' ');
    NotInSplitPieces(parts[1], '.', '@');
    assert WellShaped(parts[0], labels);
    JoinSplit(email, '@');
    JoinSplit(parts[1], '.');
  }

  /** A character absent from a string is absent from each of its pieces. */
  lemma {:induction false} NotInSplitPieces(s: string, sep: char, c: char)
    requires c !in s
    ensures forall i :: 0 <= i < |Split(s, sep)| ==> c !in Split(s, sep)[i]
  {
    if s != [] {
      NotInSplitPieces(s[1..], sep, c);
    }
  }

  /** Line 112: anything but exactly one `@` is rejected. */
  lemma EmailNeedsExactlyOneAt(email: string)
    requires Count(email, '@') != 1
    ensures !IsValidEmail(email)
  {
  }

  /** Line 131: a user name that is empty or white space only is rejected. */
  lemma EmailRejectsBlankUserName(email: string)
    requires Count(email, '@') == 1 && IsBlank(Split(email, '@')[0])
    ensures !IsValidEmail(email)
  {
    LabelLoopPassesIff(Split(email, '@')[0], Split(Split(email, '@')[1], '.'));
  }

  /** Line 131: a domain label shorter than two units (as in `a..com` or a
      trailing dot) is rejected. */
  lemma EmailRejectsShortLabel(email: string, i: nat)
    requires Count(email, '@') == 1
    requires i < |Split(Split(email, '@')[1], '.')|
    requires Utf16Length(Split(Split(email, '@')[1], '.')[i]) < 2
    ensures !IsValidEmail(email)
  {
    LabelLoopPassesIff(Split(email, '@')[0], Split(Split(email, '@')[1], '.'));
  }

  /** Line 139: the last label of a dot split never equals "com.br", so only
      "com" can pass that test. */
  lemma LastLabelNeverComBr(domain: string)
    ensures var labels := Split(domain, '.'); labels[|labels| - 1] != "com.br"
  {
    var labels := Split(domain, '.');
    assert "com.br"[3] == '.';
  }

  /** Line 139, what it amounts to: the last domain label is exactly "com". */
  lemma EmailLastLabelIsCom(email: string)
    requires IsValidEmail(email)
    ensures var labels := Split(Split(email, '@')[1], '.'); labels[|labels| - 1] == "com"
  {
    EmailAcceptedChecks(email);
    LastLabelNeverComBr(Split(email, '@')[1]);
  }

  /** Line 145: an address containing a space is rejected. */
  lemma EmailRejectsSpace(email: string)
    requires ' ' in email
    ensures !IsValidEmail(email)
  {
  }

  // ---------------------------------------------------------------------------
  // Phone number
  // ---------------------------------------------------------------------------

  /** `Regex.Replace(s, "[^0-9]", "")`: the ASCII digits of `s`, in order. */
  function StripNonDigits(s: string): (digits: string)
    ensures |digits| <= |s|
    ensures forall i :: 0 <= i < |digits| ==> IsAsciiDigit(digits[i])
  {
    if s == [] then []
    else (if IsAsciiDigit(s[0]) then [s[0]] else []) + StripNonDigits(s[1..])
  }

  /** Stripping keeps a string of digits as it is. */
  lemma {:induction false} StripKeepsDigits(s: string)
    requires forall i :: 0 <= i < |s| ==> IsAsciiDigit(s[i])
    ensures StripNonDigits(s) == s
  {
    if s != [] {
      StripKeepsDigits(s[1..]);
      assert [s[0]] + s[1..] == s;
    }
  }

  /** Stripping a string with no digit leaves nothing. */
  lemma {:induction false} StripDropsNonDigits(s: string)
    requires forall i :: 0 <= i < |s| ==> !IsAsciiDigit(s[i])
    ensures StripNonDigits(s) == []
  {
    if s != [] {
      StripDropsNonDigits(s[1..]);
    }
  }

  /** Stripping works piece by piece. */
  lemma {:induction false} StripConcat(a: string, b: string)
    ensures StripNonDigits(a + b) == StripNonDigits(a) + StripNonDigits(b)
  {
    if a != [] {
      assert (a + b)[1..] == a[1..] + b;
      StripConcat(a[1..], b);
    } else {
      assert a + b == b;
    }
  }

  /** Stripping twice is stripping once. */
  lemma StripIsIdempotent(s: string)
    ensures StripNonDigits(StripNonDigits(s)) == StripNonDigits(s)
  {
    StripKeepsDigits(StripNonDigits(s));
  }

  /** `\(\d{2}\) \d{8}` (line 175). */
  const AreaCodeEightDigits: Pattern :=
    [Literal('('), Digit, Digit, Literal(')'), Literal(' ')] + DigitRun(8)
  /** `\d{2}\d{4}\d{4}` (line 179). */
  const GroupedTenDigits: Pattern := DigitRun(2) + DigitRun(4) + DigitRun(4)
  /** `\(\d{2}\) \d{5}-\d{4}` (line 182). */
  const AreaCodeDashed: Pattern :=
    [Literal('('), Digit, Digit, Literal(')'), Literal(' ')] + DigitRun(5) + [Literal('-')] + DigitRun(4)
  /** `\d{10}` (line 186). */
  const TenDigits: Pattern := DigitRun(10)

  /** `$"({d.Substring(2, 2)}) {d.Substring(4)}"` (line 174). `Substring`
      throws on a string shorter than 4; that branch is only entered with
      11 digits, so the short case here is never used. */
  function AreaCodeFormat(d: string): (formatted: string)
    ensures |d| >= 4 ==> |formatted| == |d| + 1 && formatted[1..3] == d[2..4]
  {
    if |d| < 4 then "" else "(" + d[2..4] + ") " + d[4..]
  }

  /** `$"({d.Substring(0, 2)}) {d.Substring(2, 5)}-{d.Substring(7)}"` (line 181). */
  function DashedFormat(d: string): (formatted: string)
    requires |d| >= 7
    ensures |formatted| == |d| + 4 && formatted[1..3] == d[..2] && formatted[4] == ' '
  {
    "(" + d[0..2] + ") " + d[2..7] + "-" + d[7..]
  }

  /** The source's `IsValidPhoneNumber`, branch for branch. */
  function IsValidPhoneNumber(phoneNumber: string): (valid: bool)
    ensures valid ==> |StripNonDigits(phoneNumber)| == 10 || |StripNonDigits(phoneNumber)| == 11
  {
    var digits := StripNonDigits(phoneNumber);
    if |digits| != 10 && |digits| != 11 then false
    else if |digits| == 11 then true
    else if |digits| == 11 then IsMatch(AreaCodeFormat(digits), AreaCodeEightDigits)
    else if |digits| == 10 && IsMatch(digits, GroupedTenDigits) then
      IsMatch(DashedFormat(digits), AreaCodeDashed)
    else |digits| == 10 && IsMatch(digits, TenDigits)
  }

  /** Line 179: every ten-digit string passes `\d{2}\d{4}\d{4}`, so the
      fallback at line 186 is never reached. */
  lemma TenDigitGuardAlwaysHolds(d: string)
    requires |d| == 10 && forall i :: 0 <= i < |d| ==> IsAsciiDigit(d[i])
    ensures IsMatch(d, GroupedTenDigits)
  {
    assert GroupedTenDigits == DigitRun(10);
    DigitRunMatches(d);
  }

  /** Lines 181-182: the formatted string has three digits after the dash,
      one short of what `\d{4}` asks, so the test always fails. */
  lemma DashedFormatNeverMatches(d: string)
    requires |d| == 10
    ensures |DashedFormat(d)| == 14
    ensures !IsMatch(DashedFormat(d), AreaCodeDashed)
  {
    NoMatchInShorterInput(DashedFormat(d), AreaCodeDashed);
  }

  /** Lines 174-175, were they reachable: the formatted string has seven
      digits after the space, one short of `\d{8}`. */
  lemma AreaCodeFormatNeverMatches(d: string)
    requires |d| == 11
    ensures !IsMatch(AreaCodeFormat(d), AreaCodeEightDigits)
  {
    NoMatchInShorterInput(AreaCodeFormat(d), AreaCodeEightDigits);
  }

  /** Lines 157-163: only 10 or 11 digits can be accepted, whatever else the input holds. */
  lemma PhoneNeedsTenOrElevenDigits(phoneNumber: string)
    requires |StripNonDigits(phoneNumber)| != 10 && |StripNonDigits(phoneNumber)| != 11
    ensures !IsValidPhoneNumber(phoneNumber)
  {
  }

  /** Line 157: inserting characters other than ASCII digits anywhere
      (brackets, spaces, dashes, letters) never changes the verdict. */
  lemma PhoneIgnoresNonDigits(before: string, noise: string, after: string)
    requires forall i :: 0 <= i < |noise| ==> !IsAsciiDigit(noise[i])
    ensures IsValidPhoneNumber(before + noise + after) == IsValidPhoneNumber(before + after)
  {
    StripConcat(before + noise, after);
    StripConcat(before, noise);
    StripConcat(before, after);
    StripDropsNonDigits(noise);
    assert StripNonDigits(before) + [] == StripNonDigits(before);
    PhoneValidIffElevenDigits(before + noise + after);
    PhoneValidIffElevenDigits(before + after);
  }

  /** What the function amounts to: it accepts exactly the inputs with
      eleven ASCII digits. */
  lemma PhoneValidIffElevenDigits(phoneNumber: string)
    ensures IsValidPhoneNumber(phoneNumber) <==> |StripNonDigits(phoneNumber)| == 11
  {
    var digits := StripNonDigits(phoneNumber);
    if |digits| == 10 {
      TenDigitGuardAlwaysHolds(digits);
      DashedFormatNeverMatches(digits);
    }
  }
}
