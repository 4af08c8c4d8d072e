/**
 * The xUnit theory data of ClientsControllerTests.cs:51-82, each case stated
 * as a lemma about the model of the validator it exercises.
 */
module ValidatorVectors {
  import opened Text
  import opened ContactValidation

  // --- "john@example.com" and "gui14511@gmail.com" are accepted (lines 52-53) ---

  lemma JohnExampleComIsWellShaped()
    ensures "john@example.com" == "john" + "@" + Join(["example", "com"], '.')
    ensures WellShaped("john", ["example", "com"])
  {
    assert !IsWhiteSpace("john"[0]);
  }

  lemma AcceptsJohnExampleCom()
    ensures IsValidEmail("john@example.com")
  {
    JohnExampleComIsWellShaped();
    EmailAcceptsWellShaped("john", ["example", "com"]);
  }

  lemma Gui14511GmailComIsWellShaped()
    ensures "gui14511@gmail.com" == "gui14511" + "@" + Join(["gmail", "com"], '.')
    ensures WellShaped("gui14511", ["gmail", "com"])
  {
    assert !IsWhiteSpace("gui14511"[0]);
  }

  lemma AcceptsGui14511GmailCom()
    ensures IsValidEmail("gui14511@gmail.com")
  {
    Gui14511GmailComIsWellShaped();
    EmailAcceptsWellShaped("gui14511", ["gmail", "com"]);
  }

  // --- the six rejected addresses (lines 61-66) ---

  /** No `@` at all: the split yields one part. */
  lemma RejectsJohnDotExample()
    ensures !IsValidEmail("john.example")
  {
    assert '@' !in "john.example";
    EmailNeedsExactlyOneAt("john.example");
  }

  /** The empty label between the two dots is too short. */
  lemma RejectsDoubleDot()
    ensures !IsValidEmail("john@example..com")
  {
    EmailVerdict("john@example..com", "john", ["example", "", "com"]);
  }

  /** A space after the `@`. */
  lemma RejectsEmbeddedSpace()
    ensures !IsValidEmail("john@ example.com")
  {
    EmailRejectsSpace("john@ example.com");
  }

  /** An empty user name. */
  lemma RejectsEmptyUserName()
    ensures !IsValidEmail("@example.com")
  {
    EmailVerdict("@example.com", "", ["example", "com"]);
  }

  /** The only label is "example", not "com". */
  lemma RejectsMissingTopLevelLabel()
    ensures !IsValidEmail("john@example")
  {
    EmailVerdict("john@example", "john", ["example"]);
  }

  /** The trailing dot leaves an empty last label. */
  lemma RejectsTrailingDot()
    ensures !IsValidEmail("john@example.")
  {
    EmailVerdict("john@example.", "john", ["example", ""]);
  }

  // --- phone numbers (lines 74-77) ---

  // Each phone case comes down to its digit count; each count is computed
  // in a lemma of its own, away from the validator, to keep every proof small.

  lemma PlainNumberHasElevenDigits()
    ensures |StripNonDigits("11963516246")| == 11
  {
  }

  lemma AcceptsElevenDigitsPlain()
    ensures IsValidPhoneNumber("11963516246")
  {
    PlainNumberHasElevenDigits();
    PhoneValidIffElevenDigits("11963516246");
  }

  lemma ParenthesisedNumberHasElevenDigits()
    ensures |StripNonDigits("(11) 963516246")| == 11
  {
  }

  lemma AcceptsParenthesisedAreaCode()
    ensures IsValidPhoneNumber("(11) 963516246")
  {
    ParenthesisedNumberHasElevenDigits();
    PhoneValidIffElevenDigits("(11) 963516246");
  }

  lemma DashedNumberHasElevenDigits()
    ensures |StripNonDigits("(11) 96351-6246")| == 11
  {
  }

  lemma AcceptsDashedNumber()
    ensures IsValidPhoneNumber("(11) 96351-6246")
  {
    DashedNumberHasElevenDigits();
    PhoneValidIffElevenDigits("(11) 96351-6246");
  }

  /** Nine digits once the letter is dropped. */
  lemma LetterNumberHasNineDigits()
    ensures |StripNonDigits("12345678a0")| == 9
  {
  }

  lemma RejectsNineDigits()
    ensures !IsValidPhoneNumber("12345678a0")
  {
    LetterNumberHasNineDigits();
    PhoneValidIffElevenDigits("12345678a0");
  }
}
