/**
 * The `Client` record (Models/Client.cs) and the checks its data
 * annotations ask for: `[Required]` on every property and
 * `[StringLength(100)]` on `FullName` and `MainAddress`.
 */
module ClientModel {
  import opened Wrappers
  import opened Text

  /** C#'s `int`. */
  type Int32 = x: int | -0x8000_0000 <= x < 0x8000_0000

  /** The bound of `[StringLength(100)]`. */
  const MaxLength: nat := 100

  /** A client; a string property that may be null is an `Option`. */
  datatype Client = Client(
    id: Int32,
    fullName: Option<string>,
    phoneNumber: Option<string>,
    email: Option<string>,
    mainAddress: Option<string>)

  /** The string properties, which are the ones that can fail validation
      (`[Required]` on the non-nullable `ID` always holds). */
  datatype Field = FullName | PhoneNumber | Email | MainAddress

  /** One validation message, naming the property it is about. */
  datatype FieldError = Missing(field: Field) | TooLong(field: Field, maximum: nat)

  function FieldValue(c: Client, f: Field): Option<string> {
    match f
    case FullName => c.fullName
    case PhoneNumber => c.phoneNumber
    case Email => c.email
    case MainAddress => c.mainAddress
  }

  /** Whether the property carries `[StringLength(100)]`. */
  predicate HasLengthBound(f: Field) {
    f == FullName || f == MainAddress
  }

  /** `[Required]` with its default `AllowEmptyStrings = false`: not null,
      and not empty or white space only. */
  predicate IsPresent(s: Option<string>) {
    !IsNullOrWhiteSpace(s)
  }

  /** `[StringLength(max)]`: null passes; otherwise at most `max` UTF-16 units. */
  predicate FitsLength(s: Option<string>, max: nat) {
    s.None? || Utf16Length(s.value) <= max
  }

  /** Everything the annotations ask of one property. */
  predicate FieldIsValid(c: Client, f: Field) {
    IsPresent(FieldValue(c, f)) && (HasLengthBound(f) ==> FitsLength(FieldValue(c, f), MaxLength))
  }

  /** The messages for one property. MVC model validation runs every
      attribute of the property, `[Required]` first, so a blank value over
      the length bound draws both messages; a null value passes
      `[StringLength]`. */
  function CheckField(c: Client, f: Field): (errors: seq<FieldError>)
    ensures |errors| <= if HasLengthBound(f) then 2 else 1
    ensures errors == [] <==> FieldIsValid(c, f)
    ensures Missing(f) in errors <==> !IsPresent(FieldValue(c, f))
    ensures TooLong(f, MaxLength) in errors <==> HasLengthBound(f) && !FitsLength(FieldValue(c, f), MaxLength)
    ensures forall e :: e in errors ==> e.field == f
  {
    var value := FieldValue(c, f);
    (if !IsPresent(value) then [Missing(f)] else [])
    + (if HasLengthBound(f) && !FitsLength(value, MaxLength) then [TooLong(f, MaxLength)] else [])
  }

  /** Model validation of a `Client`, property by property in declaration order. */
  function Validate(c: Client): (errors: seq<FieldError>)
    ensures |errors| <= 6
    ensures forall f :: (exists e :: e in errors && e.field == f) <==> !FieldIsValid(c, f)
  {
    var name, phone, email, address :=
      CheckField(c, FullName), CheckField(c, PhoneNumber), CheckField(c, Email), CheckField(c, MainAddress);
    MessagesNameBadFields(c, name, phone, email, address);
    name + phone + email + address
  }

  /** The messages of the four properties, put together, name exactly the
      properties that fail. */
  lemma MessagesNameBadFields(c: Client, name: seq<FieldError>, phone: seq<FieldError>,
                              email: seq<FieldError>, address: seq<FieldError>)
    requires name == CheckField(c, FullName) && phone == CheckField(c, PhoneNumber)
    requires email == CheckField(c, Email) && address == CheckField(c, MainAddress)
    ensures forall f :: (exists e :: e in name + phone + email + address && e.field == f) <==> !FieldIsValid(c, f)
  {
    var all := name + phone + email + address;
    forall f
      ensures (exists e :: e in all && e.field == f) <==> !FieldIsValid(c, f)
    {
      var own := CheckField(c, f);
      if e :| e in all && e.field == f {
        assert e in name || e in phone || e in email || e in address;
        assert e in own;
      }
      if own != [] {
        assert own[0] in all;
      }
    }
  }

  /** `ModelState.IsValid` for a bound `Client`. */
  predicate IsValid(c: Client) {
    Validate(c) == []
  }

  /** A client is valid exactly when every property passes its checks. */
  lemma ValidIffEveryField(c: Client)
    ensures IsValid(c) <==> forall f :: FieldIsValid(c, f)
  {
    if IsValid(c) {
      forall f ensures FieldIsValid(c, f) {
        assert !exists e :: e in Validate(c) && e.field == f;
      }
    } else {
      var e := Validate(c)[0];
      assert !FieldIsValid(c, e.field);
    }
  }

  /** The same, spelled out property by property (Client.cs:7-24). */
  lemma ValidIffConstraints(c: Client)
    ensures IsValid(c) <==>
              && IsPresent(c.fullName) && FitsLength(c.fullName, 100)
              && IsPresent(c.phoneNumber)
              && IsPresent(c.email)
              && IsPresent(c.mainAddress) && FitsLength(c.mainAddress, 100)
  {
    ValidIffEveryField(c);
    if !IsValid(c) {
      var f :| !FieldIsValid(c, f);
    }
  }

  /** A single bad property spoils the whole record, whatever the others hold. */
  lemma OneBadFieldInvalidates(c: Client, f: Field)
    requires !FieldIsValid(c, f)
    ensures !IsValid(c)
  {
    ValidIffEveryField(c);
  }

  /** `[StringLength(100)]` is inclusive: a name of 100 units passes and one
      of 101 does not. */
  lemma NameLengthBoundary(c: Client, name: string)
    requires IsPresent(Some(name))
    requires forall i :: 0 <= i < |name| ==> name[i] as int < 0x1_0000
    ensures FieldIsValid(c.(fullName := Some(name)), FullName) <==> |name| <= 100
  {
    Utf16LengthOfBmp(name);
  }
}
