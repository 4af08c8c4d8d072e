# APICadastro client registry, modelled in Dafny

APICadastro is a small ASP.NET Core Web API that keeps a registry of
clients. Each client has an integer `ID`, a full name, a phone number, an
e-mail address and a main address. A `ClientsController` lists, reads,
creates, updates and deletes them. Its test project also holds two
hand-written validators: `IsValidEmail` and `IsValidPhoneNumber`.

This project models three parts of that code.

- **The `Client` record and its data annotations** (`Client.dfy`, module
  `ClientModel`). `[Required]` sits on every property. `[StringLength(100)]`
  sits on `FullName` and `MainAddress`. `Validate` gives the messages MVC
  model validation produces. Every attribute of a property is checked,
  `[Required]` first, so a blank name over 100 units draws two messages.
  `IsValid` stands for `ModelState.IsValid`.
- **The controller** (`ClientsController.dfy`, module
  `ClientsControllerModel`). It is a class whose `clients` field is the
  `Clients` table: a map from primary key to record. The actions update that
  field in place. Each action answers with an `ActionResult` value, and each
  contract states the answer and the whole new table for every branch. The
  class invariant `Valid()` says that every record is stored under its own
  `ID`. `Scenarios.dfy` builds the three seeded records of the controller
  test and chains actions together.
- **The two validators** (`Validators.dfy`, module `ContactValidation`).
  They are pure functions that follow the C# branch by branch. `Text.dfy`
  supplies the .NET string behaviour they rely on: `Split(char)` keeps empty
  pieces, `Length` counts UTF-16 code units, and `IsNullOrWhiteSpace` uses
  .NET's white-space set. `Patterns.dfy` models the fixed-shape regular
  expressions and `Regex.IsMatch`, which finds a match anywhere in the input.
  `ValidatorVectors.dfy` states each `InlineData` case of the tests as a
  lemma.

The main results:

- `IsValidEmail` accepts exactly the addresses of the form
  `user@label.….com`. The user name must not be blank. Every label needs two
  or more UTF-16 units. The address must contain no space. The test for a
  `com.br` last label can never succeed.
- `IsValidPhoneNumber` accepts exactly the inputs with eleven ASCII digits.
  All other characters are ignored. Every ten-digit number is refused,
  because both of its ten-digit branches are dead or always fail.
- The controller keeps the table keyed by `ID` through every action. Create,
  update and delete change only the entry they name.

Wherever this model and a plain-language description of the API differ,
the model follows the code:

- A ten-digit phone number is rejected, not accepted.
- `UpdateClient` never consults `ModelState` itself. The class carries
  `[ApiController]`, which answers an invalid body with its validation
  messages before any action runs. The model therefore starts both
  `CreateClient` and `UpdateClient` with that validation step, so no action
  ever stores an invalid record.
- Creating a record under a key that is already taken is not a distinct
  "conflict" answer. It is the store's exception, which the action does not
  catch. Here it is the `DuplicateKey` outcome.

## Model

| member | source | states |
|---|---|---|
| ClientModel.Client | ClientAPI/Models/Client.cs:5-25 | the record: an `int` `ID` and four string properties, each of which may be null |
| ClientModel.CheckField | ClientAPI/Models/Client.cs:10-24 | a `Missing` message exactly when the value is null, empty or white space; a `TooLong` message exactly when `[StringLength(100)]` applies and a non-null value exceeds 100 UTF-16 units; no message exactly when the property passes all its annotations; at most two messages for `FullName` and `MainAddress` and one for the others, all naming the property |
| ClientModel.Validate | ClientAPI/Models/Client.cs:7-24 | a message names property `f` exactly when `f` fails its annotations; at most six messages |
| ClientModel.IsValid | ClientAPI/Controllers/ClientsController.cs:52 | `ModelState.IsValid`: validation produced no message |
| ClientModel.IsPresent | ClientAPI/Models/Client.cs:10 | `[Required]` with `AllowEmptyStrings` false: null, empty and white-space values fail (the same attribute sits at lines 14, 18 and 22) |
| ClientModel.FitsLength | ClientAPI/Models/Client.cs:11 | `[StringLength(100)]`: null passes, otherwise at most 100 UTF-16 units (the same attribute sits at line 23) |
| ClientModel.ValidIffEveryField | ClientAPI/Models/Client.cs:7-24 | a client is valid exactly when all four string properties pass their annotations |
| ClientModel.ValidIffConstraints | ClientAPI/Models/Client.cs:7-24 | valid exactly when every property is present and `FullName` and `MainAddress` are at most 100 UTF-16 units |
| ClientModel.OneBadFieldInvalidates | ClientAPI/Models/Client.cs:7-24 | one failing property makes the whole record invalid, whatever the others hold |
| ClientModel.NameLengthBoundary | ClientAPI/Models/Client.cs:10-12 | the 100-unit bound is inclusive: a present BMP name passes exactly when it has at most 100 characters |
| Text.IsWhiteSpace | ClientsControllerTeste/ClientsControllerTests.cs:131 | `char.IsWhiteSpace`: exactly .NET's white-space characters (U+0009-U+000D, U+0020, U+0085, U+00A0, U+1680, U+2000-U+200A, U+2028, U+2029, U+202F, U+205F, U+3000) |
| Text.IsNullOrWhiteSpace | ClientsControllerTeste/ClientsControllerTests.cs:131 | `string.IsNullOrWhiteSpace`: null, or every character white space (also the test `[Required]` applies) |
| Text.Utf16Length | ClientAPI/Models/Client.cs:11 | the UTF-16 length of a string lies between its number of code points and twice that |
| Text.Utf16LengthOfBmp | ClientAPI/Models/Client.cs:11 | for text in the Basic Multilingual Plane the UTF-16 length is the number of characters |
| ClientsControllerModel.ClientsController.constructor | ClientAPI/Controllers/ClientsController.cs:16-20 | the controller starts over the given table, keyed by `ID` |
| ClientsControllerModel.ClientsController.GetAllClients | ClientAPI/Controllers/ClientsController.cs:25-29 | every stored record exactly once: as many records as keys, each one the record stored under its `ID`, no `ID` twice, none missing |
| ClientsControllerModel.ClientsController.GetClient | ClientAPI/Controllers/ClientsController.cs:34-45 | `NotFound` exactly when no record has the key; otherwise `Ok` with the stored record, whose `ID` is the key |
| ClientsControllerModel.ClientsController.CreateClient | ClientAPI/Controllers/ClientsController.cs:50-62 | an invalid record gives `BadRequest` with its messages and a taken key gives `DuplicateKey`, both leaving the table alone; otherwise the record is added under its `ID` and `CreatedAt(ID, record)` is answered; the table stays keyed by `ID`, and stays free of invalid records |
| ClientsControllerModel.ClientsController.UpdateClient | ClientAPI/Controllers/ClientsController.cs:67-95 | an invalid body: `BadRequest` with its messages, as `[ApiController]` answers before the action; path and body `ID` differ: `BadRequest` with no messages; key present and no conflicting write: the record is replaced, `NoContent`; key absent: `NotFound`; conflicting write on a present key: the rethrown concurrency error; only the success case changes the table, and it never stores an invalid record |
| ClientsControllerModel.ClientsController.DeleteClient | ClientAPI/Controllers/ClientsController.cs:100-113 | an absent key gives `NotFound` and no change; otherwise exactly that key is removed, `NoContent`; a table free of invalid records stays so |
| ClientsControllerModel.ClientsController.ClientExists | ClientAPI/Controllers/ClientsController.cs:115-118 | some stored record has the `ID` exactly when the key is present |
| ControllerScenarios.TestClients | ClientsControllerTeste/ClientsControllerTests.cs:84-92 | the three seeded records sit under keys 1, 2 and 3, each under its own `ID` |
| ControllerScenarios.ListingSeededTableYieldsThree | ClientsControllerTeste/ClientsControllerTests.cs:16-48 | listing the seeded table yields three records |
| ControllerScenarios.CreateThenGet | ClientAPI/Controllers/ClientsController.cs:58-61 | a valid record under a fresh key is created and a later get returns it |
| ControllerScenarios.DeleteThenGet | ClientAPI/Controllers/ClientsController.cs:102-112 | after deleting a stored record, a get and a second delete both answer `NotFound`; only that key is gone |
| ControllerScenarios.MismatchedUpdateChangesNothing | ClientAPI/Controllers/ClientsController.cs:69-73 | an update whose path and body `ID` differ answers `BadRequest` (with no messages when the body is valid, with the validation messages otherwise) and changes nothing, whatever the store would do |
| ControllerScenarios.UpdateThenGet | ClientAPI/Controllers/ClientsController.cs:75-94 | an update of a stored record with a valid body and no conflicting write is seen by a later get, and a get of any other key answers as before |
| Text.Split | ClientsControllerTeste/ClientsControllerTests.cs:109 | `Split(char)` yields one more piece than there are separators, and no piece holds the separator |
| Text.JoinSplit | ClientsControllerTeste/ClientsControllerTests.cs:121 | joining the pieces of a split with the separator gives back the input |
| Text.SplitJoin | ClientsControllerTeste/ClientsControllerTests.cs:121 | splitting a join of separator-free pieces gives back those pieces |
| Text.SplitInTwo | ClientsControllerTeste/ClientsControllerTests.cs:109 | a string with one separator splits into the parts before and after it |
| Patterns.SearchFrom | ClientsControllerTeste/ClientsControllerTests.cs:182 | true exactly when the pattern matches at some position at or after the start |
| Patterns.IsMatch | ClientsControllerTeste/ClientsControllerTests.cs:182 | `Regex.IsMatch` on a fixed-length pattern: true exactly when the pattern matches at some position of the input |
| Patterns.DigitRunMatches | ClientsControllerTeste/ClientsControllerTests.cs:186 | `\d{n}` matches every string of exactly n ASCII digits |
| Patterns.NoMatchInShorterInput | ClientsControllerTeste/ClientsControllerTests.cs:182 | a fixed-length pattern never matches an input shorter than itself |
| ContactValidation.LabelLoopPasses | ClientsControllerTeste/ClientsControllerTests.cs:129-135 | the `foreach`: fails on a blank user name whenever there is a label, and passes only if the first label has two or more units |
| ContactValidation.IsValidEmail | ClientsControllerTeste/ClientsControllerTests.cs:106-151 | the validator branch for branch; an accepted address has exactly one `@` and no space |
| ContactValidation.LabelLoopPassesIff | ClientsControllerTeste/ClientsControllerTests.cs:129-135 | for one or more labels (all that `Split` ever yields), the `foreach` passes exactly when the user name is not blank and every label has two or more UTF-16 units |
| ContactValidation.EmailVerdict | ClientsControllerTeste/ClientsControllerTests.cs:106-151 | for `user@l1.….ln`: accepted exactly when the user name is not blank, every label has two or more units, the last label is `com` and there is no space |
| ContactValidation.EmailAcceptsWellShaped | ClientsControllerTeste/ClientsControllerTests.cs:106-151 | every well-shaped address is accepted |
| ContactValidation.EmailAcceptedIsWellShaped | ClientsControllerTeste/ClientsControllerTests.cs:106-151 | every accepted address is well shaped: the converse of the row above |
| ContactValidation.EmailNeedsExactlyOneAt | ClientsControllerTeste/ClientsControllerTests.cs:109-115 | an address without exactly one `@` is refused |
| ContactValidation.EmailRejectsBlankUserName | ClientsControllerTeste/ClientsControllerTests.cs:129-135 | a blank user name is refused |
| ContactValidation.EmailRejectsShortLabel | ClientsControllerTeste/ClientsControllerTests.cs:121-135 | a domain label shorter than two units is refused |
| ContactValidation.LastLabelNeverComBr | ClientsControllerTeste/ClientsControllerTests.cs:138-139 | a label produced by splitting on `.` is never `com.br` |
| ContactValidation.EmailLastLabelIsCom | ClientsControllerTeste/ClientsControllerTests.cs:138-142 | every accepted address ends with the label `com` |
| ContactValidation.EmailRejectsSpace | ClientsControllerTeste/ClientsControllerTests.cs:145-148 | an address containing a space is refused |
| ContactValidation.StripNonDigits | ClientsControllerTeste/ClientsControllerTests.cs:157 | the result is no longer than the input and is made of ASCII digits only |
| ContactValidation.StripKeepsDigits | ClientsControllerTeste/ClientsControllerTests.cs:157 | a string of digits is left as it is |
| ContactValidation.StripDropsNonDigits | ClientsControllerTeste/ClientsControllerTests.cs:157 | a string without digits becomes empty |
| ContactValidation.StripConcat | ClientsControllerTeste/ClientsControllerTests.cs:157 | stripping distributes over concatenation |
| ContactValidation.StripIsIdempotent | ClientsControllerTeste/ClientsControllerTests.cs:157 | stripping twice is stripping once |
| ContactValidation.AreaCodeFormat | ClientsControllerTeste/ClientsControllerTests.cs:174 | `(XX) rest` built from digits 3-4 and the rest: one character longer than its input |
| ContactValidation.DashedFormat | ClientsControllerTeste/ClientsControllerTests.cs:181 | `(XX) XXXXX-rest` built from the first two digits, the next five and the rest: four characters longer than its input |
| ContactValidation.IsValidPhoneNumber | ClientsControllerTeste/ClientsControllerTests.cs:154-187 | the validator branch for branch; an accepted number has 10 or 11 digits |
| ContactValidation.AreaCodeEightDigits | ClientsControllerTeste/ClientsControllerTests.cs:175 | the regex `\(\d{2}\) \d{8}` |
| ContactValidation.GroupedTenDigits | ClientsControllerTeste/ClientsControllerTests.cs:179 | the regex `\d{2}\d{4}\d{4}` |
| ContactValidation.AreaCodeDashed | ClientsControllerTeste/ClientsControllerTests.cs:182 | the regex `\(\d{2}\) \d{5}-\d{4}` |
| ContactValidation.TenDigits | ClientsControllerTeste/ClientsControllerTests.cs:186 | the regex `\d{10}` |
| ContactValidation.TenDigitGuardAlwaysHolds | ClientsControllerTeste/ClientsControllerTests.cs:179 | every ten-digit string matches `\d{2}\d{4}\d{4}`, so the fallback at line 186 is never reached |
| ContactValidation.DashedFormatNeverMatches | ClientsControllerTeste/ClientsControllerTests.cs:181-182 | the ten-digit number formatted at line 181 is 14 characters and never matches the 15-character pattern |
| ContactValidation.AreaCodeFormatNeverMatches | ClientsControllerTeste/ClientsControllerTests.cs:172-176 | the eleven-digit branch at line 172, were it reached, would always fail |
| ContactValidation.PhoneNeedsTenOrElevenDigits | ClientsControllerTeste/ClientsControllerTests.cs:157-163 | a number without 10 or 11 digits is refused |
| ContactValidation.PhoneIgnoresNonDigits | ClientsControllerTeste/ClientsControllerTests.cs:157 | inserting non-digit characters anywhere never changes the verdict |
| ContactValidation.PhoneValidIffElevenDigits | ClientsControllerTeste/ClientsControllerTests.cs:154-187 | a number is accepted exactly when it holds eleven ASCII digits |
| ValidatorVectors.JohnExampleComIsWellShaped | ClientsControllerTeste/ClientsControllerTests.cs:52 | `john@example.com` is the user `john` with labels `example`, `com`, and is well shaped |
| ValidatorVectors.AcceptsJohnExampleCom | ClientsControllerTeste/ClientsControllerTests.cs:52 | `john@example.com` is accepted |
| ValidatorVectors.Gui14511GmailComIsWellShaped | ClientsControllerTeste/ClientsControllerTests.cs:53 | `gui14511@gmail.com` is well shaped |
| ValidatorVectors.AcceptsGui14511GmailCom | ClientsControllerTeste/ClientsControllerTests.cs:53 | `gui14511@gmail.com` is accepted |
| ValidatorVectors.RejectsJohnDotExample | ClientsControllerTeste/ClientsControllerTests.cs:61 | `john.example` is refused |
| ValidatorVectors.RejectsDoubleDot | ClientsControllerTeste/ClientsControllerTests.cs:62 | `john@example..com` is refused |
| ValidatorVectors.RejectsEmbeddedSpace | ClientsControllerTeste/ClientsControllerTests.cs:63 | `john@ example.com` is refused |
| ValidatorVectors.RejectsEmptyUserName | ClientsControllerTeste/ClientsControllerTests.cs:64 | `@example.com` is refused |
| ValidatorVectors.RejectsMissingTopLevelLabel | ClientsControllerTeste/ClientsControllerTests.cs:65 | `john@example` is refused |
| ValidatorVectors.RejectsTrailingDot | ClientsControllerTeste/ClientsControllerTests.cs:66 | `john@example.` is refused |
| ValidatorVectors.PlainNumberHasElevenDigits | ClientsControllerTeste/ClientsControllerTests.cs:74 | `11963516246` keeps its eleven digits |
| ValidatorVectors.AcceptsElevenDigitsPlain | ClientsControllerTeste/ClientsControllerTests.cs:74 | `11963516246` is accepted |
| ValidatorVectors.ParenthesisedNumberHasElevenDigits | ClientsControllerTeste/ClientsControllerTests.cs:75 | `(11) 963516246` has eleven digits |
| ValidatorVectors.AcceptsParenthesisedAreaCode | ClientsControllerTeste/ClientsControllerTests.cs:75 | `(11) 963516246` is accepted |
| ValidatorVectors.DashedNumberHasElevenDigits | ClientsControllerTeste/ClientsControllerTests.cs:76 | `(11) 96351-6246` has eleven digits |
| ValidatorVectors.AcceptsDashedNumber | ClientsControllerTeste/ClientsControllerTests.cs:76 | `(11) 96351-6246` is accepted |
| ValidatorVectors.LetterNumberHasNineDigits | ClientsControllerTeste/ClientsControllerTests.cs:77 | `12345678a0` has nine digits |
| ValidatorVectors.RejectsNineDigits | ClientsControllerTeste/ClientsControllerTests.cs:77 | `12345678a0` is refused |
| CorrectedValidation.ComBrAddressRefusedAsWritten | ClientsControllerTeste/ClientsControllerTests.cs:137-142 | as written, `joao@empresa.com.br` is refused |
| CorrectedValidation.EmailVerdictCorrected | ClientsControllerTeste/ClientsControllerTests.cs:137-142 | with the suffix test looking at the last two labels, `user@l1.….ln` is accepted exactly when it meets the other checks and ends in `com` or in `com`, `br` |
| CorrectedValidation.EmailCorrectedAcceptsWellShaped | ClientsControllerTeste/ClientsControllerTests.cs:137-142 | the corrected check accepts every address that is well shaped with either ending |
| CorrectedValidation.CorrectedEmailExtendsAsWritten | ClientsControllerTeste/ClientsControllerTests.cs:137-142 | the correction only widens: each address accepted as written is still accepted, and each newly accepted one ends in `com`, `br` |
| CorrectedValidation.ComBrAddressIsWellShaped | ClientsControllerTeste/ClientsControllerTests.cs:137-142 | `joao@empresa.com.br` is well shaped under the corrected suffix test |
| CorrectedValidation.ComBrAddressAcceptedWhenCorrected | ClientsControllerTeste/ClientsControllerTests.cs:137-142 | the corrected check accepts `joao@empresa.com.br` |
| CorrectedValidation.LandlineHasTenDigits | ClientsControllerTeste/ClientsControllerTests.cs:157-160 | `(11) 3456-7890` has ten digits |
| CorrectedValidation.LandlineRefusedAsWritten | ClientsControllerTeste/ClientsControllerTests.cs:178-183 | as written, the ten-digit `(11) 3456-7890` is refused |
| CorrectedValidation.LandlineFormatMatches | ClientsControllerTeste/ClientsControllerTests.cs:178-183 | ten digits formatted as `(XX) XXXX-XXXX` match `\(\d{2}\) \d{4}-\d{4}` |
| CorrectedValidation.CorrectedPhoneIffTenOrEleven | ClientsControllerTeste/ClientsControllerTests.cs:159-183 | the corrected check accepts a number exactly when it holds 10 or 11 digits |
| CorrectedValidation.LandlineAcceptedWhenCorrected | ClientsControllerTeste/ClientsControllerTests.cs:178-183 | the corrected check accepts `(11) 3456-7890` |

## Left out

- Program.cs is not part of this model. It holds the host set-up: dependency injection, the SQL Server connection, Swagger and the exception handler that turns an uncaught exception into a 500 response.
- ClientContext.cs is reduced to its `Clients` table. Entity Framework Core's change tracking, `SaveChangesAsync`, migrations and the SQL schema are not modelled.
- Key generation by the database is not modelled. A record is stored under the `ID` the caller sends.
- `async`/`await`, logging, HTTP status codes, routing and Swagger annotations are left out. An action's answer is the `ActionResult` value.
- Concurrency is not modelled. The one place where it shows, a `DbUpdateConcurrencyException` on a present key, is the `commitConflict` parameter of `UpdateClient`.
- `[Phone]` and `[EmailAddress]` are library validators whose code is not part of this model. `Validate` checks only `[Required]` and `[StringLength(100)]`.
- Model-binding errors are left out, such as a JSON body that does not parse or an `ID` outside the `int` range. `[ApiController]`'s automatic 400 answer is modelled only as the validation step at the start of `CreateClient` and `UpdateClient`; the shape of its problem-details body is not.
- The validators' null argument is left out. `IsValidEmail(null)` and `IsValidPhoneNumber(null)` throw, but a Dafny `string` cannot be null.
- Strings holding a lone UTF-16 surrogate are left out, because a Dafny `char` is a Unicode scalar value and cannot represent one.
- The Moq `DbSet` harness of the tests is left out. The seeded records are given to the controller model directly.
- ContactValidation.AreaCodeFormat: `Substring` throws on a string shorter than 4. The model returns the empty string there instead. That branch is only entered with eleven digits, so the case never arises.
- Patterns.IsMatch: `\d` also matches non-ASCII decimal digits in .NET. The model matches ASCII digits only. That is all the inputs there can hold, because line 157 keeps only `[0-9]`.
- ClientsControllerModel.ClientsController.GetAllClients: does not fix the order of the records, because the order of a `DbSet` enumeration is up to the store.

## Findings

| source | as written | input that shows it | evidently intended | confidence | as-written member | corrected member |
|---|---|---|---|---|---|---|
| ClientsControllerTeste/ClientsControllerTests.cs:137-142 | the domain is split on `.` before its last piece is compared with `com.br`, so that comparison never succeeds and every `.com.br` address is refused | `joao@empresa.com.br` | accept domains ending in `.com.br` as well as `.com`, as the comment at line 137 says | high (not executed) | CorrectedValidation.ComBrAddressRefusedAsWritten | CorrectedValidation.EmailVerdictCorrected |
| ClientsControllerTeste/ClientsControllerTests.cs:178-183 | ten digits are formatted as `(XX) XXXXX-XXX`, which leaves three digits after the dash where `\d{4}` wants four, so every ten-digit number is refused although line 160 lets ten digits through | `(11) 3456-7890` | accept ten-digit numbers in the `(XX) XXXX-XXXX` shape | medium (not executed) | CorrectedValidation.LandlineRefusedAsWritten | CorrectedValidation.CorrectedPhoneIffTenOrEleven |
