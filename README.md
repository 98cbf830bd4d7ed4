# Apartment maintenance backend — verified model

A Dafny model of the decision logic in the AMS backend of a housing complex.
It covers four parts:

- **Maintenance payments.** `payMaintenance` runs a fixed chain of guards
  (12-digit transaction id, unused transaction id, period given, treasurer
  assigned for the period). It then stores one payment that carries a *copy*
  of the treasurer's details. The payments collection enforces two unique
  indexes: transaction id, and (flat, month, year). `getPaymentsByMonthYear`
  lists one period's payments, newest first. The collection is the class
  `PaymentLedger.Ledger`. Treasurer assignments are read-only input.
- **OTP login.** `sendOtp` issues a 6-digit code valid for 5 minutes on the
  owner with a given phone number. `verifyOtp` checks, in order: unknown
  phone, wrong code, expired code. On success it clears the code and returns
  a token with the owner's id and role. The wall clock is the parameter
  `now`, in milliseconds. The random draw is any code in 100000..999999.
- **Owner directory.** Create, read, update and delete over the owners
  table, the class `OwnerDirectory.Directory`. Its invariant `Valid()` holds
  after every operation. It says:
  - phone numbers are distinct;
  - ids are distinct;
  - every owner passes the schema's validators;
  - every owner has both a code and an expiry, or neither.
- **Receipt filter.** `fileFilter` accepts a file exactly when its
  lower-cased extension contains `jpeg`, `jpg`, `png` or `pdf` anywhere.

Modules:

| module | file |
|---|---|
| `Common` | `common.dfy` |
| `OwnerModel` | `owner_model.dfy` |
| `OwnerDirectory` | `owner_directory.dfy` |
| `OtpAuth` | `otp_auth.dfy` |
| `PaymentModel` | `payment_model.dfy` |
| `PaymentLedger` | `payment_ledger.dfy` |
| `LedgerScenarios` | `ledger_scenarios.dfy` |
| `ReceiptFilter` | `receipt_filter.dfy` |

`Common` holds the JavaScript notions the rest needs: falsy values, ASCII
case mapping, and substring search. `LedgerScenarios` holds properties that
span several requests.

JavaScript's three states of a field are the datatype `Slot`: `Unset` for
`undefined`, `Null` for `null`, `Val(v)` for a value. Only the OTP fields
need all three. A missing text field is the empty string, except in an
update body (`OwnerPatch`), where every missing field is `None`, and in a
payment's `paymentType`, which is an `Option<string>`. A missing number
is `None`.

## Model

| member | source | states |
|---|---|---|
| `Common.Lower` | middlewares/upload.js:27 | `toLowerCase`: same length; each ASCII capital becomes its small letter, every other character is kept |
| `Common.Upper` | controllers/maintenanceController.js:60 | `toUpperCase`: same length; each ASCII small letter becomes its capital, every other character is kept |
| `Common.ContainsIff` | middlewares/upload.js:25-28 | An unanchored pattern word matches a string exactly when it occurs at some offset |
| `Common.ContainsKeepsChars` | middlewares/upload.js:25-28 | A string that contains a word contains every character of that word |
| `Common.TruthyNumber` | controllers/maintenanceController.js:33 | The guard on a missing month or year: a number is truthy when it is present and not 0 |
| `ReceiptFilter.ExtName` | middlewares/upload.js:27 | `path.extname`: the result is empty, or one '.' followed by text with no '.' and no '/'. Which names have no extension is stated by `NoDotRejected` and `HiddenNameRejected`, and which have one by `ExtNameOfPlainName` |
| `ReceiptFilter.ExtNameOfPlainName` | middlewares/upload.js:27 | For a plain name `stem.e`, the extension is exactly `.e` |
| `ReceiptFilter.FileFilter` | middlewares/upload.js:24-32 | A rejection always carries "Only images or PDF allowed"; a name with no extension is rejected, for example a dotless name (`NoDotRejected`) or a hidden name such as ".pdf" (`HiddenNameRejected`) |
| `ReceiptFilter.NoDotRejected` | middlewares/upload.js:27-31 | A name without a dot has no extension and is rejected with "Only images or PDF allowed" |
| `ReceiptFilter.HiddenNameRejected` | middlewares/upload.js:27-31 | A name whose only dot leads it, such as ".pdf", has no extension and is rejected with "Only images or PDF allowed" |
| `ReceiptFilter.MatchesPattern` | middlewares/upload.js:25-28 | The unanchored pattern test: one of jpeg, jpg, png or pdf occurs somewhere in the extension |
| `ReceiptFilter.FileFilterAcceptsIff` | middlewares/upload.js:25-30 | Accepted exactly when one of jpeg/jpg/png/pdf occurs somewhere in the lower-cased extension (both directions) |
| `ReceiptFilter.FileFilterIgnoresCase` | middlewares/upload.js:27 | Upper- or lower-casing the whole file name never changes the decision |
| `ReceiptFilter.WithoutLetterPRejected` | middlewares/upload.js:25-31 | An extension without the letter 'p' is rejected, since every allowed word contains one |
| `ReceiptFilter.PlainNameAccepted` | middlewares/upload.js:25-30 | A plain name whose lower-cased extension holds an allowed word is accepted, whatever its stem |
| `ReceiptFilter.PdfxAccepted` | middlewares/upload.js:25-28 | The pattern is unanchored: `<stem>.pdfx` is accepted |
| `ReceiptFilter.XjpgAccepted` | middlewares/upload.js:25-28 | The pattern is unanchored: `<stem>.xjpg` is accepted |
| `ReceiptFilter.UpperPngAccepted` | middlewares/upload.js:27 | The test is case-insensitive: `<stem>.PNG` is accepted |
| `ReceiptFilter.MixedPdfAccepted` | middlewares/upload.js:27 | The test is case-insensitive: `<stem>.Pdf` is accepted |
| `ReceiptFilter.GifRejected` | middlewares/upload.js:31 | `<stem>.gif` is rejected with "Only images or PDF allowed" |
| `OwnerModel.FamilyWithDefaults` | models/Owners.js:16-24 | `numberOfChildren` defaults to 0; spouse and children are kept as given |
| `OwnerModel.ValidOwner` | models/Owners.js:3-24 | The owner validators: the eight required text fields are non-empty and every child is named |
| `OwnerModel.NewOwner` | controllers/ownersController.js:20-27 | The new owner has the given id. Its phone, name, flat number, floor number, flat type, status, occupation and UPI id are the body's. Its family is the body's with the schema defaults applied. Its role is the supplied role, or "resident" when none is given. It has no code |
| `OwnerModel.NewOwnerValidIff` | models/Owners.js:3-24 | A create body passes the validators exactly when all eight required fields are non-empty and every child is named |
| `OwnerDirectory.Patched` | controllers/ownersController.js:73-79 | An update keeps the id, the phone number and the OTP fields. Each of name, flat number, floor number, flat type, status, occupation, UPI id, role and family takes the supplied value when the body has one, and keeps the stored value otherwise. An empty body changes nothing |
| `OwnerDirectory.PatchedValid` | controllers/ownersController.js:76-79 | An update the validators accept keeps a valid owner valid |
| `OwnerDirectory.PatchValid` | controllers/ownersController.js:76-79 | The update validators: a supplied required field is non-empty, and supplied family details name every child |
| `OwnerDirectory.IndexOfId` | controllers/ownersController.js:52 | `findById`: the first row with the id, or none when no row has it |
| `OwnerDirectory.IndexOfPhone` | controllers/ownersController.js:14 | `findOne({ phoneNumber })`: the first row with the phone, or none when no row has it |
| `OwnerDirectory.RemoveAtKeepsOthers` | controllers/ownersController.js:102 | Removing a row keeps ids and phones distinct; it keeps exactly the owners whose id differs from the removed one |
| `OwnerDirectory.Directory.Valid` | controllers/ownersController.js:4-108 | The owners table invariant: ids and phone numbers are distinct, every id is below the next fresh id, every owner is valid, and its code and expiry either both hold a value or neither does |
| `OwnerDirectory.Directory.GetOwners` | controllers/ownersController.js:39-46 | Every stored owner, in store order |
| `OwnerDirectory.Directory.GetOwnerById` | controllers/ownersController.js:49-60 | 200 exactly when an owner has the id, and then that owner; otherwise 404 "Owner not found" |
| `OwnerDirectory.Directory.CreateOwner` | controllers/ownersController.js:4-36 | 400 without a phone; 400 "Phone number already exists" for a used phone; 500 when a validator refuses; in those cases the table is unchanged. Otherwise 201 and exactly the new owner is appended under a fresh id. Phone uniqueness is kept |
| `OwnerDirectory.Directory.UpdateOwner` | controllers/ownersController.js:62-88 | 404 for an unknown id; 400 when a validator refuses; in those cases the table is unchanged. Otherwise only that owner is replaced by the patched one. No phone number ever changes, and phone uniqueness is kept |
| `OwnerDirectory.Directory.DeleteOwner` | controllers/ownersController.js:91-108 | 404 for an unknown id, with the table unchanged. Otherwise exactly that owner is removed and the others keep their order |
| `OtpAuth.Issued` | controllers/authController.js:20-26 | The owner now holds the new code and an expiry of now + 300000 ms, replacing any earlier code; no other field changes |
| `OtpAuth.Cleared` | controllers/authController.js:58-60 | Both OTP fields are null; no other field changes |
| `OtpAuth.ExpiredAsWritten` | controllers/authController.js:53 | `otpExpires < Date.now()`: strict comparison on a set date; an undefined expiry is never in the past; a null expiry compares as 0 |
| `OtpAuth.JudgeAsWritten` | controllers/authController.js:49-55 | Code mismatch is checked first, so a wrong code never reports "expired" |
| `OtpAuth.NeverIssuedCodeAcceptedAsWritten` | controllers/authController.js:49-55 | As written, an owner never sent a code is accepted when the request carries no code (see Findings) |
| `OtpAuth.ClearedCodeNullReportedExpiredAsWritten` | controllers/authController.js:49-55 | As written, an owner whose code was cleared, sent a null code, gets "OTP expired"; the corrected checks call it a mismatch (see Findings) |
| `OtpAuth.Judge` | controllers/authController.js:49-55 | Accepted exactly when a code is live, equals the submitted one, and now ≤ expiry. "Expired" only follows a matching code. A missing or different code is a mismatch |
| `OtpAuth.JudgeAgreesWhileCodeLive` | controllers/authController.js:49-55 | Whenever a code and an expiry are stored, the corrected checks and the written ones agree |
| `OtpAuth.IssuedCodeLifecycle` | controllers/authController.js:20-55 | An issued code is accepted up to and including its expiry instant and is expired 1 ms later; any other code is a mismatch |
| `OtpAuth.NoReplayAfterSuccess` | controllers/authController.js:58-60 | Under the corrected checks, every submission after a successful verification is refused as invalid. The checks as written answer "OTP expired" to a null code instead (see Findings) |
| `OtpAuth.ReissueInvalidatesOldCode` | controllers/authController.js:24-26 | A newer code overwrites the older one, which is then refused |
| `OtpAuth.SendOtp` | controllers/authController.js:5-38 | 400 without a phone, 404 for an unknown phone, and no owner changes in those cases. Otherwise 200 with a code in 100000..999999 that the owner now holds, valid for 5 minutes; no other owner changes. The directory invariant is kept |
| `OtpAuth.VerifyOtp` | controllers/authController.js:40-78 | Decides with the corrected checks `Judge`. 404 for an unknown phone; 400 "Invalid OTP" or "OTP expired" with the owner unchanged. On success the code is cleared and the token holds exactly the owner's id and role, with a 3600 s lifetime |
| `PaymentModel.IsTransactionId` | models/MaintenancePayment.js:5-10 | `/^[0-9]{12}$/`: exactly twelve decimal digits |
| `PaymentModel.ValidPayment` | models/MaintenancePayment.js:5-33 | The payment validators: transaction-id pattern, required flat, owner name and mobile, and a type in the enum |
| `PaymentModel.IndexesHold` | models/MaintenancePayment.js:5-42 | Both unique indexes: no two payments share a transaction id, or a flat, month and year |
| `PaymentModel.Collides` | models/MaintenancePayment.js:5-42 | A new payment would break a unique index: some stored payment has its transaction id, or its flat, month and year |
| `PaymentModel.AppendKeepsIndexes` | models/MaintenancePayment.js:38-42 | Appending a payment that collides on neither unique index keeps both indexes |
| `PaymentModel.UpperCasedTypeAdmitted` | controllers/maintenanceController.js:60 | The upper-cased type is in the enum exactly when the input is "upi" in any case, so only "UPI" is ever stored |
| `PaymentLedger.FirstAssignment` | controllers/maintenanceController.js:40-43 | The first assignment for the period, or none when no assignment has that period |
| `PaymentLedger.TreasurerFor` | controllers/maintenanceController.js:40-49 | An owner exactly when there is an assignment for the period and the owner named by the first one still exists; that owner is then the one returned. Otherwise none, which the caller answers with 404 |
| `PaymentLedger.TransactionUsedIn` | controllers/maintenanceController.js:26-27 | Some stored payment already has the transaction id; when it holds and the format check passed, `PayMaintenance` answers 409 "already used" and stores nothing |
| `PaymentLedger.SnapshotOf` | controllers/maintenanceController.js:64-69 | The snapshot holds the owner's id, name, phone and UPI id |
| `PaymentLedger.ReceiptUrl` | controllers/maintenanceController.js:62 | `/uploads/receipts/<filename>` when a file came with the request, otherwise none |
| `PaymentLedger.BuildPayment` | controllers/maintenanceController.js:52-70 | The payment carries the request's transaction id, period, flat, owner name, owner mobile and amount. It also has the upper-cased type, the receipt URL, the treasurer snapshot and the creation time |
| `PaymentLedger.BuiltPaymentTypeIsUpi` | controllers/maintenanceController.js:60 | A built payment that passes the enum has type "UPI" |
| `PaymentLedger.OfPeriod` | controllers/maintenanceController.js:98-100 | Exactly the payments of the period, each with its multiplicity |
| `PaymentLedger.InsertByNewest` | controllers/maintenanceController.js:101 | Inserting into a newest-first list keeps it newest-first and adds exactly the one payment |
| `PaymentLedger.SortByNewest` | controllers/maintenanceController.js:101 | The result is ordered by `createdAt` descending and is a permutation of the input |
| `PaymentLedger.Ledger.Valid` | models/MaintenancePayment.js:1-45 | The collection invariant: every payment passes the validators and both unique indexes hold |
| `PaymentLedger.Ledger.Insert` | models/MaintenancePayment.js:1-45 | A validator failure or a unique-index collision leaves the collection unchanged; otherwise exactly the payment is appended. Both indexes keep holding |
| `PaymentLedger.Ledger.PayMaintenance` | controllers/maintenanceController.js:5-86 | The guard chain in order: 400 bad id, 409 used id, 400 missing period, 404 no treasurer, 500 missing type or amount, 500 validator, 409 already paid. Each leaves the collection unchanged. Otherwise 201, and exactly one payment is appended, with the treasurer snapshot taken at that moment |
| `PaymentLedger.Ledger.PaymentsByMonthYear` | controllers/maintenanceController.js:88-113 | 400 without a period. Otherwise exactly the period's payments, newest first, with `totalPayments` equal to their number. Nothing is modified |
| `LedgerScenarios.SnapshotOutlivesOwnerUpdate` | controllers/maintenanceController.js:64-69 | After a payment, a valid update of the treasurer's owner record replaces that record in the owner table. The stored payment keeps the snapshot of the record as it was at payment time |
| `LedgerScenarios.PayTwice` | controllers/maintenanceController.js:26-85 | After a successful payment, reusing its transaction id gives 409 "already used", and a second payment for the same flat and period is never recorded |
| `LedgerScenarios.FirstAssignmentDecides` | controllers/maintenanceController.js:40-43 | Wherever the first assignment for a period stands among several, its owner, when still stored, is the treasurer |
| `LedgerScenarios.LaterAssignmentsIgnored` | models/TreasurerAssignment.js:3-14 | Assignments added later for a period that already has one never change its treasurer |

## Left out

- HTTP request and response objects become reply datatypes. Routing, Swagger documentation, `server.js` and `controllers/userController.js` are not part of this model.
- The treasurer-assignment endpoints are referenced by the routes but not implemented in the controllers. Assignments are therefore given data, and no demote or promote behaviour is modelled.
- The wall clock is the parameter `now`. The random OTP draw is any code in range.
- Signing the login token (JSON Web Token, RFC 7519) is not modelled. The token is the record of its claims: id, role and lifetime.
- Multer's disk storage, directory creation and generated file names are left out. The stored file name is an input.
- Mongoose behaviour is not modelled:
  - `populate`: the assignment's owner is looked up in the directory;
  - String/Number casting;
  - the error code 11000 mechanism: uniqueness is checked inside `Ledger.Insert`;
  - cast errors for malformed ids.
- Exception messages of 500 replies are constants standing for the real text.
- Concurrency is not modelled: the model is sequential. That includes the check-then-insert race between the transaction-id lookup and the insert.
- `OwnerModel.NewOwner`: keeps the role a create request computes. The owner schema declares no `role` path, so under Mongoose's default strict mode the stored document would not keep it, and the token's role would be undefined.
- `OtpAuth.VerifyOtp`: decides with the corrected checks `Judge`, not with the checks as written (`JudgeAsWritten`). Two inputs get a different reply: an owner never sent a code, with no code in the request, logs in in the program but gets "Invalid OTP" here; an owner whose code was cleared, sent a null code, gets "OTP expired" in the program but "Invalid OTP" here. Both are under "## Findings".
- `OtpAuth.VerifyOtp`: the stored code and the submitted code are both integers here. The schema stores a Number, while the request body usually carries a string, which `!==` would never equal. That divergence is not modelled.
- `OwnerModel.NewOwner`: a new owner never has OTP fields. The program copies the whole create body, so a body carrying `otp` or `otpExpires` would store them, possibly a code without an expiry, which is never expired. This is not modelled, and `Directory.Valid` relies on it. The same holds for `OwnerDirectory.Directory.CreateOwner`.
- `OwnerDirectory.Directory.CreateOwner`: fields in the create body outside the input record, among them `otp` and `otpExpires`, are not modelled.
- `OwnerDirectory.Patched`: treats `role` as a stored field and replaces it when the body supplies one. The owner schema declares no `role` path, so under Mongoose's default strict mode the program would drop `role` from the update and never change it.
- `OwnerDirectory.Directory.UpdateOwner`: updates to the OTP fields through the update body are not modelled. Neither are other body fields outside the schema (the program drops them), nor family defaults re-applied on update. The family details are replaced as a whole. The `role` field is updated as if the schema declared it (see `OwnerDirectory.Patched`).
- `PaymentLedger.Ledger.PayMaintenance`: month and year are typed numbers. A multipart request carries strings, for which "0" is truthy. This is not modelled.
- `PaymentLedger.Ledger.PaymentsByMonthYear`: month and year are typed numbers, and 0 counts as missing. Query-string values are always strings, so the program answers `?month=0` with 200 and an empty period, where the model answers 400. This is not modelled.
- Amounts are unbounded integers. Floating-point amounts are not modelled.
- `OtpAuth.VerifyOtp`: a request without a phone number is looked up by the empty phone, which no valid owner has, so it gets 404. With Mongoose, an undefined filter value may be dropped, and the lookup would then return some first owner. That is not modelled.
- Lower- and upper-casing are ASCII-only. Unicode case mapping is not modelled.
- The month of an assignment has no range check in the schema, so the model puts none on it.

## Findings

| source | as written | input that shows it | evidently intended | confidence | as-written member | corrected member |
|---|---|---|---|---|---|---|
| controllers/authController.js:49-55 | `owner.otp !== otp` then `owner.otpExpires < Date.now()` | An owner who was never sent a code; a verify request with that phone and no `otp` field. Both sides are undefined, so they compare equal, and an undefined expiry is never in the past, so login succeeds | A code is accepted only while one has been issued, matches, and has not expired | not executed | `OtpAuth.NeverIssuedCodeAcceptedAsWritten` | `OtpAuth.Judge` |
| controllers/authController.js:49-55 | `owner.otp !== otp` then `owner.otpExpires < Date.now()` | An owner whose code was cleared by a successful login (both fields null); a verify request with `"otp": null`. `null !== null` is false, and a null date compares as 0, so the reply is "OTP expired" although no code exists | A request when no code is live is refused as an invalid code | not executed | `OtpAuth.ClearedCodeNullReportedExpiredAsWritten` | `OtpAuth.Judge` |
