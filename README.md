# Parking locator: registration screen and parking-spot rules

This project models two rule sets of the NKU parking locator in Dafny and proves properties of them.

**Registration screen (`Registration`, in `registration.dfy`).** This is the Android client's user-registration screen.
- It has five text fields: email, password, confirmation, first name and last name.
- The "confirm" button runs a validation chain that stops at the first failing check and reports one `Reason`. The checks, in order:
  1. a valid email address;
  2. both names non-empty;
  3. both passwords non-empty;
  4. the passwords equal;
  5. a password of at least `MinPasswordLength` (4) characters.
- A mismatch or a too-short password also clears the password and confirmation fields.
- When the chain accepts, the create-user request is sent. The message shown afterwards depends only on whether the session holds a user: "email taken" when it does not, "User Created" when it does.
- The "clear" button empties all five fields, one after another.

The decision itself is the pure function `Verify`. The screen is the class `RegistrationForm`, which has five `string` fields, and its methods are specified against `Verify` and `AfterVerify`. The platform's e-mail pattern is a parameter `pattern: string -> bool`. The pattern itself is not modelled.

**Parking spots (`Spots`, in `spot.dfy`).** This is the server's spot model.
- `Status` is the status hash as an ordered table of (name, code) pairs. `SpotStatus` is its inverse: when two names share a code, the last one wins, as with Ruby's `Hash#invert`.
- It has the four `is_*` tests, the validations (`verify_lot`, `verify_status`, presence and range of latitude and longitude), and the `within` bounding-box query.
- It has the two hooks that delete reservations: one when a spot is saved, one when a spot is destroyed.
- Spot columns are `Option` values, because the database may hold nil. Coordinates are exact `real`s.
- The existing lots are a set of lot ids.
- The reservation table is a class holding a `seq<Reservation>`, which the two hooks reassign.
- Quirk of `RemoveReservations`: a spot with no id looks up reservations whose spot column is nil, and deletes the first one it finds. The source does the same.

Facts about the code that the model keeps:
- The password fields are cleared inside the validation routine itself.
- There is no separate service-error outcome. A failed request is reported like a taken email.
- The password length is counted the way Java's `String.length()` counts it: in UTF-16 code units, so a character outside the Basic Multilingual Plane counts twice (`Utf16Length`).

## Model

| member | source | states |
|---|---|---|
| `Registration.Utf16Length` | android/NKUParkingLocator/src/team1/parkingapp/UserRegistrationActivity.java:131 | one character counts 1, or 2 when it lies outside the Basic Multilingual Plane; the length lies between the number of characters and twice that, and equals it when no character lies outside that plane |
| `Registration.Utf16LengthConcat` | android/NKUParkingLocator/src/team1/parkingapp/UserRegistrationActivity.java:131 | the length of a concatenation is the sum of the lengths; with the one-character case this fixes `String.length()` on every string |
| `Registration.ValidateEmailAddress` | android/NKUParkingLocator/src/team1/parkingapp/UserRegistrationActivity.java:144-149 | an empty address is always refused; a non-empty one is accepted exactly when the pattern matches it |
| `Registration.Verify` | android/NKUParkingLocator/src/team1/parkingapp/UserRegistrationActivity.java:107-138 | an accepted form has a non-empty email, equal passwords and a password of at least 4 UTF-16 code units; a mismatch or a too-short verdict implies both passwords are non-empty |
| `Registration.VerifyReportsFirstFailure` | android/NKUParkingLocator/src/team1/parkingapp/UserRegistrationActivity.java:114-135 | the reported reason is `r` exactly when check `r` fails and every check before it passes (email, then names, then blank passwords, then mismatch, then length); each refusal carries exactly one reason |
| `Registration.VerifyValidIffAllPass` | android/NKUParkingLocator/src/team1/parkingapp/UserRegistrationActivity.java:114-137 | the chain accepts exactly when all five checks pass |
| `Registration.EmptyEmailRejected` | android/NKUParkingLocator/src/team1/parkingapp/UserRegistrationActivity.java:144-148 | an empty email is refused as invalid-email, whatever the other fields hold |
| `Registration.NamesRejectedIffEmpty` | android/NKUParkingLocator/src/team1/parkingapp/UserRegistrationActivity.java:118-121 | after a valid email, the names check fails exactly when the first or the last name is the empty string (`isEmpty` only, so names of blanks pass) |
| `Registration.SurrogatePairCountsTwice` | android/NKUParkingLocator/src/team1/parkingapp/UserRegistrationActivity.java:131-137 | a password of two letters and one character outside the Basic Multilingual Plane has 3 characters but length 4, and the form is accepted |
| `Registration.AfterVerify` | android/NKUParkingLocator/src/team1/parkingapp/UserRegistrationActivity.java:126-135 | email and names never change; after a mismatch or a too-short password both password fields are empty; the fields are unchanged exactly when the verdict is neither of those two |
| `Registration.ResubmitAfterPasswordFailure` | android/NKUParkingLocator/src/team1/parkingapp/UserRegistrationActivity.java:122-135 | after a password failure has cleared the fields, confirming again reports blank passwords |
| `Registration.VerifyAgainSameVerdict` | android/NKUParkingLocator/src/team1/parkingapp/UserRegistrationActivity.java:107-138 | on every other path, confirming again gives the same verdict |
| `Registration.ClearedFormRejected` | android/NKUParkingLocator/src/team1/parkingapp/UserRegistrationActivity.java:85-91 | a cleared form is refused at the email check |
| `Registration.ReportAfterSubmit` | android/NKUParkingLocator/src/team1/parkingapp/UserRegistrationActivity.java:60-78 | the message is "email taken" exactly when the session has no user, and "User Created" exactly when it has one |
| `Registration.ReportIgnoresException` | android/NKUParkingLocator/src/team1/parkingapp/UserRegistrationActivity.java:60-69 | whether the request threw does not change the message |
| `Registration.RegistrationForm.constructor` | android/NKUParkingLocator/src/team1/parkingapp/UserRegistrationActivity.java:29-39 | a new screen has all five fields empty. This rests on the layout file, which is not part of this model: `onCreate` itself sets no text |
| `Registration.RegistrationForm.SetText` | android/NKUParkingLocator/src/team1/parkingapp/UserRegistrationActivity.java:88-90 | replacing one field's text leaves the other four fields as they were |
| `Registration.RegistrationForm.ResetPasswords` | android/NKUParkingLocator/src/team1/parkingapp/UserRegistrationActivity.java:97-100 | password and confirmation become empty; the other three fields are unchanged |
| `Registration.RegistrationForm.OnClearClick` | android/NKUParkingLocator/src/team1/parkingapp/UserRegistrationActivity.java:85-91 | all five fields become empty |
| `Registration.RegistrationForm.VerifyInput` | android/NKUParkingLocator/src/team1/parkingapp/UserRegistrationActivity.java:107-138 | returns true exactly when the chain accepts the fields as they were; the new fields are `AfterVerify` of the old ones |
| `Registration.RegistrationForm.OnConfirmClick` | android/NKUParkingLocator/src/team1/parkingapp/UserRegistrationActivity.java:51-80 | a request is issued exactly when the chain accepts. The request carries the old email, password and names. Otherwise the outcome carries the chain's reason. The fields change as `AfterVerify` says |
| `Spots.HashGet` | server/app/models/spot.rb:11-16 | a lookup yields nil exactly when no entry has the key; otherwise it yields a code paired with that key in the table |
| `Spots.HashGetFirst` | server/app/models/spot.rb:11-16 | a lookup yields the code of the first entry with the key |
| `Spots.InvertGet` | server/app/models/spot.rb:70-72 | the inverse yields nil exactly for nil or for a code no entry holds; otherwise it yields a name paired with that code |
| `Spots.InvertGetLast` | server/app/models/spot.rb:70-72 | inverting yields the name of the last entry holding the code, as `Hash#invert` keeps the last |
| `Spots.StatusCode` | server/app/models/spot.rb:11-16 | `STATUS[name]` is defined exactly for AVAILABLE, RESERVED, OCCUPIED and UNAVAILABLE |
| `Spots.SpotStatus` | server/app/models/spot.rb:70-72 | every name `spot_status` yields maps back to the given code under `STATUS` |
| `Spots.StatusName` | server/app/models/spot.rb:23-25 | the spot's status name is AVAILABLE, RESERVED, OCCUPIED or UNAVAILABLE exactly when the matching `is_*` test holds |
| `Spots.IsAvailable` | server/app/models/spot.rb:27-29 | holds exactly when the stored code is 1 |
| `Spots.IsReserved` | server/app/models/spot.rb:31-33 | holds exactly when the stored code is 2 |
| `Spots.IsOccupied` | server/app/models/spot.rb:35-37 | holds exactly when the stored code is 3 |
| `Spots.IsUnavailable` | server/app/models/spot.rb:39-41 | holds exactly when the stored code is 4 |
| `Spots.HashGetAt` | server/app/models/spot.rb:11-16 | with distinct keys, looking up an entry's key yields that entry's code |
| `Spots.InvertGetAt` | server/app/models/spot.rb:70-72 | with distinct codes, inverting an entry's code yields that entry's name |
| `Spots.StatusCodes` | server/app/models/spot.rb:11-16 | AVAILABLE, RESERVED, OCCUPIED and UNAVAILABLE have codes 1, 2, 3 and 4 |
| `Spots.StatusRoundTrip` | server/app/models/spot.rb:70-72 | `spot_status(STATUS[n]) == n` for every name in the table |
| `Spots.SpotStatusDefined` | server/app/models/spot.rb:70-72 | a code has a status name exactly when it is 1, 2, 3 or 4; nil has none |
| `Spots.StatusTestsExclusive` | server/app/models/spot.rb:27-41 | no stored code satisfies two of the four `is_*` tests |
| `Spots.StatusTestsCover` | server/app/models/spot.rb:27-41 | some `is_*` test holds exactly when the stored code is 1, 2, 3 or 4 |
| `Spots.VerifyLot` | server/app/models/spot.rb:75-79 | no error exactly when the spot has a lot id that names an existing lot |
| `Spots.VerifyStatus` | server/app/models/spot.rb:81-85 | the status validation adds at most one error |
| `Spots.VerifyStatusAccepts` | server/app/models/spot.rb:81-85 | the status validation adds no error exactly when the stored code is 1 (AVAILABLE) or 4 (UNAVAILABLE); nil and every other code are refused |
| `Spots.ReservedAndOccupiedRejected` | server/app/models/spot.rb:81-85 | a reserved or occupied spot always fails the status validation |
| `Spots.ValidateCoordinate` | server/app/models/spot.rb:4-5 | a coordinate has no error exactly when it is present and within [-180, 180]; every error is filed under that coordinate |
| `Spots.Errors` | server/app/models/spot.rb:2-5 | a spot passes validation exactly when its lot exists, its code is 1 or 4, and both coordinates are present and in range |
| `Spots.InRegion` | server/app/models/spot.rb:44-57 | a spot inside the box implies the box is not inverted: an inverted box selects nothing |
| `Spots.Matching` | server/app/models/spot.rb:44-57 | a spot is selected exactly when it is in the table and inside the inclusive box (and in the lot, when one is given); never more spots than the table holds |
| `Spots.MatchingCounts` | server/app/models/spot.rb:44-57 | each row inside the region is selected exactly as often as it occurs in the table, and no other row is selected |
| `Spots.ToRecord` | server/app/models/spot.rb:60-66 | a record copies id, lot id, latitude and longitude unchanged; its status is `spot_status` of the stored code, present exactly when the code is 1 to 4 |
| `Spots.Within` | server/app/models/spot.rb:43-68 | returns min(selected, 100) records. Each record lies inside the inclusive box and, when a lot is given, carries that lot id. Record i is the record of the i-th selected spot, where the selection holds each matching row as often as the table does (`MatchingCounts`) |
| `Spots.WithinComplete` | server/app/models/spot.rb:43-58 | when at most 100 spots are selected, every selected spot's record is returned |
| `Spots.WithoutSpot` | server/app/models/spot.rb:87-91 | a row survives exactly when it was present and belongs to another spot |
| `Spots.WithoutSpotCounts` | server/app/models/spot.rb:87-91 | rows of other spots keep their multiplicity; rows of the deleted spot's id all go |
| `Spots.FindBySpotId` | server/app/models/spot.rb:94 | yields the first row whose spot column equals the key, or nil exactly when no row has it |
| `Spots.RemoveAt` | server/app/models/spot.rb:95 | deleting one found row removes exactly that row: one fewer row, same multiset otherwise |
| `Spots.ClearsOnSave` | server/app/models/spot.rb:88 | the save hook's condition holds exactly when the spot has an id and its stored code is 1 or 4 |
| `Spots.ValidSavedSpotClears` | server/app/models/spot.rb:81-91 | a saved spot that passes the status validation (so every saved spot with no errors) always meets the deletion condition of the save hook |
| `Spots.ReservationTable.constructor` | server/app/models/spot.rb:89 | the reservation table starts with the given rows |
| `Spots.ReservationTable.ConfigReservations` | server/app/models/spot.rb:87-91 | for a spot with an id and status AVAILABLE or UNAVAILABLE, every reservation of that spot id is deleted and no other; otherwise the table is unchanged |
| `Spots.ReservationTable.RemoveReservations` | server/app/models/spot.rb:93-96 | deletes the first reservation with the spot's id, or nothing when there is none; at most one row goes |

## Left out

- UI plumbing: view binding in `onCreate`, the options menu and the `Toast` texts. The `Reason` and `Report` values stand for the message chosen.
- The e-mail address pattern of the Android platform. It is a parameter, and its grammar is not modelled.
- The create-user network task and the blocking `get()`. Their effect appears only as two parameters: whether the task threw, and whether the session holds a user afterwards.
- The `Session` global and any race between the task finishing and the session being read.
- ActiveRecord persistence, SQL and callback dispatch. `save` and `destroy` are not modelled as operations. `ValidSavedSpotClears` relates the validations to the save hook.
- Row order. The database returns rows in an unspecified order: `Matching` and `FindBySpotId` use the table's order.
- The error messages of the presence and numericality validators, which come from the Rails framework. They are modelled as error kinds of the attribute: blank and not-a-number for nil, too-small and too-large for out-of-range values. Non-numeric strings cannot occur, because coordinates are numbers or nil.
- `to_f` conversions of query parameters and floating-point comparison. Coordinates are exact reals.
- `VerifyLot`: for a missing lot id, `Lot.find` raises an exception, so the `.nil?` branch never adds an error. The model records an `IsInvalid(LotId)` error where the source raises. Lot existence is membership in a set of lot ids.
- Improvements the code does not make: a distinct service-error outcome, single-flight submission, timeouts, cancellation, trimming of whitespace.
