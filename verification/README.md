# Period attendance: a Dafny model

This project models the client-side core of a class-attendance web app. An
administrator builds one day's record out of periods. Each period has a
subject and an absentee list. A period whose subject has an assigned teacher
must carry that teacher's 4-digit PIN before it can be saved as verified.

The model covers these pieces:

- **Roster** (`roster.dfy`): `normalizeClassRollNumbers`, the attendance
  page's helper for a class's roll identifiers. They are trimmed, empty and
  repeated ones are dropped, and the rest are sorted in natural order. A class
  without stored identifiers falls back to `"1".."N"`. The page defines this
  helper but never calls it: its absentee grid is built as `1..classStrength`.
  The `roster` input of `SaveAttendance` stands for the helper's result.
- **PeriodLedger** (`ledger.dfy`): the page state for one date. This is the
  list of periods plus one verification-code slot per period number. The
  module covers adding, deleting, toggling an absentee, typing a PIN, and
  loading a saved day.
- **SaveGate** (`savegate.dfy`): the checks `saveAttendance` makes before it
  posts, the request body it builds (a verified period's `****` mask is sent
  as an empty code), and how it reports the server's reply.
- **TeacherAssign** (`teachers.dfy`): the teacher-assignment form check, the
  PIN input filter, the unassigned-subject list and the teacher-name lookup.
- **Registration** (`register.dfy`): the password checks of teacher sign-up.
- **PushKey** (`pushkey.dfy`) over **Base64** (`base64.dfy`):
  `urlBase64ToUint8Array`. It decodes a VAPID key given in the URL-safe
  alphabet of section 5 of RFC 4648. `window.atob` is modelled as the
  forgiving-base64 decode of the WHATWG Infra standard.
- Shared pieces:
  - `Text` holds the JavaScript string operations the code relies on: `trim`
    with its exact white-space set, `/\D/g`, `slice`, `length` in UTF-16
    units, and `String(n)`.
  - `Sorting` is `Array.prototype.sort` as a stable insertion sort.
  - `Seqs` has `find` and `filter`.
  - `Wrappers` has `Option` and `Result`.
  - `Domain` has the subject and teacher records.

Errors that the code reports through a notification are modelled as values:
the step datatypes `SaveStep`, `AssignStep`, `RegisterStep` and `AddError`. A
JavaScript exception is a `Failure`. Network replies are inputs.

Notes on the page's behaviour:

- `toggleAbsent` and `deletePeriod` do not refuse to change a verified
  period. The roll buttons of a verified period are disabled and guarded,
  but its delete button is not, so the page can delete a verified period.
- Roster normalisation can throw. `Array.from({ length: n })` raises a
  `RangeError` for a whole-number count above 2^32 - 1, so
  `NormalizeClassRollNumbers` returns a `Result`.
- Nothing in the page rejects duplicate period numbers. Duplicates arise
  only from server data, so the invariants about loading assume unique
  numbers.

## Model

| member | source | states |
|---|---|---|
| Text.Trim | app/admin/dashboard/page.js:13 | the result is empty exactly when the input is all JavaScript white space, and otherwise neither starts nor ends with white space |
| Text.TrimSlice | app/admin/dashboard/page.js:13 | the trim is a slice of the input with only JavaScript white space before and after it, so nothing but white space at the two ends is removed |
| Text.TrimIdempotent | app/admin/dashboard/page.js:13 | trimming a trimmed string changes nothing |
| Text.CleanPin | app/admin/dashboard/page.js:280 | the PIN input keeps only ASCII digits, at most four of them; it is the first min(4, #digits) characters of the digit filter's output, which KeepDigitsIsFilter and KeepDigitsOne pin down as the input's digits in order |
| Text.KeepDigits | app/admin/dashboard/page.js:280 | the `/\D/g` filter's output holds only digits and is no longer than its input |
| Text.KeepDigitsIsFilter | app/admin/dashboard/page.js:280 | the digit filter is `filter` with the digit test: exactly the input's digits, in order |
| Text.KeepDigitsOne | app/admin/dashboard/page.js:280 | on one character the filter keeps a digit and drops anything else |
| Text.KeepDigitsAppend | app/admin/dashboard/page.js:280 | the digit filter distributes over concatenation, so digits keep their order |
| Text.KeepDigitsIdentity | app/admin/dashboard/page.js:280 | the digit filter leaves a string unchanged exactly when the string is all digits |
| Text.CleanPinIdempotent | app/admin/dashboard/page.js:280 | filtering an already filtered PIN changes nothing |
| Text.NatToString | app/admin/dashboard/page.js:40 | `String(index + 1)` is a non-empty numeral without a leading zero whose decimal value is the number |
| Text.NatToStringInjective | app/admin/dashboard/page.js:40 | distinct counts give distinct numerals |
| Text.JsLength | app/admin/teachers/page.js:58 | `length` counts UTF-16 units: at least one and at most two per character |
| Text.JsLengthBmp | app/teacher/register/page.js:28 | for text in the Basic Multilingual Plane, `length` equals the number of characters |
| Seqs.FindIndex | app/admin/dashboard/page.js:172 | `find` returns the first matching index, and nothing exactly when no element matches |
| Seqs.Filter | app/admin/dashboard/page.js:249 | `filter` keeps exactly the elements passing the test; it is empty exactly when none passes |
| Seqs.FilterAppend | app/admin/teachers/page.js:116 | filtering commutes with concatenation (order is kept) |
| Sorting.SortBy | app/admin/dashboard/page.js:17-21 | `sort` returns a permutation of its input |
| Sorting.SortBySorted | app/admin/dashboard/page.js:17-21 | sorting by a total preorder yields an ordered permutation of the input |
| Roster.SanitizeRollNumber | app/admin/dashboard/page.js:11-15 | null/undefined and all-white-space values give nothing; anything else gives its trim, which is non-empty and has no surrounding white space |
| Roster.SanitizeIdempotent | app/admin/dashboard/page.js:11-15 | sanitising a sanitised roll gives it back |
| Roster.NaturalLeTotalPreorder | app/admin/dashboard/page.js:19 | the natural comparison is total and transitive, so the sort is well defined |
| Roster.NumeralsSortByValue | app/admin/dashboard/page.js:19 | numerals compare by numeric value ("2" before "10") |
| Roster.SortRollNumbers | app/admin/dashboard/page.js:17-21 | the sorted roster is a permutation of the input in natural order |
| Roster.NaturalOrderExample | app/admin/dashboard/page.js:17-21 | `["2", "10", "1"]` sorts to `["1", "2", "10"]` |
| Roster.FirstOccurrences | app/admin/dashboard/page.js:25-32 | the seen-set filter yields no duplicates, only unseen present rolls, and every unseen present roll |
| Roster.FirstOccurrencesOfDistinct | app/admin/dashboard/page.js:25-32 | distinct, present, unseen rolls pass the filter unchanged and in order |
| Roster.PositiveCount | app/admin/dashboard/page.js:38-39 | a count exists exactly for a finite positive whole number, and it equals that number |
| Roster.Ordinals | app/admin/dashboard/page.js:40 | the fallback roster has N entries, entry k being the numeral of k + 1 |
| Roster.OrdinalsWellFormed | app/admin/dashboard/page.js:40 | the fallback roster has no repeats, is already in natural order, and holds trimmed numerals of 1..N |
| Roster.SortedRoster | app/admin/dashboard/page.js:34-36 | the stored-roll roster is duplicate-free, naturally ordered, trimmed, and holds exactly the sanitised stored rolls |
| Roster.FallbackRoster | app/admin/dashboard/page.js:38-43 | a count above the largest array length fails; otherwise the result is "1".."N", or empty when there is no positive count |
| Roster.NormalizeClassRollNumbers | app/admin/dashboard/page.js:23-44 | fails only on an oversize fallback count; otherwise duplicate-free, naturally ordered and trimmed; equals the set of sanitised stored rolls when there are any, and the ordinals otherwise |
| PeriodLedger.MaxPeriodNum | app/admin/dashboard/page.js:186-187 | the maximum period number bounds every number and is attained |
| PeriodLedger.NextPeriodNum | app/admin/dashboard/page.js:186-188 | the new number exceeds every existing one; it is 1 for an empty day and the maximum plus one otherwise |
| PeriodLedger.PickedSubject | app/admin/dashboard/page.js:193-200 | a picked subject is found only outside custom mode and with a non-empty id, and it is the first subject with that id; nothing is found only when no subject has the id |
| PeriodLedger.SubjectNamed | app/admin/dashboard/page.js:211-214 | the first subject whose name matches ignoring case, or nothing exactly when no name matches |
| PeriodLedger.ResolveSubject | app/admin/dashboard/page.js:190-224 | a found picked subject wins; otherwise an empty trimmed name is refused, a name matching a subject binds it, and any other name gives a free-text period |
| PeriodLedger.ResolvedBindingIsKnown | app/admin/dashboard/page.js:193-224 | a bound period carries its subject's own name; when every subject has an id, a free-text name is non-empty and never matches a subject's name ignoring case |
| PeriodLedger.AddPeriod | app/admin/dashboard/page.js:185-245 | on success, exactly one fresh unverified period with no absentees is appended, and its code slot is empty |
| PeriodLedger.AddPeriodFresh | app/admin/dashboard/page.js:186-236 | the appended number is new, so unique numbers stay unique |
| PeriodLedger.AddPeriodConsistent | app/admin/dashboard/page.js:185-245 | adding a period preserves the page-state invariant |
| PeriodLedger.AppendFreshConsistent | app/admin/dashboard/page.js:228-238 | appending a period above all others with an empty slot preserves the invariant |
| PeriodLedger.DeletePeriod | app/admin/dashboard/page.js:248-256 | exactly the periods with other numbers remain; only that number's code slot is removed and the other slots are kept |
| PeriodLedger.AddThenDelete | app/admin/dashboard/page.js:185-256 | deleting the period just added restores the previous state |
| PeriodLedger.DeleteKeepsOrder | app/admin/dashboard/page.js:249 | deletion keeps a period alone or drops it, and distributes over concatenation, so the survivors keep their order and their number |
| PeriodLedger.DeleteAppended | app/admin/dashboard/page.js:248-256 | deleting a just-appended period with a fresh number restores the list and the slots |
| PeriodLedger.DeletePeriodConsistent | app/admin/dashboard/page.js:248-256 | deleting preserves the page-state invariant |
| PeriodLedger.FilteredNums | app/admin/dashboard/page.js:249-254 | after deletion the period numbers are the old ones minus the deleted number, which matches the remaining slots |
| PeriodLedger.FilterUnique | app/admin/dashboard/page.js:249 | filtering periods with unique numbers keeps the numbers unique |
| PeriodLedger.IntLeTotalPreorder | app/admin/dashboard/page.js:271 | the `a - b` comparator orders numbers totally |
| PeriodLedger.ToggleRoll | app/admin/dashboard/page.js:266-271 | the roll's membership flips and no other roll's does; an added roll leaves the list sorted with one more copy of it; a removed roll loses all its copies while every other roll keeps its copies, and a sorted list stays sorted |
| PeriodLedger.ToggleRollTwice | app/admin/dashboard/page.js:266-271 | toggling a roll twice restores the absentee set |
| PeriodLedger.ToggleAbsent | app/admin/dashboard/page.js:263-275 | only periods with the given number change, and only in their absentee list; code slots are untouched |
| PeriodLedger.ToggleAbsentConsistent | app/admin/dashboard/page.js:263-273 | toggling preserves the page-state invariant |
| PeriodLedger.ToggleAbsentTwice | app/admin/dashboard/page.js:263-273 | toggling twice restores every period's absentee set and everything else |
| PeriodLedger.HandleCodeInput | app/admin/dashboard/page.js:278-283 | the slot of the given period holds the first min(4, #digits) typed digits, in order; the other slots are unchanged |
| PeriodLedger.HandleCodeInputConsistent | app/admin/dashboard/page.js:278-281 | typing into an existing period's slot preserves the invariant |
| PeriodLedger.LoadPeriod | app/admin/dashboard/page.js:132-138 | a loaded period keeps its number, subject name, subject id and absentee list, each defaulting to `''` or `[]` when missing, and is verified exactly when the stored flag is true |
| PeriodLedger.PrefillCodes | app/admin/dashboard/page.js:141-144 | there is one slot per stored period number, each holding the mask or an empty string |
| PeriodLedger.PrefillLastWins | app/admin/dashboard/page.js:142-144 | a slot holds the mask exactly when the last stored period with that number is verified |
| PeriodLedger.LoadAttendanceForDate | app/admin/dashboard/page.js:128-160 | a failed or empty reply clears the page; otherwise each stored period is loaded in order, and the slots are the prefill: one per period number, `****` for a verified period and `''` otherwise |
| PeriodLedger.LoadedNums | app/admin/dashboard/page.js:132-144 | the loaded periods' numbers are exactly the slot keys |
| PeriodLedger.LoadConsistent | app/admin/dashboard/page.js:131-145 | loading a day with unique numbers yields a consistent state where a verified period's slot is `****` and every other slot is `''` |
| SaveGate.TeacherForSubject | app/admin/dashboard/page.js:170-182 | for a non-empty id, the first subject with that id decides: no teacher when it has no `teacherId`, otherwise its teacher id with `teacherName` or the default "Assigned Teacher"; an empty or unknown id finds no teacher |
| SaveGate.TeacherBoundExact | app/admin/dashboard/page.js:172-176 | a period needs a teacher's PIN exactly when its subject id is non-empty and the first subject with that id has a `teacherId` |
| SaveGate.SentCode | app/admin/dashboard/page.js:324 | the mask is never sent and becomes the empty code; any other slot is sent as is |
| SaveGate.NeedsPinConsistent | app/admin/dashboard/page.js:301-308 | in a consistent state a period waits for a PIN exactly when it is unverified, bound to a teacher, and fewer than four digits have been typed |
| SaveGate.ToPayload | app/admin/dashboard/page.js:319-325 | a body entry copies the period's number, subject and absentees; its code is omitted exactly when the slot is missing, is never the mask, and is the slot otherwise |
| SaveGate.SaveAttendance | app/admin/dashboard/page.js:286-325 | each outcome (ignored, empty roster, no subject, pending PIN, post) holds exactly under its condition, in the source's order; a post carries one payload per period |
| SaveGate.PendingNamesExact | app/admin/dashboard/page.js:301-311 | the refusal names the subject of every period still needing a PIN, and only those |
| SaveGate.PostNeverSendsMask | app/admin/dashboard/page.js:319-325 | no posted period carries the mask as its code |
| SaveGate.PostCarriesFourDigitPins | app/admin/dashboard/page.js:301-325 | from a consistent state, every teacher-bound unverified period is posted with a four-digit PIN |
| SaveGate.EmptyPinBlocksSave | app/admin/dashboard/page.js:301-317 | for any signed-in class with a non-empty roster on an unlocked date, a teacher-bound unverified period with an empty slot makes the save refuse with a PIN request that names its subject |
| SaveGate.ReportSave | app/admin/dashboard/page.js:334-349 | a failed request reports failure; a save is fully verified exactly when no saved period is teacher-bound and unverified; otherwise the warning lists those subjects |
| SaveGate.WrongPinNamesExact | app/admin/dashboard/page.js:335-342 | the warning names exactly the teacher-bound unverified saved periods |
| TeacherAssign.HandleAssign | app/admin/teachers/page.js:50-70 | a missing field is refused first, then a PIN whose length is not four; otherwise the request carries the three fields |
| TeacherAssign.PinInput | app/admin/teachers/page.js:256 | the field keeps the first min(4, #digits) typed digits, in order |
| TeacherAssign.FilteredPinReachesRequest | app/admin/teachers/page.js:53-70 | with the filtered field, the request goes out exactly when both picks are made and at least four digits were typed, carrying the first four |
| TeacherAssign.UnassignedSubjects | app/admin/teachers/page.js:116 | the list holds exactly the subjects without a teacher |
| TeacherAssign.UnassignedKeepsOrder | app/admin/teachers/page.js:116 | the unassigned list keeps the subjects' order |
| TeacherAssign.UnassignedAndAssignedPartition | app/admin/teachers/page.js:116 | unassigned and assigned subjects together account for every subject |
| TeacherAssign.GetTeacherName | app/admin/teachers/page.js:110-113 | the name of the first teacher with the id, or "Unknown" when there is none or that name is empty |
| Registration.HandleRegister | app/teacher/register/page.js:19-36 | a mismatch is refused first, then a password under six UTF-16 units; otherwise the request carries the fields |
| Registration.MismatchTakesPrecedence | app/teacher/register/page.js:23-31 | a short mismatching pair is reported as a mismatch |
| Registration.SixCharactersSuffice | app/teacher/register/page.js:28-31 | any matching password of six or more characters passes |
| Base64.ValueOf | app/components/NotificationSetup.js:9 | the digit value of an alphabet character maps back to that character |
| Base64.DropPadding | app/components/NotificationSetup.js:9 | with a length that is a multiple of four, one or two trailing `=` are removed; otherwise the data is untouched |
| Base64.Decode | app/components/NotificationSetup.js:9 | `atob` fails exactly when the unpadded data has length 1 mod 4 or a character outside the alphabet; otherwise it yields 3 bytes per 4 digits |
| Base64.DecodedLength | app/components/NotificationSetup.js:9 | three bytes come from every four digits, and one fewer byte than digits from a final short group |
| Base64.GroupRoundTrip | app/components/NotificationSetup.js:9 | three bytes survive the trip through four digits |
| Base64.DecodeEncode | app/components/NotificationSetup.js:9 | decoding the digits of an encoding gives back the bytes |
| Base64.EncodeUrl | app/components/NotificationSetup.js:6-8 | an unpadded URL-safe key has no `=` and never a length of 1 mod 4 |
| PushKey.PaddingLength | app/components/NotificationSetup.js:7 | the padding is under four and brings the length to a multiple of four |
| PushKey.ToStandardAlphabet | app/components/NotificationSetup.js:8 | `-` becomes `+`, `_` becomes `/`, other characters and the UTF-16 length are kept |
| PushKey.NoUrlDigitsRemain | app/components/NotificationSetup.js:8 | no `-` or `_` survives the rewrite |
| PushKey.PadAndTranslate | app/components/NotificationSetup.js:7-8 | the string given to `atob` is the rewritten key followed by `=` padding; its UTF-16 length grows by exactly `PaddingLength`, which brings it to a multiple of four |
| PushKey.Atob | app/components/NotificationSetup.js:9 | `atob` fails exactly when decoding fails; otherwise one character per byte, its code being the byte |
| PushKey.ToUint8Array | app/components/NotificationSetup.js:10-13 | each array element is its character's code modulo 256 |
| PushKey.UrlBase64ToUint8Array | app/components/NotificationSetup.js:6-15 | the result is exactly the decoding of the padded, rewritten key; the copy through character codes loses nothing |
| PushKey.DecodePadded | app/components/NotificationSetup.js:9 | a padded standard encoding decodes to its digits' bytes |
| PushKey.UrlKeyRoundTrip | app/components/NotificationSetup.js:6-15 | any key produced by URL-safe unpadded encoding converts back to its bytes |

## Left out

- Rendering, React state hooks, routing, toasts and `localStorage` are not modelled. Notifications appear as result values, and page state is passed explicitly.
- Network requests are not modelled. The load reply, the save reply and the class and subject lists are inputs. The request bodies are outputs.
- Whether a PIN matches the teacher's secret is decided on the server. That comparison, and the per-student and per-subject statistics, are server work and are not part of this model.
- `classId`, `isDateLocked` and `classRollNumbers` in `saveAttendance` are inputs. `isDateLocked` and `classRollNumbers` are declared nowhere in the page, so as written `saveAttendance` throws a `ReferenceError` once a class is signed in. The model takes both as inputs instead.
- Roster.NaturalLe: `localeCompare` with `numeric: true, sensitivity: 'base'` depends on the locale. It is approximated by comparing digit runs by value and other characters by their ASCII-lowercased code, with digits first. Accent and full Unicode case folding are not modelled.
- Text.Lower: `toLowerCase` is modelled for ASCII letters only.
- `String(value)` of a non-string roll (a number or an object) is taken as given text. The number-to-text conversion is not modelled.
- Roster.PositiveCount: `Number(classData.totalStudents)` is taken as a given JavaScript number. String-to-number parsing is not modelled.
- Sorting.SortBy: the sort is stable, but stability is not stated as a property. Only the order and the permutation are proved.
- PeriodLedger.ResolveSubject: a subject without a `name` makes `s.name.toLowerCase()` throw a `TypeError` in the name match, so `addPeriod` stops and adds nothing. The model reads a missing name as the empty string and does not model that exception.
- PeriodLedger.LoadPeriod: `isVerified: p.isVerified || false` is modelled for boolean flags only. Other truthy values are not modelled.
- The selected date, the `updatedAt` timestamp, the calendar and the `AUTO_RELOCK_MS` constant are not modelled. The constant is declared but never used.
- The effects after a save (refreshing the date list, reloading the day, clearing `hasChanges`) and the reset of the assign form are not modelled.
- The navigation bar, the custom select, the settings page and the Next.js configuration are outside this model.

