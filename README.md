# Event and booking documents of the DevEvent demo app

This project models the two Mongoose schemas at the core of the DevEvent demo app.
It writes them as Dafny functions, classes and lemmas:

- **Events** (`demo-app/database/event.model.ts`):
  - the `trim` setters;
  - the path validators: `required`, the three `maxlength` caps 100/1000/500, the `mode` enum and the non-empty `agenda`/`tags` validators;
  - the pre-save hook, which derives the slug with `generateSlug` and canonicalises the date and the time with `normalizeDate` and `normalizeTime`;
  - the order in which a save runs these steps. A save first validates, then runs the hook, then writes.
- **Bookings** (`demo-app/database/booking.model.ts`):
  - the email setter, trim and then lowercase;
  - the email validator, as a grammar over the local part, one `@` and dot-separated labels;
  - the pre-save hook, which looks the referenced event up when the booking is new or its `eventId` changed;
  - the unique `(eventId, email)` index.

  Together these make a booking store: a set of existing event ids plus a map of booking records.

Files and modules:

| file | module | contents |
|---|---|---|
| `wrappers.dfy` | `Wrappers` | `Option`, `Result`, `Outcome` |
| `js_string.dfy` | `JsString` | `String.prototype.trim` (ECMAScript whitespace), ASCII `toLowerCase`, UTF-16 length |
| `slugify.dfy` | `Slugify` | `generateSlug`, one function per `replace` |
| `time_format.dfy` | `TimeFormat` | `normalizeTime`: the regex match, the 12/24-hour conversion, the range check, the printing |
| `event_model.dfy` | `EventModel` | event paths, setters, validators, the hook, `save`, and the document class `EventDocument` |
| `email.dfy` | `EmailAddress` | the email regex as a predicate, how it splits into parts, and the parts joined back |
| `booking_model.dfy` | `BookingModel` | insert and update outcomes, the store invariant, and the class `BookingStore` |

Modelling choices:

- **Strings.** Strings are `seq<char>`, whose characters are Unicode scalar values. `Utf16Length` gives the JavaScript `.length`, which the `maxlength` caps measure: a character above U+FFFF counts twice. Lowercasing is ASCII only, so every operation that lowercases requires `IsAscii` of its input. `\s` and `trim` use the full ECMAScript whitespace set of 25 code points.
- **`normalizeDate`.** It is a parameter `parseDate: string -> Option<string>`. `None` stands for the "Invalid date format" throw.
- **`isModified` on events.** It is the set `modified` of paths whose value changed. A new document has every input path in it. A successful save clears it and clears `isNew`. A failed save keeps the hook's in-memory assignments, exactly as the JavaScript object would.
- **Booking ids.** New booking documents get fresh ids from a counter. This stands for ObjectId generation.

## Model

| member | source | states |
|---|---|---|
| JsString.Trim | demo-app/database/event.model.ts:27 | the stored value of a `trim: true` path starts and ends with a non-whitespace character (or is empty) and is no longer than the input |
| JsString.TrimShape | demo-app/database/event.model.ts:27 | trim removes exactly a maximal leading and a maximal trailing whitespace run and keeps the middle slice unchanged |
| JsString.TrimStartShape | demo-app/database/event.model.ts:131 | the trimmed start is a suffix of the input, what was dropped is whitespace, and the result does not start with whitespace |
| JsString.TrimEndShape | demo-app/database/event.model.ts:131 | the trimmed end is a prefix of the input, what was dropped is whitespace, and the result does not end with whitespace |
| JsString.TrimPadded | demo-app/database/event.model.ts:27 | trimming whitespace + t + whitespace gives back t when t is already trimmed |
| JsString.TrimAbsorbsPadding | demo-app/database/event.model.ts:27 | extra whitespace around any value does not change what trim stores |
| JsString.TrimOfTrimmed | demo-app/database/event.model.ts:27 | trim leaves a trimmed value unchanged (the setter is idempotent) |
| JsString.TrimKeepsCharacters | demo-app/database/event.model.ts:131 | every character of the trimmed value occurs in the input |
| JsString.TrimKeepsAscii | demo-app/database/event.model.ts:131 | trimming ASCII text gives ASCII text |
| JsString.ToLowerAscii | demo-app/database/event.model.ts:130 | lowercasing keeps the length and maps each character through the ASCII letter mapping |
| JsString.LowerKeepsWhitespace | demo-app/database/booking.model.ts:21-22 | a character is whitespace after lowercasing exactly when it was before |
| JsString.LowerConcat | demo-app/database/event.model.ts:130 | lowercasing distributes over concatenation |
| JsString.TrimLowerCommutes | demo-app/database/booking.model.ts:21-22 | trimming then lowercasing equals lowercasing then trimming, so the order of the two setters does not matter |
| JsString.TrimLowerIdempotent | demo-app/database/booking.model.ts:21-22 | the stored email is trimmed, has no upper-case letter, and assigning it again stores it unchanged |
| JsString.LowerHasNoUpper | demo-app/database/booking.model.ts:22 | a lowercased string has no upper-case letter |
| JsString.LowerOfLower | demo-app/database/booking.model.ts:22 | lowercasing a string without upper-case letters changes nothing |
| JsString.TrimLower | demo-app/database/booking.model.ts:21-22 | the value a `trim: true, lowercase: true` path stores; TrimLowerCommutes and TrimLowerIdempotent state that the order of the two setters is irrelevant and that the stored value is their fixed point |
| JsString.Utf16Length | demo-app/database/event.model.ts:28 | the length `maxlength` measures lies between the code point count and twice it, and equals it for ASCII |
| JsString.WhitespaceConcat | demo-app/database/event.model.ts:133 | two whitespace runs concatenate to a whitespace run |
| Slugify.RemoveSpecial | demo-app/database/event.model.ts:132 | removing special characters never lengthens the text |
| Slugify.RemoveSpecialShape | demo-app/database/event.model.ts:132 | after the first replace only a-z, 0-9, whitespace and `-` remain, and text made only of those is left unchanged |
| Slugify.RemoveSpecialConcat | demo-app/database/event.model.ts:132 | the filter works character by character: the text on either side of a removed character, whitespace and `-` included, is kept as it is |
| Slugify.RemoveSpecialDropsAll | demo-app/database/event.model.ts:132 | text made only of characters outside `[a-z0-9\s-]` is removed entirely |
| Slugify.ReplaceRuns | demo-app/database/event.model.ts:133-134 | collapsing runs never lengthens the text, and the first character becomes `-` exactly when it belonged to the run class |
| Slugify.ReplaceRunsShape | demo-app/database/event.model.ts:133-134 | after `\s+`→`-` no whitespace is left; after `-+`→`-` no two hyphens are adjacent; allowed characters stay allowed; text without runs is unchanged |
| Slugify.ReplaceLeadingRun | demo-app/database/event.model.ts:133-134 | a run of class characters at the front, followed by a character outside the class, becomes a single `-` |
| Slugify.ReplaceRunsConcat | demo-app/database/event.model.ts:133-134 | each maximal run becomes exactly one `-`: the text on either side of a run is rewritten on its own and the run between them is one hyphen |
| Slugify.ConcatAfterLast | demo-app/database/event.model.ts:133-134 | a character outside the class in front of a run is kept and the run after it still becomes one `-` |
| Slugify.ConcatAfterHead | demo-app/database/event.model.ts:133-134 | the first character of a text is rewritten the same way whatever follows its second character |
| Slugify.HeadBeforeConcat | demo-app/database/event.model.ts:133-134 | a head character is rewritten the same way in front of a text alone as in front of that text followed by more |
| Slugify.ConcatBeforeRun | demo-app/database/event.model.ts:133-134 | ReplaceRunsConcat with the run and the text after it grouped, by induction on the text before the run |
| Slugify.StripEdgeHyphens | demo-app/database/event.model.ts:135 | removing the edge hyphens never lengthens the text |
| Slugify.StripEdgeHyphensInterior | demo-app/database/event.model.ts:135 | exactly one leading and one trailing `-` are removed and the text between them is kept as it is, in each of the cases: both edges, only the first, only the last, a lone `-`, neither |
| Slugify.StripEdgeHyphensShape | demo-app/database/event.model.ts:135 | removing a leading and a trailing `-` keeps the slug characters and the no-double-hyphen property and leaves no hyphen at either end; text without edge hyphens is unchanged |
| Slugify.GenerateSlug | demo-app/database/event.model.ts:128-136 | every slug consists of a-z, 0-9 and `-` only, has no two adjacent hyphens and no hyphen at either end |
| Slugify.SlugStagesShape | demo-app/database/event.model.ts:132-135 | the last four replaces turn any text into a text of slug shape |
| Slugify.StagesFixSlug | demo-app/database/event.model.ts:129-135 | each of the six steps of generateSlug leaves a slug unchanged |
| Slugify.SlugFixesLowerTrim | demo-app/database/event.model.ts:130-131 | a slug is ASCII and unchanged by toLowerCase and trim |
| Slugify.SlugFixesRewrites | demo-app/database/event.model.ts:132-135 | a slug is unchanged by the four replaces |
| Slugify.SlugOfSlug | demo-app/database/event.model.ts:128-136 | generateSlug maps every slug to itself |
| Slugify.SlugIdempotent | demo-app/database/event.model.ts:128-136 | generating a slug from a slug gives the same slug |
| Slugify.SlugOfTwoWords | demo-app/database/event.model.ts:128-136 | two words of lowercase letters and digits separated by whitespace give the two words joined by one `-` |
| Slugify.TwoWordsTitle | demo-app/database/event.model.ts:130-132 | such a title is ASCII, has no upper-case letter, no special character and no edge whitespace |
| Slugify.WordsDashed | demo-app/database/event.model.ts:133 | the whitespace between two words becomes one `-` and the words are kept |
| Slugify.JoinedWordsAreSlug | demo-app/database/event.model.ts:134-135 | two words joined by one `-` are a slug |
| Slugify.SlugAcrossSpecials | demo-app/database/event.model.ts:128-136 | two words with any separator of ASCII whitespace and special characters between them, at least one whitespace, give the two words joined by one `-` |
| Slugify.RockAndRoll | demo-app/database/event.model.ts:128-136 | the title `rock & roll` gives the slug `rock-roll` |
| Slugify.RockAndRollParts | demo-app/database/event.model.ts:128-136 | `rock & roll` is the word `rock`, the separator ` & ` and the word `roll` |
| Slugify.SeparatorRemoved | demo-app/database/event.model.ts:132 | the filter turns a separator into ASCII whitespace, a non-empty run of it when the separator holds whitespace |
| Slugify.SameFilteredSameSlug | demo-app/database/event.model.ts:128-136 | titles that lowercase, trim and filter to the same text get the same slug |
| Slugify.SpecialsTitle | demo-app/database/event.model.ts:130-131 | a title of two words and a separator is ASCII, has no upper-case letter and no edge whitespace |
| Slugify.SpecialsRemoved | demo-app/database/event.model.ts:132 | the filter keeps both words and filters only the text between them |
| Slugify.PlainConcat | demo-app/database/event.model.ts:130 | ASCII text without upper-case letters, concatenated, stays so |
| Slugify.SlugKeepsLettersAndDigits | demo-app/database/event.model.ts:128-136 | the slug keeps exactly the letters and digits of the lowercased title, in order |
| Slugify.LowerAlnumsConcat | demo-app/database/event.model.ts:132 | the letters and digits of a concatenation are those of its parts |
| Slugify.LowerAlnumsOfSlice | demo-app/database/event.model.ts:131 | cutting off text without letters or digits keeps the letters and digits |
| Slugify.NoLowerAlnums | demo-app/database/event.model.ts:135 | text without letters or digits contributes none |
| Slugify.RemoveSpecialKeepsAlnums | demo-app/database/event.model.ts:132 | removing special characters keeps every lowercase letter and digit |
| Slugify.ReplaceRunsKeepsAlnums | demo-app/database/event.model.ts:133-134 | collapsing runs keeps every lowercase letter and digit |
| Slugify.TrimKeepsAlnums | demo-app/database/event.model.ts:131 | trim keeps every lowercase letter and digit |
| Slugify.StripEdgeHyphensKeepsAlnums | demo-app/database/event.model.ts:135 | removing edge hyphens keeps every lowercase letter and digit |
| TimeFormat.DigitChar | demo-app/database/event.model.ts:171 | the character printed for a digit is a digit of that value |
| TimeFormat.FieldValue | demo-app/database/event.model.ts:157 | parseInt of one or two digits is below 100 |
| TimeFormat.DecimalString | demo-app/database/event.model.ts:171 | `toString` of a number is a non-empty digit string |
| TimeFormat.PaddedHour | demo-app/database/event.model.ts:171 | `padStart(2, '0')` of a number below 100 gives two digits that read back as that number |
| TimeFormat.PadStart2 | demo-app/database/event.model.ts:171 | `padStart(2, '0')`, `00` for the empty text; PaddedHour states that for every hour below 100 it gives two digits that read back as the hour |
| TimeFormat.Clock | demo-app/database/event.model.ts:171 | the printed `HH:MM`; NormalizeMatch states that it is canonical with the converted hour and the matched minutes, and CanonicalIsFixedPoint that every canonical time prints back as itself |
| TimeFormat.To24Hour | demo-app/database/event.model.ts:161-165 | the 12/24-hour conversion; TwelveHourConversion states its four cases on whole inputs, and NormalizeMatch that the printed hour is its result |
| TimeFormat.ColonIndex | demo-app/database/event.model.ts:150 | the colon the match uses is a `:` of the text, or no colon was found |
| TimeFormat.ParsePeriod | demo-app/database/event.model.ts:150 | the optional group of whitespace and AM or PM, under `/i`; ParsePeriodSound and ParsePeriodOfTail state that it accepts exactly whitespace followed by AM or PM in any case |
| TimeFormat.MatchFrom | demo-app/database/event.model.ts:150 | the regex after the colon; MatchTimeSound, MatchTimeCompleteBare and MatchTimeCompletePeriod give its meaning through MatchTime |
| TimeFormat.MatchTime | demo-app/database/event.model.ts:150-151 | the regex match of the trimmed input; MatchTimeSound states that every match is in the regex language with the right groups, and MatchTimeCompleteBare and MatchTimeCompletePeriod that every text of the language matches |
| TimeFormat.MatchTimeFields | demo-app/database/event.model.ts:150 | a match has one or two hour digits and two minute digits |
| TimeFormat.ParsePeriodSound | demo-app/database/event.model.ts:150 | an accepted tail is whitespace followed by AM or PM in any case |
| TimeFormat.MatchTimeSound | demo-app/database/event.model.ts:150-151 | every accepted text is hour digits, `:`, minute digits and optionally whitespace and a period, and the groups are those parts |
| TimeFormat.ParsePeriodOfTail | demo-app/database/event.model.ts:150 | whitespace followed by AM/PM in any case is accepted as that period |
| TimeFormat.ColonAfterHour | demo-app/database/event.model.ts:150 | the match splits at the colon that follows the hour digits |
| TimeFormat.MatchTimeCompleteBare | demo-app/database/event.model.ts:150 | every `H:MM` / `HH:MM` text matches, with those groups and no period |
| TimeFormat.MatchTimeCompletePeriod | demo-app/database/event.model.ts:150 | every `H:MM`/`HH:MM` followed by whitespace and AM/PM matches, with those groups and that period |
| TimeFormat.GrammarIsTrimmed | demo-app/database/event.model.ts:150-151 | every text of the regex's language is trimmed, so trimming first loses nothing |
| TimeFormat.AcceptedInputMatchesGrammar | demo-app/database/event.model.ts:150-155 | an input normalizeTime accepts is the regex language padded with whitespace |
| TimeFormat.NormalizeMatch | demo-app/database/event.model.ts:157-171 | after a match the result is canonical HH:MM with the original minutes and the converted hour; it succeeds exactly when the converted hour is at most 23 and the minutes at most 59, and otherwise fails with "Invalid time values" |
| TimeFormat.NormalizeTime | demo-app/database/event.model.ts:148-172 | the result is canonical 24-hour HH:MM; "Invalid time format" is thrown exactly when the trimmed input does not match the regex |
| TimeFormat.NormalizeBare | demo-app/database/event.model.ts:151-171 | an `H:MM` input with any whitespace before and any whitespace after it is normalised as its match without period |
| TimeFormat.NormalizePeriod | demo-app/database/event.model.ts:151-171 | an `H:MM AM/PM` input with any whitespace before and any whitespace after it is normalised as its match with that period |
| TimeFormat.TwelveHourConversion | demo-app/database/event.model.ts:161-167 | PM adds 12 except to 12, `12 AM` is 00, other AM hours are kept; without a period the hour must be at most 23; leading and trailing whitespace, of any lengths, do not matter |
| TimeFormat.OutOfRangeFails | demo-app/database/event.model.ts:167-169 | an hour above 23 after conversion, or minutes above 59, throw "Invalid time values" |
| TimeFormat.FieldValueInjective | demo-app/database/event.model.ts:171 | two-digit fields with the same value are the same text |
| TimeFormat.CanonicalIsFixedPoint | demo-app/database/event.model.ts:148-172 | a canonical time is normalised to itself |
| TimeFormat.NormalizeTimeIdempotent | demo-app/database/event.model.ts:148-172 | normalising a normalised time changes nothing |
| EventModel.TrimSetter | demo-app/database/event.model.ts:27 | a `trim: true` path stores a trimmed value |
| EventModel.ApplySetters | demo-app/database/event.model.ts:24-103 | the seven `trim: true` paths hold trimmed text, date/time/mode/audience/agenda/tags are stored as given, the slug is not yet set |
| EventModel.Rejects | demo-app/database/event.model.ts:24-103 | the per-path validators; Violations states that the error lists exactly the paths it rejects, and ValidationMeansSchema that none is rejected exactly when every schema rule holds |
| EventModel.Violations | demo-app/database/event.model.ts:24-103 | the validation error lists exactly the paths whose validators reject their value |
| EventModel.ValidationMeansSchema | demo-app/database/event.model.ts:24-103 | validation passes exactly when every value is present, mode is Online/Offline/Hybrid, agenda and tags are non-empty and title/description/overview fit 100/1000/500 |
| EventModel.CapsApplyAfterTrim | demo-app/database/event.model.ts:27-28 | whitespace around title, description or overview does not count toward their caps, since the setter trims before validation |
| EventModel.PaddingIsTrimmed | demo-app/database/event.model.ts:27 | a `trim` path stores the same value however much whitespace surrounds the input |
| EventModel.SlugSetterKeepsSlug | demo-app/database/event.model.ts:30-35 | the slug path's own trim and lowercase setters leave a generated slug unchanged |
| EventModel.SlugStep | demo-app/database/event.model.ts:113-115 | the slug is regenerated from the title when the document is new or the title changed, and nothing else changes |
| EventModel.DateStep | demo-app/database/event.model.ts:117-119 | a changed date is replaced by normalizeDate's result or the save fails with its error; an unchanged date is left alone |
| EventModel.TimeStep | demo-app/database/event.model.ts:121-123 | a changed time is replaced by its canonical form or the save fails with normalizeTime's error; nothing else changes |
| EventModel.AfterHook | demo-app/database/event.model.ts:110-126 | the hook only writes slug, date and time, and on success leaves the hook's result in memory |
| EventModel.HookOutcome | demo-app/database/event.model.ts:110-126 | the hook's slug, date and time steps in order, the first error stopping it; SaveRecomputesChangedPaths, SaveFailures and HookKeepsInvariant state what it rewrites, when it fails and what it keeps |
| EventModel.SaveOutcome | demo-app/database/event.model.ts:22-126 | validation, then the hook; SaveFailures states its error order and when it succeeds, SavedFollowsSchema and SaveKeepsInvariant what a saved event satisfies |
| EventModel.ValidatedSaveIsHook | demo-app/database/event.model.ts:110-126 | once validation passes, saving is the hook, and a passing hook leaves a document that satisfies the invariant |
| EventModel.SavedFollowsSchema | demo-app/database/event.model.ts:22-126 | a saved event satisfies every schema rule, apart from the date, which normalizeDate replaced after validation |
| EventModel.SaveRecomputesChangedPaths | demo-app/database/event.model.ts:110-126 | on success the slug is regenerated exactly when the document is new or the title changed, the date and the time are rewritten exactly when they changed, and no other path changes |
| EventModel.SaveFailures | demo-app/database/event.model.ts:22-126 | a save fails first with the validation error, then with normalizeDate's, then with normalizeTime's, and succeeds exactly when none applies |
| EventModel.ResaveChangesNothing | demo-app/database/event.model.ts:110-126 | saving a just-written event again with nothing changed writes the same values |
| EventModel.AssignmentKeepsInvariant | demo-app/database/event.model.ts:24-29 | assigning title, date or time keeps the document invariant when the change is recorded in `modified` |
| EventModel.SaveKeepsInvariant | demo-app/database/event.model.ts:110-126 | after a successful save the event's slug is generated from its title and its time is canonical |
| EventModel.HookKeepsInvariant | demo-app/database/event.model.ts:110-126 | the hook's in-memory assignments keep the document invariant even when it fails |
| EventModel.EventDocument.constructor | demo-app/database/event.model.ts:22-108 | a new document holds the setter-applied input, is new, and has every input path modified |
| EventModel.EventDocument.SetTitle | demo-app/database/event.model.ts:24-29 | assigning the title stores its trimmed value and marks it modified exactly when it changed |
| EventModel.EventDocument.SetDate | demo-app/database/event.model.ts:63-66 | assigning the date stores it and marks it modified exactly when it changed |
| EventModel.EventDocument.SetTime | demo-app/database/event.model.ts:67-70 | assigning the time stores it and marks it modified exactly when it changed |
| EventModel.EventDocument.DeriveSlug | demo-app/database/event.model.ts:113-115 | the first step of the hook, on the document |
| EventModel.EventDocument.NormalizeDate | demo-app/database/event.model.ts:117-119 | the second step of the hook, on the document, failing with normalizeDate's error |
| EventModel.EventDocument.NormalizeTimePath | demo-app/database/event.model.ts:121-123 | the third step of the hook, on the document, failing with normalizeTime's error |
| EventModel.EventDocument.PreSave | demo-app/database/event.model.ts:110-126 | running the hook leaves the document as the hook model says and reports its error, keeping the invariant |
| EventModel.EventDocument.Save | demo-app/database/event.model.ts:110-126 | save validates, runs the hook and writes; on success the document is no longer new and nothing is modified, on a validation error nothing changes |
| EmailAddress.IndexOf | demo-app/database/booking.model.ts:25 | the position of the first occurrence of a character, or the length when there is none |
| EmailAddress.IsValidEmail | demo-app/database/booking.model.ts:24-27 | `emailRegex.test`; ValidEmailShape and EmailFromParts state that the valid addresses are exactly a local part, one `@` and dot-joined labels, DomainIsLabels what a label is, and ExactlyOneAt that there is one `@` |
| EmailAddress.Labels | demo-app/database/booking.model.ts:25 | a domain has at least one label |
| EmailAddress.JoinOfLabels | demo-app/database/booking.model.ts:25 | the labels of a domain joined by dots give the domain back |
| EmailAddress.DomainIsLabels | demo-app/database/booking.model.ts:25 | a domain matches `LABEL(\.LABEL)*` exactly when every piece between its dots is a 1..63-character label of alphanumerics and `-` that starts and ends alphanumeric |
| EmailAddress.LabelsOfJoin | demo-app/database/booking.model.ts:25 | splitting dot-joined labels at the dots gives the labels back |
| EmailAddress.LabelHasNoDot | demo-app/database/booking.model.ts:25 | a label contains no `.` |
| EmailAddress.FirstAfter | demo-app/database/booking.model.ts:25 | in a text whose first part lacks a separator, the first separator sits right after that part |
| EmailAddress.SplitAtFirstAt | demo-app/database/booking.model.ts:25 | a local part followed by `@` splits at that `@` |
| EmailAddress.NoneBefore | demo-app/database/booking.model.ts:25 | the first occurrence is where the text first has that character |
| EmailAddress.ValidEmailShape | demo-app/database/booking.model.ts:25 | every valid address is a non-empty local part of allowed characters, one `@`, and dot-joined valid labels |
| EmailAddress.EmailFromParts | demo-app/database/booking.model.ts:25 | every such local part, `@` and dot-joined labels form a valid address that splits back into the same parts |
| EmailAddress.CountConcat | demo-app/database/booking.model.ts:25 | counting distributes over concatenation |
| EmailAddress.CountAbsent | demo-app/database/booking.model.ts:25 | a text without the character counts zero |
| EmailAddress.ExactlyOneAt | demo-app/database/booking.model.ts:25 | a valid address holds exactly one `@` |
| EmailAddress.DomainCharacter | demo-app/database/booking.model.ts:25 | a valid domain consists of alphanumerics, `-` and `.` only |
| BookingModel.SetEmail | demo-app/database/booking.model.ts:21-22 | the stored email is trimmed and has no upper-case letter |
| BookingModel.Violations | demo-app/database/booking.model.ts:13-30 | validation lists eventId exactly when it is missing and email exactly when it is not a valid address, and passes exactly when neither applies |
| BookingModel.PairTaken | demo-app/database/booking.model.ts:65 | the unique index's refusal: another booking holds the pair; SaveOutcome states that a save succeeds only when it does not hold, and InsertSucceedsIff and UpdateSucceedsIff that it then succeeds |
| BookingModel.UniquePairs | demo-app/database/booking.model.ts:65 | the unique index as a store property; NewPairKeepsUnique, InsertKeepsInvariant and UpdateKeepsInvariant state that every successful write keeps it |
| BookingModel.SaveOutcome | demo-app/database/booking.model.ts:37-65 | a saved booking holds the setter-applied email, passes the validator, names an existing event when the lookup runs, and holds a pair no other booking holds; the save succeeds exactly when eventId is given, the email is valid, the looked-up event exists and the pair is free |
| BookingModel.InsertOutcome | demo-app/database/booking.model.ts:37-65 | a new booking is stored only with a valid email, an existing event and a free pair |
| BookingModel.UpdateOutcome | demo-app/database/booking.model.ts:37-65 | a re-saved booking is stored only with a valid email, an event that exists or is unchanged, and a pair no other booking holds; UpdateSucceedsIff gives the converse |
| BookingModel.InsertSucceedsIff | demo-app/database/booking.model.ts:13-65 | an insert succeeds exactly when eventId is given, the email is valid after the setter, the event exists and the pair is free |
| BookingModel.InsertFailures | demo-app/database/booking.model.ts:13-57 | an invalid email or a missing eventId fails validation, a missing event fails with the hook's error, a taken pair fails at the index; all but the last are named ValidationError |
| BookingModel.UpdateSucceedsIff | demo-app/database/booking.model.ts:13-65 | an update succeeds exactly when eventId is given, the email is valid after the setter, a changed eventId names an existing event, and no other booking holds the pair |
| BookingModel.UpdateFailures | demo-app/database/booking.model.ts:13-57 | an invalid email or a missing eventId fails validation; a changed eventId naming no event fails with a ValidationError whatever the email, and with the hook's error when the email is valid; a taken pair fails at the index; all but the last are named ValidationError |
| BookingModel.UnchangedEventSkipsLookup | demo-app/database/booking.model.ts:40 | re-saving a booking with its eventId unchanged gives the same outcome whatever events exist, and never fails with EventNotFound |
| BookingModel.ChangedEventIsLookedUp | demo-app/database/booking.model.ts:40-48 | moving a booking to an event that does not exist fails with EventNotFound |
| BookingModel.ResaveDoesNotCollide | demo-app/database/booking.model.ts:65 | re-saving a stored booking with its own values succeeds and stores it unchanged |
| BookingModel.InsertKeepsInvariant | demo-app/database/booking.model.ts:37-65 | a successful insert keeps pairs unique, events referenced and emails valid |
| BookingModel.UpdateKeepsInvariant | demo-app/database/booking.model.ts:37-65 | a successful update keeps pairs unique, events referenced and emails valid |
| BookingModel.WriteKeepsInvariant | demo-app/database/booking.model.ts:65 | writing a storable booking with an existing event and a free pair keeps the invariant |
| BookingModel.StorableKept | demo-app/database/booking.model.ts:23-29 | writing a valid email keeps every stored email valid |
| BookingModel.ReferencedKept | demo-app/database/booking.model.ts:40-48 | writing a booking of an existing event keeps every booking referenced |
| BookingModel.NewPairKeepsUnique | demo-app/database/booking.model.ts:65 | writing a pair no other booking holds keeps pairs unique |
| BookingModel.AddEventKeepsInvariant | demo-app/app/api/events/route.ts:41 | creating an event keeps the booking store invariant |
| BookingModel.KeptEventExists | demo-app/database/booking.model.ts:40 | an update whose eventId is unchanged still names an existing event |
| BookingModel.FreshKeyAddsOne | demo-app/database/booking.model.ts:4-9 | a fresh id is not yet used, and adding it grows the collection by one |
| BookingModel.FreshWriteKeepsValid | demo-app/database/booking.model.ts:37-65 | writing a new booking under a key above every used key keeps the invariant and adds exactly one record |
| BookingModel.BookingStore.constructor | demo-app/database/booking.model.ts:67-69 | the collection starts empty and valid |
| BookingModel.BookingStore.AddEvent | demo-app/app/api/events/route.ts:41 | creating an event adds its id and leaves the bookings alone |
| BookingModel.BookingStore.Insert | demo-app/database/booking.model.ts:37-65 | a failed insert changes nothing and reports the model's error; a successful one adds exactly one record under a fresh id |
| BookingModel.BookingStore.Update | demo-app/database/booking.model.ts:37-65 | a failed update changes nothing; a successful one replaces exactly that record |

## Left out

- `normalizeDate` (demo-app/database/event.model.ts:138-146) depends on the JavaScript `Date` parser and `toISOString`. It is the parameter `parseDate`, so nothing is stated about which dates it accepts or what it returns.
- EventModel.SavedFollowsSchema: states the schema rules of the saved event with the date as validated, not as `parseDate` rewrote it. Validation runs before the hook, so nothing is known about the rewritten date.
- EventModel.ResaveChangesNothing: assumes `parseDate` never returns the empty string for a changed date. Otherwise the second save would fail `required`.
- The slug assignment inside the hook is not recorded in `modified`. Nothing in the core reads `isModified("slug")`.
- Strings are ASCII wherever `toLowerCase` runs. JavaScript's Unicode case mapping, such as the Kelvin sign becoming `k`, is not modelled. `GenerateSlug`, `SetEmail` and the members that call them require `IsAscii`.
- A missing value is modelled as the empty string or the empty list. Mongoose's casting of non-string values, and of the multipart strings the route passes for `agenda`/`tags`, is not modelled.
- The `timestamps` option (`createdAt`, `updatedAt`), the non-unique indexes (event.model.ts:176, booking.model.ts:59-63) and the `models.X || model(...)` registration are left out. None of them changes which documents are accepted.
- The unique index on the event slug (event.model.ts:32) is left out. The model does not track other events' slugs.
- In the booking hook, the `catch` branch (booking.model.ts:49-53) is left out: invalid ObjectId casts and database errors. Event ids are natural numbers and the lookup cannot fail.
- The asynchronous `next()` protocol, concurrent saves, and the database connection (demo-app/lib/db.ts) are left out.
- The HTTP routes, the multipart parsing, the Cloudinary upload and the UI under demo-app/app and demo-app/components are left out. `BookingStore.AddEvent` stands for the event creation at route.ts:41. No booking route exists in the repository.
- Deleting events is not modelled. Nothing in the core deletes an event, and the invariant that every booking names an existing event relies on that.
- Lone UTF-16 surrogates cannot be represented, since a Dafny `char` is a Unicode scalar value. Strings holding them are not modelled.
- Two behaviours of `normalizeTime` are modelled as written. `13:00 AM` is accepted as `13:00`. `0:30 PM` becomes `12:30`. The AM/PM branch does not check that the hour lies between 1 and 12.
