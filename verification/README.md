# Vehicle booking core in Dafny

A model of the logic at the centre of a vehicle-booking Android app. It covers:

- **Booking lifecycle.** Five statuses (Pending, Confirmed, In Progress, Completed, Cancelled) and a fixed table of legal next statuses. Each booking keeps an append-only history of status changes.
- **Booking store.** Save with de-duplication by id. Update by id or timestamp. Lists by status, counters, and the id generator.
- **Customer modification.** What pressing "save" on the modify-booking screen does.
- **Listing and analytics.** Filtering, the four sort orders, search suggestions, per-status counts, booking statistics, and route popularity.
- **Search-lead store.** Records kept by (phone, timestamp). Interest, status and notes updates, and the lead analytics.
- **Input rules.** The input validator (sanitising, phone, password, username, booking id) and the password strength meter.
- **Account lockout.** The security logger's failure counters and its 15-minute window.
- **User registry.** Registration, login, logout, profile update, and listing by role.
- **Database rows.** The row types of bookings, search records and users, and their conversions in both directions.

## How it is modelled

Everything is functional. Each persisted list is a `seq`, and each mutating operation is a pure function from the old store to the new one.

Values the application can hold as null are `Option`s:

- a booking's status, id, phone and vehicle type;
- a lead's vehicle interest;
- a driver's licence and vehicle;
- the current user.

Parameters stand in for inputs the code reads from outside:

- The clock (`System.currentTimeMillis`, `LocalDateTime.now`) becomes `now`, `later` or `stamp`.
- Random draws (`Math.random`) become numbers of known range.

Character classes are ASCII:

- Upper case, lower case, digits and letters.
- Java `trim` removes characters up to `' '`.
- Kotlin `trim` removes `isWhitespace` characters.
- The regex class `\s` is `[ \t\n\x0B\f\r]`.

`Collections.sort` is a stable merge sort; it is modelled by a stable insertion sort. The model is proved to return a permutation that is ordered by the comparator and keeps tied elements in input order. For a total preorder every stable sort returns that same list.

### Modules

- `Wrappers`, `Text`, `Seqs` and `Sorting` are shared helpers:
  - option values;
  - trimming, case mapping, `contains` and `compareTo`;
  - order-preserving filters and counts;
  - stable sorting.
- `BookingStatus` holds the status table.
- `Booking` holds the booking record.
- `BookingStore` and `ModifyBooking` hold the booking store and the modify screen.
- `BookingFilter` and `BookingAnalytics` hold the list tools.
- `SearchStore` holds the lead store.
- `InputValidator`, `PasswordStrength` and `SecurityLogger` hold the input rules and the lockout.
- `Users` holds the user registry.
- `Entities` holds the database rows.

### Where the code is followed over its documentation

- **Route key in analytics.** The route label in `BookingAnalytics` is built with the byte sequence `" ‚Üí "` as written in the source (a mis-decoded arrow). `BookingFilter` uses `" → "`. The model keeps both, so an analytics route never equals a filter route label.
- **Modifying a confirmed booking.** `saveModifications` promises in three places that a modified Confirmed booking goes back to Pending: its comment before the status step, the reason text it passes to `changeStatus`, and the message it shows the user. The code does not do this (see Findings). `createModifiedCopy` keeps the status and history, as its own comment says, and the model does the same.

## Model

| member | source | states |
|---|---|---|
| BookingStatus.NextPossibleStatuses | app/src/main/java/com/vehiclebooking/BookingStatus.java:50-63 | Completed and Cancelled have no successors; any other status may go to its next lifecycle stage or to Cancelled |
| BookingStatus.CanTransitionTo | app/src/main/java/com/vehiclebooking/BookingStatus.java:69-77 | a transition is legal exactly when the source is not terminal and the target is its next stage or Cancelled; every legal step moves to a later stage |
| BookingStatus.SuccessorCounts | app/src/main/java/com/vehiclebooking/BookingStatus.java:50-63 | the successor list is empty exactly for the terminal statuses and has two entries otherwise |
| BookingStatus.NoSelfTransition | app/src/main/java/com/vehiclebooking/BookingStatus.java:50-77 | no status may transition to itself |
| BookingStatus.NeverBackToPending | app/src/main/java/com/vehiclebooking/BookingStatus.java:52-57 | no status may transition to Pending |
| BookingStatus.CancelFromNonTerminal | app/src/main/java/com/vehiclebooking/BookingStatus.java:52-57 | Cancelled is reachable in one step exactly from the non-terminal statuses |
| BookingStatus.LegalChainsAreShort | app/src/main/java/com/vehiclebooking/BookingStatus.java:50-63 | every chain of legal transitions has at most three steps, so the lifecycle terminates |
| BookingStatus.SuccessMessage | app/src/main/java/com/vehiclebooking/BookingStatus.java:87-97 | no success message reads as a rejection |
| BookingStatus.TransitionMessage | app/src/main/java/com/vehiclebooking/BookingStatus.java:82-99 | the message starts with "Cannot change status from " exactly when the transition is illegal, and then names both statuses |
| BookingStatus.SelfMessageIsRejection | app/src/main/java/com/vehiclebooking/BookingStatus.java:82-85 | asking for the message from a status to itself always gives the rejection text |
| Booking.NewBooking | app/src/main/java/com/vehiclebooking/BookingRequest.java:48-56 | a new booking is Pending with exactly one history entry, "Booking request submitted", and satisfies the record invariant |
| Booking.Restore | app/src/main/java/com/vehiclebooking/BookingRequest.java:59-67 | the restoring constructor keeps timestamp and status (even null) and reads a null history as empty |
| Booking.ChangeStatus | app/src/main/java/com/vehiclebooking/BookingRequest.java:124-136 | succeeds exactly when the effective status (null as Pending) may go to the target; success sets the status and appends one entry; refusal only normalises a null status |
| Booking.ChangeStatusKeepsHistory | app/src/main/java/com/vehiclebooking/BookingRequest.java:124-136 | a status change keeps "last entry equals status" and never removes or rewrites an earlier entry |
| Booking.ChangeStatusKeepsLegalPath | app/src/main/java/com/vehiclebooking/BookingRequest.java:124-136 | a history that starts at Pending and walks the table still does so after any status change |
| Booking.ApplyChangesOnlyAppends | app/src/main/java/com/vehiclebooking/BookingRequest.java:124-136 | after any sequence of requested changes the history has only grown and stays a legal walk |
| Booking.LegalHistoryIsShort | app/src/main/java/com/vehiclebooking/BookingRequest.java:124-136 | a legally walked history holds at most four entries |
| Booking.LatestStatusChange | app/src/main/java/com/vehiclebooking/BookingRequest.java:141-146 | the latest change is the last history entry, and absent exactly for an empty history |
| Booking.LatestMatchesStatus | app/src/main/java/com/vehiclebooking/BookingRequest.java:141-146 | on a consistent record the latest entry names the current status |
| Booking.CreateModifiedCopy | app/src/main/java/com/vehiclebooking/BookingRequest.java:74-90 | the copy takes the new route and date and a fresh timestamp; it keeps id, phone and vehicle type; it keeps status and history when the status is set, otherwise it starts a fresh Pending history |
| Booking.StatusDisplayText | app/src/main/java/com/vehiclebooking/BookingRequest.java:151-156 | the text is icon and name of the effective status; a null status becomes Pending and every other field is kept; a set status is left alone |
| BookingStore.SaveBooking | app/src/main/java/com/vehiclebooking/BookingStorage.java:34-56 | a booking whose id is already stored leaves the store unchanged; any other booking is appended |
| BookingStore.SaveBookingKeepsIdsUnique | app/src/main/java/com/vehiclebooking/BookingStorage.java:41-53 | saving never creates a second booking with an existing id |
| BookingStore.SaveWithoutIdAlwaysAppends | app/src/main/java/com/vehiclebooking/BookingStorage.java:41-53 | bookings without an id are never de-duplicated |
| BookingStore.UpdateBooking | app/src/main/java/com/vehiclebooking/BookingStorage.java:79-104 | the first position whose id (both set) or timestamp matches is replaced; with no match the booking is appended |
| BookingStore.UpdateTouchesOnePosition | app/src/main/java/com/vehiclebooking/BookingStorage.java:84-104 | an update either appends or replaces one position, keeping the length and every other booking |
| BookingStore.EarlierTimestampMatchWins | app/src/main/java/com/vehiclebooking/BookingStorage.java:84-99 | an earlier timestamp match is replaced even when a later booking carries the same id, which stays untouched |
| BookingStore.ClearAllBookings | app/src/main/java/com/vehiclebooking/BookingStorage.java:71-74 | after clearing, the store reads back empty |
| BookingStore.BookingsByStatus | app/src/main/java/com/vehiclebooking/BookingStorage.java:127-142 | the result is an order-preserving subsequence holding exactly the bookings whose effective status is the one asked for, each as often as it is stored |
| BookingStore.GetBookingStats | app/src/main/java/com/vehiclebooking/BookingStorage.java:148-161 | each counter counts the bookings of its effective status; the total is the store size; active is total minus completed minus cancelled |
| BookingStore.GenerateUniqueBookingId | app/src/main/java/com/vehiclebooking/BookingStorage.java:167-183 | a free first candidate is returned; a taken one is replaced by the second candidate without a new check |
| BookingStore.GeneratedIdCanCollide | app/src/main/java/com/vehiclebooking/BookingStorage.java:167-183 | two candidates drawn in the same millisecond with random parts matching two stored bookings yield an id that is already taken |
| BookingStore.GenerateFreshBookingId | app/src/main/java/com/vehiclebooking/BookingStorage.java:167-183 | the corrected generator returns a free candidate, and nothing only when every candidate is taken |
| BookingStore.FreshIdIsSaved | app/src/main/java/com/vehiclebooking/BookingStorage.java:34-56 | a booking saved under a freshly generated id is appended and ids stay unique |
| BookingStore.IsValidPhoneNumber | app/src/main/java/com/vehiclebooking/BookingStorage.java:188-194 | accepted exactly when the trimmed text is an optional '+' and then ten or more digits, spaces, dashes or parentheses |
| BookingStore.TrimAndValidate | app/src/main/java/com/vehiclebooking/BookingStorage.java:251-258 | null for null or blank input, otherwise the non-empty trimmed text |
| BookingStore.IsFieldValid | app/src/main/java/com/vehiclebooking/BookingStorage.java:262-264 | valid exactly when present with a character that trimming keeps |
| BookingStore.ValidatedFieldIsValid | app/src/main/java/com/vehiclebooking/BookingStorage.java:251-264 | the output of trimAndValidate is a valid field exactly when the input was |
| ModifyBooking.LoadBooking | app/src/main/java/com/vehiclebooking/ModifyBookingActivity.java:94-106 | the first stored booking whose id and phone are both set and equal to the ones asked for, or none when no booking has both |
| ModifyBooking.ReadEdit | app/src/main/java/com/vehiclebooking/ModifyBookingActivity.java:152-162 | the edit is refused exactly when a trimmed field is blank or no date is chosen |
| ModifyBooking.HasChanges | app/src/main/java/com/vehiclebooking/ModifyBookingActivity.java:165-168 | no change exactly when route, date and vehicle type all equal the loaded ones, a null loaded vehicle type matching only the empty text |
| ModifyBooking.ModifiedRecord | app/src/main/java/com/vehiclebooking/ModifyBookingActivity.java:176-177 | the record to persist has the edited fields, a fresh timestamp and the loaded id and phone; a set status and its history are kept, a null status becomes Pending with a fresh one-entry history |
| ModifyBooking.SaveModifications | app/src/main/java/com/vehiclebooking/ModifyBookingActivity.java:152-200 | missing fields or no change persist nothing; otherwise the modified record is written with two updates; the Pending notice is shown exactly for Confirmed bookings |
| ModifyBooking.UpdateBookingIdempotent | app/src/main/java/com/vehiclebooking/BookingStorage.java:79-104 | repeating an update with the same booking changes nothing further |
| ModifyBooking.ConfirmedBookingStaysConfirmed | app/src/main/java/com/vehiclebooking/ModifyBookingActivity.java:183-200 | a modified Confirmed booking is announced as Pending but stays Confirmed with its history unchanged |
| ModifyBooking.ModificationNeverRecorded | app/src/main/java/com/vehiclebooking/ModifyBookingActivity.java:183-192 | no save adds a history entry or changes the status |
| ModifyBooking.RecordModification | app/src/main/java/com/vehiclebooking/ModifyBookingActivity.java:183-192 | the intended step: Confirmed goes back to Pending with the re-confirmation entry; any other status gains a "modified by customer" entry; the record invariant holds |
| ModifyBooking.SaveModificationsIntended | app/src/main/java/com/vehiclebooking/ModifyBookingActivity.java:152-200 | the intended save: an announced return to Pending is really recorded and the saved record stays consistent |
| ModifyBooking.UpdateTwiceInPlace | app/src/main/java/com/vehiclebooking/ModifyBookingActivity.java:176-195 | two updates with the same id and a timestamp new to the store replace the original position |
| ModifyBooking.SavedInPlace | app/src/main/java/com/vehiclebooking/ModifyBookingActivity.java:176-195 | when no stored booking shares the copy's timestamp, the saved record replaces the original in place and the store keeps its length |
| ModifyBooking.IntendedSavedInPlace | app/src/main/java/com/vehiclebooking/ModifyBookingActivity.java:176-195 | the same holds for the intended save |
| BookingFilter.PreparedQuery | app/src/main/java/com/vehiclebooking/BookingFilter.java:41-42 | a null or blank query is no query; any other query is lower-cased and trimmed, and non-empty |
| BookingFilter.ShortIdText | app/src/main/java/com/vehiclebooking/BookingFilter.java:69 | the short id exists exactly when the decimal timestamp has at least eight digits; it starts with "BK" |
| BookingFilter.LongTimestampHasShortId | app/src/main/java/com/vehiclebooking/BookingFilter.java:69 | a timestamp of at least 10^7 never makes the search throw |
| BookingFilter.MatchesSearchQuery | app/src/main/java/com/vehiclebooking/BookingFilter.java:57-93 | a source or destination hit matches; the search throws exactly when neither hits and the timestamp is too short; it reports no match exactly when all six fields (source, destination, short id, route, status name, formatted date) miss |
| BookingFilter.SourcePieceMatches | app/src/main/java/com/vehiclebooking/BookingFilter.java:59-61 | every piece of the lower-cased source finds the booking |
| BookingFilter.DestinationPieceMatches | app/src/main/java/com/vehiclebooking/BookingFilter.java:64-66 | every piece of the lower-cased destination finds the booking |
| BookingFilter.StatusNameMatches | app/src/main/java/com/vehiclebooking/BookingFilter.java:80-85 | with a full-length timestamp, the status name finds the booking |
| BookingFilter.Admits | app/src/main/java/com/vehiclebooking/BookingFilter.java:30-46 | a booking of another status is dropped; without a query every booking of the status is kept; with one the search decides |
| BookingFilter.FilterAdmitted | app/src/main/java/com/vehiclebooking/BookingFilter.java:28-51 | the loop fails exactly when some booking makes the search throw, and otherwise keeps exactly the admitted bookings in order |
| BookingFilter.FilterBookings | app/src/main/java/com/vehiclebooking/BookingFilter.java:23-52 | the result is an order-preserving subsequence; each result has the filtered status and matches the prepared query |
| BookingFilter.FilterBookingsComplete | app/src/main/java/com/vehiclebooking/BookingFilter.java:30-48 | no admitted booking is dropped |
| BookingFilter.NoCriteriaKeepsAll | app/src/main/java/com/vehiclebooking/BookingFilter.java:30-48 | with no status filter and a null or blank query the list comes back whole |
| BookingFilter.StatusFilterIsBookingsByStatus | app/src/main/java/com/vehiclebooking/BookingFilter.java:30-38 | a status filter alone selects what the store's status list selects |
| BookingFilter.StatusPriority | app/src/main/java/com/vehiclebooking/BookingFilter.java:149-158 | priorities run from 1 (Pending) to 5 (Cancelled) |
| BookingFilter.PriorityOrdersStatuses | app/src/main/java/com/vehiclebooking/BookingFilter.java:149-158 | distinct statuses have distinct priorities, and an earlier stage has a smaller one |
| BookingFilter.CaseInsensitiveIsPreorder | app/src/main/java/com/vehiclebooking/BookingFilter.java:182 | the case-insensitive order is total and transitive |
| BookingFilter.ComparatorIsPreorder | app/src/main/java/com/vehiclebooking/BookingFilter.java:101-140 | each of the four comparators is total and transitive |
| BookingFilter.SortBookings | app/src/main/java/com/vehiclebooking/BookingFilter.java:98-144 | the result is a permutation of the input: newest first, oldest first, by status priority with newer first on ties, or by route ignoring case; the sort is stable, so bookings the comparator ties keep their input order |
| BookingFilter.CollectSuggestions | app/src/main/java/com/vehiclebooking/BookingFilter.java:163-180 | the suggestions are distinct and hold exactly the sources, destinations and routes of the bookings |
| BookingFilter.SearchSuggestions | app/src/main/java/com/vehiclebooking/BookingFilter.java:163-184 | the sorted suggestions are distinct, complete, and ordered ignoring case |
| BookingFilter.FilterStats.CountForStatus | app/src/main/java/com/vehiclebooking/BookingFilter.java:220-229 | returns the counter named after the status asked for |
| BookingFilter.CountersReadOnce | app/src/main/java/com/vehiclebooking/BookingFilter.java:220-229 | each counter is returned for exactly one status: the five readings add up every counter once |
| BookingFilter.FormatDate | app/src/main/java/com/vehiclebooking/DateUtils.java:61-63 | a date in the usual range is written as ten characters with '/' at positions 2 and 5 |
| BookingFilter.FormatDateReadsBack | app/src/main/java/com/vehiclebooking/DateUtils.java:22-23 | the "dd/MM/yyyy" text holds digits only in its fields, and the day, month and year read back from them |
| BookingFilter.Tally | app/src/main/java/com/vehiclebooking/BookingFilter.java:192-204 | one step raises the total and exactly the counter of the booking's status |
| BookingFilter.GetFilterStats | app/src/main/java/com/vehiclebooking/BookingFilter.java:189-229 | the total is the list length and the sum of the five counters; each named counter (pending, confirmed, in progress, completed, cancelled) counts the bookings of that effective status |
| BookingFilter.FilterStatsMatchFilter | app/src/main/java/com/vehiclebooking/BookingFilter.java:189-229 | each counter equals the size of the store's list for that status |
| BookingAnalytics.Step | app/src/main/java/com/vehiclebooking/BookingAnalytics.java:97-134 | one loop step adds the booking to its status counter, to the active counter when the status is not terminal, and to the week and month counts as Count over the one-booking list; the newest (oldest) kept is the later (earlier) of the kept one and the booking, the kept one on a tie |
| BookingAnalytics.ScanCountsStatuses | app/src/main/java/com/vehiclebooking/BookingAnalytics.java:97-113 | the loop counts each effective status; the counts sum to the list length; active is the non-terminal count |
| BookingAnalytics.ScanCountsWindows | app/src/main/java/com/vehiclebooking/BookingAnalytics.java:86-122 | the week and month counters count the bookings after each window start |
| BookingAnalytics.ScanFindsExtremes | app/src/main/java/com/vehiclebooking/BookingAnalytics.java:94-133 | the loop keeps the first booking with the greatest and the first with the smallest timestamp |
| BookingAnalytics.CalculateBookingStats | app/src/main/java/com/vehiclebooking/BookingAnalytics.java:77-147 | an empty list gives all zeros and no newest or oldest booking; otherwise the counts, windows and extremes are as above and active is total minus completed minus cancelled |
| BookingAnalytics.WindowsNest | app/src/main/java/com/vehiclebooking/BookingAnalytics.java:87-122 | this week's count is at most this month's, which is at most the total |
| BookingAnalytics.GroupRoutes | app/src/main/java/com/vehiclebooking/BookingAnalytics.java:157-160 | one entry per distinct route key, each with its exact count |
| BookingAnalytics.AddToGroupKeepsGrouping | app/src/main/java/com/vehiclebooking/BookingAnalytics.java:160 | counting one more booking keeps the route counts exact |
| BookingAnalytics.ScanMostCommon | app/src/main/java/com/vehiclebooking/BookingAnalytics.java:192-199 | the scan ends with a count at least that of every status scanned |
| BookingAnalytics.MostCommonStatus | app/src/main/java/com/vehiclebooking/BookingAnalytics.java:186-200 | the chosen status occurs on the route at least as often as any other, and occurs at all when the route has bookings |
| BookingAnalytics.WithMostCommon | app/src/main/java/com/vehiclebooking/BookingAnalytics.java:178-206 | each entry keeps route and count and gets a most common status |
| BookingAnalytics.ByCountDescendingIsPreorder | app/src/main/java/com/vehiclebooking/BookingAnalytics.java:209 | the popularity comparator is total and transitive |
| BookingAnalytics.RoutePopularityFacts | app/src/main/java/com/vehiclebooking/BookingAnalytics.java:178-209 | sorting keeps routes distinct, entries faithful and every booking's route present |
| BookingAnalytics.AnalyzeRoutePopularity | app/src/main/java/com/vehiclebooking/BookingAnalytics.java:152-212 | one faithful entry per distinct route, covering every booking; counts sum to the list length and do not increase down the list |
| SearchStore.NewSearchRecord | app/src/main/java/com/vehiclebooking/VehicleSearchActivity.java:260-271 | a new lead has empty interest, status "New" and empty notes |
| SearchStore.FindRecord | app/src/main/java/com/vehiclebooking/SearchStorage.java:118-121 | the first row with the phone and timestamp, or none when no row has them |
| SearchStore.SaveSearchRecord | app/src/main/java/com/vehiclebooking/SearchStorage.java:19-29 | inserts exactly when no row has the record's phone and timestamp, keeping the keys unique |
| SearchStore.SaveSearchRecordIdempotent | app/src/main/java/com/vehiclebooking/SearchStorage.java:19-29 | saving the same record twice stores it once |
| SearchStore.MostRecentFor | app/src/main/java/com/vehiclebooking/SearchStorage.java:41-50 | the phone's row with the greatest timestamp text, the first on ties, or none without a row for the phone |
| SearchStore.NewerRowWins | app/src/main/java/com/vehiclebooking/SearchStorage.java:44-50 | a row whose timestamp text is greater than the current best is greater than every row of the phone seen so far |
| SearchStore.AddInterest | app/src/main/java/com/vehiclebooking/SearchStorage.java:53-57 | null or empty interest is replaced; otherwise the new one is appended after ", " |
| SearchStore.UpdateVehicleInterest | app/src/main/java/com/vehiclebooking/SearchStorage.java:37-60 | only the interest of the phone's most recent row changes; without a row nothing changes |
| SearchStore.UpdateVehicleInterestKeepsKeys | app/src/main/java/com/vehiclebooking/SearchStorage.java:37-60 | an interest update keeps the keys unique |
| SearchStore.NewestFirstIsPreorder | app/src/main/java/com/vehiclebooking/SearchStorage.java:73-78 | the newest-first comparator is total and transitive |
| SearchStore.GetAllSearchRecords | app/src/main/java/com/vehiclebooking/SearchStorage.java:63-81 | all rows, as a permutation, in non-increasing timestamp-text order |
| SearchStore.UpdateSearchStatus | app/src/main/java/com/vehiclebooking/SearchStorage.java:118-125 | only the status of the keyed row changes; without one nothing changes |
| SearchStore.UpdateAdminNotes | app/src/main/java/com/vehiclebooking/SearchStorage.java:128-135 | only the notes of the keyed row change; without one nothing changes |
| SearchStore.StatusUpdateHitsKeyedRow | app/src/main/java/com/vehiclebooking/SearchStorage.java:118-125 | with unique keys, a status update reaches exactly the row carrying the key |
| SearchStore.NotesUpdateHitsKeyedRow | app/src/main/java/com/vehiclebooking/SearchStorage.java:128-135 | with unique keys, a notes update reaches exactly the row carrying the key and the keys stay unique |
| SearchStore.TallySearches | app/src/main/java/com/vehiclebooking/SearchStorage.java:144-175 | each counter counts its status, its vehicle word or the rows with a location |
| SearchStore.GetSearchAnalytics | app/src/main/java/com/vehiclebooking/SearchStorage.java:140-178 | every counter (new, contacted, completed, with location, sedan, SUV, van, luxury) equals Count of its test over the table; new, contacted and completed together are at most the total |
| SearchStore.OneQueryTwoBuckets | app/src/main/java/com/vehiclebooking/SearchStorage.java:162-168 | a query naming two vehicle words counts in both buckets |
| SearchStore.LuxuryVanMentionsBoth | app/src/main/java/com/vehiclebooking/SearchStorage.java:162-168 | "luxury van" names both the van and the luxury word |
| SearchStore.MostPopularVehicleType | app/src/main/java/com/vehiclebooking/SearchStorage.java:204-216 | "None" exactly when all four counts are zero; otherwise the first of Sedan, SUV, Van, Luxury with the greatest count, so "Mixed" never occurs |
| InputValidator.CollapseSpaces | app/src/main/java/com/vehiclebooking/security/InputValidator.kt:19 | whitespace runs become single spaces: no longer, every whitespace is ' ', no two in a row |
| InputValidator.CollapseKeepsContent | app/src/main/java/com/vehiclebooking/security/InputValidator.kt:19 | collapsing keeps every non-whitespace character in order |
| InputValidator.CollapseWithoutSpaces | app/src/main/java/com/vehiclebooking/security/InputValidator.kt:19 | text without whitespace is unchanged |
| InputValidator.SanitizeString | app/src/main/java/com/vehiclebooking/security/InputValidator.kt:16-21 | at most 255 characters, none of `<>"'` or backquote, whitespace only as single spaces |
| InputValidator.KotlinTrimKeepsContent | app/src/main/java/com/vehiclebooking/security/InputValidator.kt:17 | trimming never removes a content character |
| InputValidator.SanitizeKeepsContent | app/src/main/java/com/vehiclebooking/security/InputValidator.kt:16-21 | the content characters of the result are a prefix of the input's, and all of them when the input is at most 255 long |
| InputValidator.MarkupCanExposeSpace | app/src/main/java/com/vehiclebooking/security/InputValidator.kt:16-21 | deleting markup after trimming can leave a leading space |
| InputValidator.SecondPassTrimsAgain | app/src/main/java/com/vehiclebooking/security/InputValidator.kt:16-21 | a second pass removes that space, so sanitising is not idempotent |
| InputValidator.IsValidPhoneNumber | app/src/main/java/com/vehiclebooking/security/InputValidator.kt:39-42 | accepted exactly when the text holds exactly ten digits |
| InputValidator.TenDigitsPassBothChecks | app/src/main/java/com/vehiclebooking/security/InputValidator.kt:39-42 | a plain ten-digit number passes both phone checks |
| InputValidator.LongNumbersSplitTheChecks | app/src/main/java/com/vehiclebooking/security/InputValidator.kt:39-42 | eleven or more digits pass the booking store's check and fail this one |
| InputValidator.PunctuationSplitsTheChecks | app/src/main/java/com/vehiclebooking/security/InputValidator.kt:39-42 | ten dashes or parentheses pass the booking store's check and fail this one |
| InputValidator.LetterPrefixSplitsTheChecks | app/src/main/java/com/vehiclebooking/security/InputValidator.kt:39-42 | ten digits after a word pass this check and fail the booking store's |
| InputValidator.IsStrongPassword | app/src/main/java/com/vehiclebooking/security/InputValidator.kt:54-59 | true exactly when the password has at least eight characters, an upper-case letter, a lower-case letter and a digit |
| InputValidator.IsValidUsername | app/src/main/java/com/vehiclebooking/security/InputValidator.kt:69-71 | true exactly when the username has 3 to 20 characters, all ASCII letters, digits or '_' |
| InputValidator.ValidUsernameSurvivesSanitizing | app/src/main/java/com/vehiclebooking/security/InputValidator.kt:69-71 | a valid username is unchanged by sanitising |
| InputValidator.SanitizeBookingId | app/src/main/java/com/vehiclebooking/security/InputValidator.kt:78-85 | the trimmed, upper-cased id when it is "BK" and ten or more digits, otherwise null |
| InputValidator.WellFormedIdIsKept | app/src/main/java/com/vehiclebooking/security/InputValidator.kt:78-85 | a well-formed id comes back unchanged |
| InputValidator.SanitizeBookingIdIdempotent | app/src/main/java/com/vehiclebooking/security/InputValidator.kt:78-85 | sanitising an accepted id again gives the same id |
| InputValidator.GeneratedIdsAreWellFormed | app/src/main/java/com/vehiclebooking/security/InputValidator.kt:78-85 | every id the booking store builds from a ten-digit clock reading is accepted unchanged |
| InputValidator.ShortIdIsRefused | app/src/main/java/com/vehiclebooking/security/InputValidator.kt:78-85 | an id with too few digits is refused even after trimming and upper-casing |
| PasswordStrength.LengthPoints | app/src/main/java/com/vehiclebooking/ui/components/PasswordStrengthIndicator.kt:73-78 | 10 to 40 points; 40 exactly from 12 characters; at most 20 exactly below 8 |
| PasswordStrength.StrengthScore | app/src/main/java/com/vehiclebooking/ui/components/PasswordStrengthIndicator.kt:70-90 | 10 to 100, at least the length points and at most 60 more |
| PasswordStrength.Classify | app/src/main/java/com/vehiclebooking/ui/components/PasswordStrengthIndicator.kt:93-98 | Strong from 85, Good from 60, Fair from 40, Weak below, each in both directions |
| PasswordStrength.CalculatePasswordStrength | app/src/main/java/com/vehiclebooking/ui/components/PasswordStrengthIndicator.kt:65-99 | the empty password is Weak; otherwise Strong from 85 points, Good from 60, Fair from 40, Weak below, each as an iff |
| PasswordStrength.TypingNeverLowersScore | app/src/main/java/com/vehiclebooking/ui/components/PasswordStrengthIndicator.kt:70-90 | typing another character never lowers the score |
| PasswordStrength.TypingNeverLowersStrength | app/src/main/java/com/vehiclebooking/ui/components/PasswordStrengthIndicator.kt:65-99 | typing another character never lowers the level shown |
| PasswordStrength.StrongPasswordRatesGoodOrBetter | app/src/main/java/com/vehiclebooking/ui/components/PasswordStrengthIndicator.kt:73-98 | a password meeting the registration rule rates Good or Strong, Strong exactly with 12 characters or a special character |
| PasswordStrength.ShortPasswordIsNeverStrong | app/src/main/java/com/vehiclebooking/ui/components/PasswordStrengthIndicator.kt:73-98 | under eight characters never rates Strong |
| PasswordStrength.MeterCanOverrate | app/src/main/java/com/vehiclebooking/ui/components/PasswordStrengthIndicator.kt:73-98 | a long password without an upper-case letter rates Strong yet fails the registration rule |
| PasswordStrength.MeetsRequirements | app/src/main/java/com/vehiclebooking/ui/components/PasswordStrengthIndicator.kt:104-106 | met exactly when the password has at least eight characters, an upper-case letter, a lower-case letter and a digit |
| PasswordStrength.UnmetRequirements | app/src/main/java/com/vehiclebooking/ui/components/PasswordStrengthIndicator.kt:111-128 | at most four distinct messages from the fixed four; each present exactly when its rule fails |
| PasswordStrength.UnmetRequirementsInOrder | app/src/main/java/com/vehiclebooking/ui/components/PasswordStrengthIndicator.kt:111-128 | the messages present appear in the order length, upper case, lower case, digit, whichever rules fail |
| PasswordStrength.NothingUnmetIffMeetsRequirements | app/src/main/java/com/vehiclebooking/ui/components/PasswordStrengthIndicator.kt:104-128 | the list is empty exactly when the requirements are met |
| SecurityLogger.BuildLogEntry | app/src/main/java/com/vehiclebooking/security/SecurityLogger.kt:146-155 | "[ts] EVENT \| User: " then the user or UNKNOWN, " \| ", and the details or nothing |
| SecurityLogger.CheckAndHandleLockout | app/src/main/java/com/vehiclebooking/security/SecurityLogger.kt:185-197 | the user's count grows by one; from five on the lockout restarts now; other users are untouched |
| SecurityLogger.LogEvent | app/src/main/java/com/vehiclebooking/security/SecurityLogger.kt:41-62 | the entry is appended; a failed login with a user counts one more failure; any other event only writes |
| SecurityLogger.LockedEntryOnlyWrites | app/src/main/java/com/vehiclebooking/security/SecurityLogger.kt:185-197 | the nested LOGIN_LOCKED event only writes and does not count again |
| SecurityLogger.LogFailedLogin | app/src/main/java/com/vehiclebooking/security/SecurityLogger.kt:67-69 | a failed login counts once and from the fifth failure starts the lockout now |
| SecurityLogger.ClearFailedAttempts | app/src/main/java/com/vehiclebooking/security/SecurityLogger.kt:209-212 | both of the user's values read back as 0; other users and the log are untouched |
| SecurityLogger.LogSuccessfulLogin | app/src/main/java/com/vehiclebooking/security/SecurityLogger.kt:74-78 | a successful login clears the user's count and lockout time and nobody else's |
| SecurityLogger.IsAccountLocked | app/src/main/java/com/vehiclebooking/security/SecurityLogger.kt:83-100 | locked exactly with five or more failures inside the window; an expired lock is cleared; otherwise nothing changes |
| SecurityLogger.RemainingLockoutTime | app/src/main/java/com/vehiclebooking/security/SecurityLogger.kt:105-115 | whole minutes left, never negative, 0 after expiry, at most 15 |
| SecurityLogger.FailuresAccumulate | app/src/main/java/com/vehiclebooking/security/SecurityLogger.kt:59-61 | every failure counts once; from the fifth the window starts at the latest failure |
| SecurityLogger.FiveFailuresLock | app/src/main/java/com/vehiclebooking/security/SecurityLogger.kt:83-100 | after five failures the account is locked exactly until 15 minutes after the last one |
| SecurityLogger.SuccessUnlocks | app/src/main/java/com/vehiclebooking/security/SecurityLogger.kt:74-100 | after a successful login the account is not locked |
| SecurityLogger.LockedWithZeroMinutesLeft | app/src/main/java/com/vehiclebooking/security/SecurityLogger.kt:83-115 | in the last minute the account is locked while the remaining time reads 0 |
| Users.NewUser | app/src/main/java/com/vehiclebooking/User.java:19-34 | a new account has an id starting with "USER", the given fields, is active and unavailable, and has no driver details |
| Users.DefaultAdmin | app/src/main/java/com/vehiclebooking/UserManager.java:39-40 | the seeded account is an active administrator "admin" with password "admin123" |
| Users.InitializeDefaultUsers | app/src/main/java/com/vehiclebooking/UserManager.java:35-43 | an empty registry gets exactly the administrator; a non-empty one is unchanged |
| Users.InitializeIsIdempotent | app/src/main/java/com/vehiclebooking/UserManager.java:35-43 | seeding twice seeds once |
| Users.IsUsernameExists | app/src/main/java/com/vehiclebooking/UserManager.java:129-137 | true exactly when a stored account has the username |
| Users.IsEmailExists | app/src/main/java/com/vehiclebooking/UserManager.java:140-148 | true exactly when a stored account has the email |
| Users.RegisterUser | app/src/main/java/com/vehiclebooking/UserManager.java:46-60 | succeeds exactly when username and email are both new, then appends exactly the new account; otherwise nothing changes |
| Users.RegisterKeepsAccountsUnique | app/src/main/java/com/vehiclebooking/UserManager.java:46-60 | registration keeps usernames and emails unique |
| Users.InitializeKeepsAccountsUnique | app/src/main/java/com/vehiclebooking/UserManager.java:35-43 | seeding keeps usernames and emails unique |
| Users.Login | app/src/main/java/com/vehiclebooking/UserManager.java:63-76 | succeeds exactly when an active account has the username and password, and the first such account becomes current; failure changes nothing |
| Users.IsLoggedIn | app/src/main/java/com/vehiclebooking/UserManager.java:85-88 | true only with a current user held, never with the stored flag cleared, and always when both are set |
| Users.Logout | app/src/main/java/com/vehiclebooking/UserManager.java:79-88 | afterwards nobody is logged in and the accounts are unchanged |
| Users.RegisterThenLogin | app/src/main/java/com/vehiclebooking/UserManager.java:46-76 | a freshly registered account can log in at once and is the one that does |
| Users.LogoutThenLogin | app/src/main/java/com/vehiclebooking/UserManager.java:63-82 | logging out and in again restores the same session |
| Users.FindById | app/src/main/java/com/vehiclebooking/UserManager.java:197-198 | the first account with the id (no earlier account has it), or none when no account has it |
| Users.UpdateUser | app/src/main/java/com/vehiclebooking/UserManager.java:195-209 | succeeds exactly when an account has the id; the first one is replaced, and the session follows when it held that id; otherwise nothing changes |
| Users.UpdateThenFind | app/src/main/java/com/vehiclebooking/UserManager.java:195-209 | after an update, looking the id up finds the updated account |
| Users.GetUsersByRole | app/src/main/java/com/vehiclebooking/UserManager.java:183-192 | an order-preserving subsequence holding exactly the accounts of the role, each as often as it occurs in the registry |
| Users.RolesPartitionUsers | app/src/main/java/com/vehiclebooking/UserRole.java:3-7 | every account is counted under exactly one of the three roles |
| Users.RoleListsCoverRegistry | app/src/main/java/com/vehiclebooking/UserManager.java:183-192 | the three role lists together are as long as the registry |
| Entities.ToBookingRequest | app/src/main/java/com/vehiclebooking/data/model/BookingEntity.java:40-47 | the restored booking has the row's fields; a null history becomes empty and a null status stays null |
| Entities.FromBooking | app/src/main/java/com/vehiclebooking/data/model/BookingEntity.java:28-47 | storing a booking and reading it back gives the same booking |
| Entities.BookingRowRoundTrip | app/src/main/java/com/vehiclebooking/data/model/BookingEntity.java:28-47 | a row read and written back is unchanged except that a null history becomes empty |
| Entities.StoringKeepsHistoryConsistent | app/src/main/java/com/vehiclebooking/data/model/BookingEntity.java:28-47 | storing keeps the record invariant and the effective status |
| Entities.ToSearchRecord | app/src/main/java/com/vehiclebooking/data/model/SearchRecordEntity.java:39-52 | every column except the key is copied to the record |
| Entities.FromSearchRecord | app/src/main/java/com/vehiclebooking/data/model/SearchRecordEntity.java:26-52 | the key starts at 0, and reading the row back gives the same record |
| Entities.SearchRowRoundTrip | app/src/main/java/com/vehiclebooking/data/model/SearchRecordEntity.java:10-52 | a row read and written back differs at most in its key |
| Entities.SearchKeyIsNotRead | app/src/main/java/com/vehiclebooking/data/model/SearchRecordEntity.java:39-52 | rows differing only in their key read back as the same record |
| Entities.ToUser | app/src/main/java/com/vehiclebooking/data/model/UserEntity.java:47-62 | the account has the row's fields, overriding the defaults of the empty constructor |
| Entities.FromUser | app/src/main/java/com/vehiclebooking/data/model/UserEntity.java:31-62 | storing an account and reading it back gives the same account at any clock reading |
| Entities.UserRowRoundTrip | app/src/main/java/com/vehiclebooking/data/model/UserEntity.java:31-62 | a row read and written back is unchanged |

## Left out

- Android screens, adapters, dialogs, toasts, intents, notifications and charts. Only the decision logic of the modify screen is modelled.
- Persistence libraries. SharedPreferences, Gson, Room and the encrypted database become sequences. A serialisation failure (the `catch` in `saveUser`) is not modelled.
- Network, Firebase and coroutine repositories. They are plumbing around the modelled stores.
- Floating point: completion and cancellation rates, route percentages, contact and completion rates, and recommendations. Coordinates are opaque 64-bit values that are only copied.
- Average booking durations. They call `getTime()` on a `LocalDate`, which does not type-check.
- `analyzeBookingTrends` and `generateInsights`. Both depend on locale date formatting.
- `isValidEmail` in both validators. They depend on Android's email pattern and regex engine.
- Dates are triples. Calendar arithmetic and daylight-saving time are not modelled; the week and month windows are fixed spans of 7 and 30 days of milliseconds.
- HashMap iteration order in route analysis. Entries are built in first-seen order and statuses are scanned in enum order. The contracts state only facts that hold for every order.
- Clock readings. Each operation reads the clock once. Where the source reads it twice, one parameter stands for both, which can differ by a millisecond. This applies to the booking constructor (timestamp and first history entry), the `User` constructor (creation time and id) and nested lockout logging.
- Unicode. Upper case, lower case, digits and letters are ASCII. Kotlin's `uppercase()` and Java's case mapping beyond ASCII, and UTF-16 surrogate pairs, are not modelled.
- Log file writing, rotation and reading. The log is an unbounded sequence of entries.
- Session loading when the app starts (`loadCurrentUser`). The registry holds the session directly.
- Users: a stored account's text fields and role are never null. Every account is made by the six-argument constructor.
- SecurityLogger.RemainingLockoutTime: the `toInt()` narrowing is not modelled. The value never exceeds 15 when the lockout time is not in the future.
- BookingStore.GetBookingStats: 32-bit wrap-around of the counters is not modelled. Counts are unbounded, which matches Java for fewer than 2^31 bookings.
- BookingFilter.FormatDate: the rendering is shown to read back only for days and months of one or two digits and years 1 to 9999. The '+' sign and the year-of-era rule beyond that range are written out but not proved about.
- BookingAnalytics.MostCommonStatus: ties are broken in enum order. The contract says only that the chosen status has the greatest count.
- The duplicate Java and Kotlin declarations of the DAOs. Only the queries the stores issue are modelled: the first row by phone and timestamp, and all rows.

## Findings

| source | as written | input that shows it | evidently intended | confidence | as-written member | corrected member |
|---|---|---|---|---|---|---|
| app/src/main/java/com/vehiclebooking/ModifyBookingActivity.java:183-200 | The status step calls `changeStatus(PENDING)` on a Confirmed booking, which the transition table refuses. It calls `changeStatus(status, …)` on any other booking, which is a refused self-transition. The booking stays Confirmed while the user is told it went back to Pending, and no "modified by customer" entry is ever written. | any Confirmed booking whose source is edited | a modified Confirmed booking returns to Pending with a re-confirmation entry, and other bookings gain a modification entry | not executed | ModifyBooking.ConfirmedBookingStaysConfirmed | ModifyBooking.SaveModificationsIntended |
| app/src/main/java/com/vehiclebooking/BookingStorage.java:167-183 | When the first candidate id is taken, a second candidate is built once and returned without checking it. | a store holding the ids of clock reading 1735689600000 with random parts 123 and 4567, and both candidates drawn in that millisecond with those random parts | every returned id is free | not executed | BookingStore.GeneratedIdCanCollide | BookingStore.GenerateFreshBookingId |
