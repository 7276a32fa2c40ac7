# smart-sched reservation lifecycle, modelled in Dafny

This project models the reservation engine of smart-sched, a room reservation and
attendance system. The engine has two halves.

The server half is a set of Cloud Functions:

- booking, rescheduling and cancelling a reservation, guarded by a half-open
  interval conflict query (`functions/src/reservations.ts`);
- QR check-in and check-out inside a −10/+15 minute window (`functions/src/checkins.ts`);
- two sweepers that mark no-shows, auto-check-out overdue sessions and close no-shows
  in batches of 500 writes (`functions/src/sweepers.ts`);
- room administration with QR-version bumps (`functions/src/rooms.ts`);
- the shared time rules (`src/utils/timeUtils.ts`) and records (`src/types/models.ts`).

The client half works on a separate `roomSchedules`/`checkIns`/`rooms` store:

- the schedule status service: auto-complete, force-complete, conflict resolution,
  ending-soon and starting-soon lists (`src/utils/reservationStatusService.ts`);
- the professor's booking form with its own overlap test and weekly expansion, and the
  "my schedules" list (`src/pages/professor/ReservationsPage.tsx`; its near-copy
  `src/pages/professor/ReservationPage.tsx`, lines 51-92 and 110-189, behaves the same
  except for the listing order of entries with equal start times, see "## Left out");
- the QR scanner page and the `room-<id>` payload (`src/pages/professor/ScannerPage.tsx`,
  `src/pages/admin/RoomQRPage.tsx`);
- the register and login forms (`src/pages/RegisterPage.tsx`, `src/pages/LoginPage.tsx`);
- the admin check-in analytics and reservation dashboard, and the professor's report page
  (`src/components/reports/CheckInAnalytics.tsx`,
  `src/components/reports/ReservationDashboard.tsx`, `src/pages/professor/ReportsPage.tsx`).

Modelling choices:

- Each store is a class whose fields are maps. `Store.Db` is the server store;
  `Schedules.ClientDb` is the client store.
- Auto-generated document ids come from a counter. A query with equality filters only
  returns matching ids in ascending order. A query with a range filter on a field returns
  them ordered by that field, ties by ascending id (`Schedules.RangeSelect`).
- Time is an integer count of milliseconds. The current time is always a parameter.
- Handlers that loop over query results are methods with loop invariants. Each is proved
  against a specification function over the old state.

Points where the model follows the code as written:

- `cancelReservation` writes the status `CANCELLED`, which `src/types/models.ts` does not
  declare. The model has a fifth status for it; `Models.IsDeclaredStatus` excludes it.
- A check-in is refused when the caller has an open session in the same room only. The
  code does not look at other rooms.
- Inside each server handler's `try`, every error except a schema error is re-raised as
  `internal` with the handler's generic message. This is what a caller sees for a missing
  reservation, a taken slot or an unavailable room.
- The client overlap test misses a new booking that strictly contains an existing one.
  Weekly copies are written without any check.
- When the caller sets the QR version to 0, `updateRoom` stores 0 but reports the version
  stored before the update.

## Model

| member | source | states |
|---|---|---|
| TimeUtils.UtcRoundTrip | src/utils/timeUtils.ts:16-23 | the UTC conversions are inverse pass-throughs |
| TimeUtils.CheckInWindowBoundaries | src/utils/timeUtils.ts:26-32 | the window contains start −10 min, start, start +15 min, and excludes one millisecond beyond either bound |
| TimeUtils.NoShowIsMonotone | src/utils/timeUtils.ts:35-40 | once a reservation is a no-show, it stays one at every later time |
| TimeUtils.AutoFinalizeIsMonotone | src/utils/timeUtils.ts:43-48 | once finalization is due, it stays due at every later time |
| TimeUtils.WindowMeetsNoShow | src/utils/timeUtils.ts:26-40 | the check-in window and the no-show rule overlap exactly at start +15 min; after that only the no-show holds; before it no-show never holds |
| Models.OverlapsIsSymmetric | functions/src/reservations.ts:38-42 | the half-open overlap test does not depend on which interval is the new one |
| Models.AdvancesIsMonotone | src/types/models.ts:28-40 | a lifecycle step never reopens a closed reservation, never moves status backwards, never changes room or owner, and stamps finalizedAt when it closes |
| Errors.Rethrow | functions/src/reservations.ts:120-124 | a schema error becomes invalid-argument; any raised error becomes internal with the handler's generic message |
| Reservations.ConflictMeansOverlapWithHolder | functions/src/reservations.ts:29-51 | the conflict query holds iff some other open SCHEDULED/IN_SESSION reservation in the room overlaps the interval |
| Reservations.TouchingNeverConflicts | functions/src/reservations.ts:38-42 | adding a reservation that only touches or misses the interval does not change the conflict answer |
| Reservations.ExcludingIsRemoving | functions/src/reservations.ts:47-50 | excluding an id gives the same answer as deleting that reservation |
| Reservations.HolderHasNoConflict | functions/src/reservations.ts:181-191 | in a store with no double booking, a holder does not conflict with the others |
| Reservations.PutKeepsNoDoubleBooking | functions/src/reservations.ts:93-117 | writing a record that passed the conflict query keeps the store free of double bookings |
| Reservations.CreateGuardOrder | functions/src/reservations.ts:77-101 | creation passes iff room id is set, start < end, the room is available and no holder overlaps; the time check comes before the room check |
| Reservations.CreateReservation | functions/src/reservations.ts:63-126 | auth, then role, then each guard with its error; on success a new SCHEDULED open reservation under a fresh id and nothing else changes; the store invariant is kept |
| Reservations.UpdateRejectsForeignOrSettled | functions/src/reservations.ts:146-169 | someone else's, closed or non-SCHEDULED reservations cannot be updated |
| Reservations.UpdateKeepingTimesIsAccepted | functions/src/reservations.ts:172-191 | an owner re-submitting the current times of an open SCHEDULED reservation is accepted |
| Reservations.UpdateNeverDoubleBooks | functions/src/reservations.ts:172-200 | an accepted update keeps the store free of double bookings and well-formed |
| Reservations.UpdateGuardOrder | functions/src/reservations.ts:139-192 | update passes iff an id is given and present, the caller owns it and is a professor, it is open and SCHEDULED, the rescheduled start is before the rescheduled end, and either no time was supplied or no other holder in the room overlaps; a foreign caller is refused before anything else about the record, a bad range before any conflict |
| Reservations.UpdateReservation | functions/src/reservations.ts:132-209 | errors as the guards decide; on success only the times of that reservation change |
| Reservations.CancelReleasesRoom | functions/src/reservations.ts:257-263 | a cancelled reservation is closed, no longer holds its slot, and carries the undeclared CANCELLED status |
| Reservations.CancelReservation | functions/src/reservations.ts:215-268 | a missing id is invalid-argument; every later fault is internal; on success only that reservation is cancelled |
| Checkins.ServerWindowMatchesTimeRule | functions/src/checkins.ts:50-58 | the server's window test equals the shared time rule |
| Checkins.FindActiveReservation | functions/src/checkins.ts:34-62 | returns the first open SCHEDULED reservation of the caller in the room whose window contains now, and none iff no such reservation exists |
| Checkins.FirstOpenSession | functions/src/checkins.ts:65-80 | the first IN_SESSION open reservation of the caller in the room within an id range, or none in that range |
| Checkins.FindCurrentSession | functions/src/checkins.ts:65-80 | none iff the caller has no open session in the room |
| Checkins.CheckInKeepsInvariants | functions/src/checkins.ts:135-154 | starting a session keeps no double booking, well-formedness and at most one open session per user and room |
| Checkins.FacultyCheckin | functions/src/checkins.ts:86-167 | auth, role, room, open-session and window guards with their errors; on success the first eligible reservation becomes IN_SESSION and one CHECK_IN/QR event is appended |
| Checkins.CheckOutCompletesSession | functions/src/checkins.ts:216-222 | check-out closes the session as COMPLETED with finalizedAt = now |
| Checkins.FacultyCheckout | functions/src/checkins.ts:173-236 | an empty room id is a schema error; with no open session, internal; otherwise the session completes and one CHECK_OUT/QR event is appended |
| Sweepers.CommitsForIsTight | functions/src/sweepers.ts:47-58 | the number of commits is the number of writes divided by 500, rounded up |
| Sweepers.NoShowStep | functions/src/sweepers.ts:34-45 | a reservation changes iff it is SCHEDULED, open and 15 min past its start, and then only its status becomes NO_SHOW |
| Sweepers.NoShowSweepIsIdempotent | functions/src/sweepers.ts:28-53 | after one sweep nothing is due, so a second sweep changes nothing |
| Sweepers.ReleasingKeepsValid | functions/src/sweepers.ts:39-44 | changes that only release slots keep the store free of double bookings |
| Sweepers.StageNoShows | functions/src/sweepers.ts:34-53 | the loop's map and write count equal the pointwise sweep; writes = commits·500 + pending |
| Sweepers.StageWrite | functions/src/sweepers.ts:45-51 | one more write keeps writes = commits·500 + pending with pending below 500 |
| Sweepers.SweeperAutoNoShow | functions/src/sweepers.ts:17-66 | the store becomes the no-show sweep of the old one; writes and commits are counted exactly |
| Sweepers.AutoCheckoutStep | functions/src/sweepers.ts:89-115 | a reservation changes iff it is IN_SESSION, open and 10 min past its end; it is then closed as COMPLETED at now |
| Sweepers.AutoCheckoutEvents | functions/src/sweepers.ts:94-107 | one auto-checkout event per due session |
| Sweepers.AutoCheckoutEventsDescribeDueSessions | functions/src/sweepers.ts:96-107 | each event has the next id, is CHECK_OUT/AUTO at now for a due session, and events follow reservation order |
| Sweepers.StageAutoCheckouts | functions/src/sweepers.ts:89-125 | the first loop closes due sessions, appends their events and counts two writes each |
| Sweepers.StagePair | functions/src/sweepers.ts:117-123 | two more writes keep writes = commits·500 + pending with an even pending count below 500 |
| Sweepers.CloseStep | functions/src/sweepers.ts:133-143 | a reservation changes iff it is NO_SHOW, open and 10 min past its end; it is then closed at now |
| Sweepers.StageNoShowCloses | functions/src/sweepers.ts:133-153 | the second loop closes due no-shows and carries the batch counter on |
| Sweepers.FinalizeSweepIsPointwise | functions/src/sweepers.ts:84-153 | the two loops together equal a per-reservation step; every change is a lifecycle advance that closes with finalizedAt = now |
| Sweepers.FinalizeSweepIsIdempotent | functions/src/sweepers.ts:84-153 | after one run nothing is due, so a second run changes nothing |
| Sweepers.FinalizeSweepKeepsValid | functions/src/sweepers.ts:84-153 | the finalize sweep keeps the store free of double bookings and well-formed |
| Sweepers.StageFinalize | functions/src/sweepers.ts:84-160 | both loops together give the pointwise finalize sweep, the appended events, the exact write count and its commits |
| Sweepers.SweepsSettlePastReservations | functions/src/sweepers.ts:17-153 | an open reservation past both deadlines is closed after the two sweepers run |
| Sweepers.SweeperAutoFinalize | functions/src/sweepers.ts:73-166 | the store becomes the finalize sweep of the old one, with the auto-checkout events appended and writes/commits counted exactly |
| Rooms.NameIssues | functions/src/rooms.ts:13 | no issue iff the name is non-empty |
| Rooms.CapacityIssues | functions/src/rooms.ts:14 | no issue iff the capacity is at least 1 |
| Rooms.RoomIssues | functions/src/rooms.ts:12-16 | a room input is valid iff both field rules hold |
| Rooms.PatchIssues | functions/src/rooms.ts:19-21 | a patch is valid iff every field it carries obeys its rule |
| Rooms.NewRoom | functions/src/rooms.ts:53-60 | a new room is active, has QR version 1, and keeps the input name and capacity |
| Rooms.RetiringBumpsQrVersion | functions/src/rooms.ts:114-117 | retiring an active room retires it and bumps its QR version by one |
| Rooms.OnlyRetirementOrRequestBumps | functions/src/rooms.ts:109-117 | without a bump request or a retirement, the QR version is the patched one or the old one |
| Rooms.AbsentFieldsAreKept | functions/src/rooms.ts:109-120 | fields the patch leaves out keep their stored value |
| Rooms.ReturnedQrVersionMatchesStored | functions/src/rooms.ts:122-125 | the reported QR version equals the stored one iff the stored one is non-zero or the old one was zero |
| Rooms.ReturnedQrVersionCanDiffer | functions/src/rooms.ts:124 | a patch setting the QR version to 0 stores 0 but reports the old version |
| Rooms.CreateRoom | functions/src/rooms.ts:33-69 | auth, role and schema errors; on success only the new room is added |
| Rooms.UpdateRoom | functions/src/rooms.ts:75-132 | auth, role, room id, schema and missing-room errors; on success only that room is patched and the reported version is returned |
| Schedules.NewSchedule | src/pages/professor/ReservationsPage.tsx:205-215 | a new entry is scheduled, un-warned, not completed, with the given room, owner and times |
| Schedules.Select | src/utils/reservationStatusService.ts:19-25 | a query returns only ids below the counter, present in the store and matching the predicate |
| Schedules.SelectIsComplete | src/utils/reservationStatusService.ts:19-25 | a query returns every matching id, in strictly ascending order |
| Schedules.RangeSelect | src/components/reports/CheckInAnalytics.tsx:48-52 | a range query returns exactly the ids an equality query would, each below the counter, present and matching |
| Schedules.RangeSelectIsOrdered | src/components/reports/CheckInAnalytics.tsx:48-52 | a range query lists every match once, ordered by the ranged field and, on equal values, by ascending id |
| Schedules.StableSortOfAscendingIds | src/components/reports/ReservationDashboard.tsx:44-48 | stably sorting strictly ascending ids by a key orders them by key, then by id |
| Sorting.StableSort | src/pages/professor/ReservationsPage.tsx:86 | the stable sort of a list is sorted by the key and is a permutation of it |
| Sorting.InsertGoesAfterEqualKeys | src/pages/professor/ReservationsPage.tsx:86 | insertion places the element after every element whose key is not larger and before every larger one, keeping the rest in order |
| Sorting.StableSortMembers | src/pages/professor/ReservationsPage.tsx:86 | sorting neither adds nor drops a value |
| Sorting.SortByKey | src/pages/professor/ReservationsPage.tsx:86 | the result is exactly the stable sort of the input: sorted by the key and a permutation of the input |
| Sorting.Insert | src/pages/professor/ReservationsPage.tsx:86 | inserting into a sorted list keeps it sorted and adds exactly that element |
| Sorting.SmallestByKey | src/components/reports/CheckInAnalytics.tsx:112-113 | the first n of the stable sort: sorted, length min(n, input), drawn from the input, and no left-out element sorts before a kept one |
| Sorting.TakeOfSortedIsSmallest | src/components/reports/ReservationDashboard.tsx:100-102 | slicing a sorted list keeps elements whose keys are at most those of every dropped one |
| Strings.ContainsChar | src/pages/RegisterPage.tsx:24 | a one-character `includes` holds iff the character occurs |
| Strings.IndexFrom | src/pages/professor/ScannerPage.tsx:75 | the first occurrence of the pattern at or after a position, or none |
| Strings.ReplacePrefix | src/pages/professor/ScannerPage.tsx:75 | replacing the first occurrence of a prefix by "" drops that prefix |
| Strings.TrimStart | src/pages/LoginPage.tsx:28 | removes exactly the leading JavaScript whitespace |
| Strings.TrimEnd | src/pages/LoginPage.tsx:28 | removes exactly the trailing JavaScript whitespace |
| Strings.TrimIsEmptyIffBlank | src/pages/LoginPage.tsx:28 | the trimmed text is empty iff every character is whitespace |
| StatusService.CeilMinutesIsCeiling | src/utils/reservationStatusService.ts:163 | for a positive gap, the minute count is the least whole number of minutes covering it, and at least 1 |
| StatusService.AutoCompleteIsIdempotent | src/utils/reservationStatusService.ts:28-47 | after auto-complete nothing is expired, and a second pass changes nothing |
| StatusService.AutoCompletePrefixStep | src/utils/reservationStatusService.ts:28-46 | one loop step completes and reports an expired entry and leaves any other id alone |
| StatusService.StageAutoComplete | src/utils/reservationStatusService.ts:28-47 | the loop completes the expired entries below the bound and reports them in id order |
| StatusService.AutoCompleteExpiredReservations | src/utils/reservationStatusService.ts:14-54 | every scheduled entry whose end is past becomes completed with autoCompletedAt; the updates list those ids in order |
| StatusService.ForceCompleteOverridesStatus | src/utils/reservationStatusService.ts:63-68 | a force-completed entry is completed whatever its status, is never expired later, and keeps its times |
| StatusService.ForceCompleteReservation | src/utils/reservationStatusService.ts:59-76 | a missing entry gives the failure message and no change; otherwise only that entry is force-completed |
| StatusService.PartitionRoomSchedules | src/utils/reservationStatusService.ts:99-109 | active entries are running now and expired ones ended before now; a future entry is never active |
| StatusService.PartitionIsExact | src/utils/reservationStatusService.ts:104-108 | every started scheduled entry in the room is active or expired, never both |
| StatusService.ResolveTouchesOnlyListed | src/utils/reservationStatusService.ts:112-119 | resolution changes exactly the room's scheduled entries that ended before now |
| StatusService.StageResolutions | src/utils/reservationStatusService.ts:112-126 | the loop resolves each listed entry and records one update for each |
| StatusService.DetectAndResolveConflicts | src/utils/reservationStatusService.ts:81-133 | the room's expired scheduled entries are completed and marked resolvedConflict; the updates list them |
| StatusService.GetReservationsEndingSoon | src/utils/reservationStatusService.ts:138-173 | lists the un-warned scheduled entries ending within the threshold, in id order, each with the ceiling of its remaining minutes |
| StatusService.MarkedIsNeverEndingSoon | src/utils/reservationStatusService.ts:159 | a warned entry is never listed again, and marking keeps its status and end |
| StatusService.MarkWarningAsShown | src/utils/reservationStatusService.ts:178-189 | only that entry gains warningShown and its time; a missing entry is a silent no-op |
| StatusService.GetProfessorReservationsStartingSoon | src/utils/reservationStatusService.ts:194-230 | lists the caller's scheduled entries starting within 30 min, each with 1..30 minutes to go |
| ReservationForm.ClientOverlapIsRealOverlap | src/pages/professor/ReservationsPage.tsx:180-188 | whatever the form's test flags really overlaps |
| ReservationForm.OverlapIsClientOverlapOrContainment | src/pages/professor/ReservationsPage.tsx:180-188 | a real overlap is either flagged or a strict containment of the existing entry |
| ReservationForm.ContainmentAndTouchingAreNotFlagged | src/pages/professor/ReservationsPage.tsx:184-187 | strict containment and touching endpoints are not flagged |
| ReservationForm.OnlyScheduledSameRoomBlocks | src/pages/professor/ReservationsPage.tsx:173-177 | entries in other rooms, or not scheduled, never change the conflict answer |
| ReservationForm.ContainingBookingIsAccepted | src/pages/professor/ReservationsPage.tsx:180-193 | 09:00–12:00 is accepted over an existing 10:00–11:00 booking although they overlap |
| ReservationForm.ExpansionShape | src/pages/professor/ReservationsPage.tsx:205-239 | weekly gives 16 entries k weeks apart, anything else 1; each keeps room, owner, course and length |
| ReservationForm.WeeklyCopiesAreNotChecked | src/pages/professor/ReservationsPage.tsx:172-239 | a weekly booking is accepted even though its second copy overlaps an existing entry |
| ReservationForm.PlacedContents | src/pages/professor/ReservationsPage.tsx:205-239 | writing entries under consecutive fresh ids adds exactly those and keeps the rest |
| ReservationForm.WriteEntries | src/pages/professor/ReservationsPage.tsx:205-239 | the writes place the expansion under consecutive ids from the base and return those ids |
| ReservationForm.SubmitReservation | src/pages/professor/ReservationsPage.tsx:158-248 | signed out: nothing; a time or overlap fault: its message and no change; otherwise the expansion under fresh ids |
| ReservationForm.FetchMySchedules | src/pages/professor/ReservationsPage.tsx:46-94 | fails with "Failed to load schedules" iff a room is missing; otherwise the caller's non-cancelled entries joined with rooms, in id order, stably sorted by start |
| ReservationForm.ListedEntriesAreMine | src/pages/professor/ReservationsPage.tsx:55-68 | every listed entry is the caller's, not cancelled, and as stored |
| Scanner.ParsedIdIsRemainder | src/pages/professor/ScannerPage.tsx:69-75 | a payload is accepted iff it starts with "room-", and the room id is the rest |
| Scanner.PayloadRoundTrip | src/pages/admin/RoomQRPage.tsx:81 | parsing a generated payload gives back the room id, and every accepted payload is a generated one |
| Scanner.FirstInWindow | src/pages/professor/ScannerPage.tsx:38-50 | the first own scheduled entry from 30 min before start to its end, or none |
| Scanner.ValidateSchedule | src/pages/professor/ScannerPage.tsx:20-57 | fails with one of the two messages; a success is an own scheduled entry in its window |
| Scanner.ValidateScheduleIsExact | src/pages/professor/ScannerPage.tsx:20-57 | succeeds iff such an entry exists; "no sessions" iff the caller has no scheduled entry in the room |
| Scanner.HandleScan | src/pages/professor/ScannerPage.tsx:59-150 | any fault: its message and no change; check-in adds one active record; check-out closes the given record |
| Scanner.CheckOutIgnoresSchedules | src/pages/professor/ScannerPage.tsx:86-111 | check-out does not depend on the schedules |
| Scanner.AcceptedScanGuards | src/pages/professor/ScannerPage.tsx:64-126 | an accepted scan had a signed-in caller, a generated payload for a known room, and a window entry and no active check-in, or a check-in record in that room |
| Scanner.SecondCheckInIsRefused | src/pages/professor/ScannerPage.tsx:116-137 | after a check-in, another check-in by the same user is refused |
| AuthForms.FullEmail | src/pages/RegisterPage.tsx:54 | the address is the username followed by "@pateros.edu.ph" |
| AuthForms.FullEmailIsInjective | src/pages/RegisterPage.tsx:54 | different usernames give different addresses |
| AuthForms.AcceptedUsernameGivesOneAt | src/pages/RegisterPage.tsx:23-27 | a username without '@' gives an address with exactly one '@', just before the domain |
| AuthForms.RegisterFaultOrder | src/pages/RegisterPage.tsx:17-40 | the form passes iff all fields are filled, the username has no domain text, the password has 6+ characters and matches; each later message implies the earlier checks passed |
| AuthForms.Register | src/pages/RegisterPage.tsx:42-78 | a form fault is shown and nothing is sent; otherwise the full address is sent, and success iff sign-up succeeds |
| AuthForms.RouteFor | src/pages/LoginPage.tsx:37-44 | admins and super-admins go to rooms, professors to today, any other role fails |
| AuthForms.LoginFaultIsExact | src/pages/LoginPage.tsx:22-31 | the form passes iff the username has no domain text and is not blank; domain text is reported first |
| AuthForms.Login | src/pages/LoginPage.tsx:17-50 | a form fault is shown; otherwise the full address is sent, and a route results iff sign-in succeeds with a known role |
| AuthForms.FormsSendOneAt | src/pages/LoginPage.tsx:23-35 | every address either form sends has its only '@' right after the username |
| Reports.DurationIsWholeMinutes | src/components/reports/CheckInAnalytics.tsx:71-74 | the duration is the floor of the stay in minutes, or 0 when not checked out |
| Reports.RowsWhere | src/components/reports/CheckInAnalytics.tsx:60-93 | kept rows come from the store, pass the filter and carry their duration |
| Reports.RowsWhereIsComplete | src/components/reports/CheckInAnalytics.tsx:60-93 | every record that passes the filter is kept |
| Reports.SelectedRowsStep | src/components/reports/CheckInAnalytics.tsx:60-66 | a record outside the room selection adds no row; any other adds its own row with its duration |
| Reports.TotalHours | src/pages/professor/ReportsPage.tsx:240 | total hours are the floor of the total minutes over 60 |
| Reports.UserIdsAreDistinctUsers | src/components/reports/CheckInAnalytics.tsx:56-106 | the user count is the number of distinct users among the rows, at most the row count |
| Reports.CountedRoomsAreFirstSeen | src/components/reports/CheckInAnalytics.tsx:77-98 | the counted rooms are exactly the rooms in first-seen order |
| Reports.RoomCountsCountRows | src/components/reports/CheckInAnalytics.tsx:57-77 | each room's count is its number of rows; first-seen order has no repeats |
| Reports.MostUsed | src/components/reports/CheckInAnalytics.tsx:95-98 | the reduce keeps the first entry with the strictly largest count |
| Reports.MostUsedRoomIsFirstMaximum | src/components/reports/CheckInAnalytics.tsx:95-98 | "N/A" with no rows; otherwise a room with the largest count, the first such in first-seen order |
| Reports.MostUsedOfTwo | src/components/reports/CheckInAnalytics.tsx:77-98 | of two rows in different rooms, the room of the first row is the most used |
| Reports.EqualCountsGoToEarlierCheckIn | src/components/reports/CheckInAnalytics.tsx:48-98 | with one check-in in room B at 200 (id 0) and one in room A at 100 (id 1), the most-used room is A, because the query lists the earlier check-in first |
| Reports.RoundDiv | src/components/reports/CheckInAnalytics.tsx:100-102 | Math.round of the average: the nearest integer, halves rounded up |
| Reports.AccumulateCheckIns | src/components/reports/CheckInAnalytics.tsx:55-93 | the loop's rows, users, room counts, room order and total equal their definitions over the kept rows |
| Reports.AccumulatorsStep | src/components/reports/CheckInAnalytics.tsx:76-92 | one more row adds its user, bumps its room's counter (appending a first-seen room) and adds its duration |
| Reports.AddRow | src/components/reports/CheckInAnalytics.tsx:76-92 | the loop's updates of the user set, counters, room order and total match their definitions over one more row |
| Reports.AccumulateOne | src/components/reports/CheckInAnalytics.tsx:60-92 | one loop iteration extends the rows and all accumulators by the record, or by nothing outside the selection |
| Reports.FetchCheckInData | src/components/reports/CheckInAnalytics.tsx:44-113 | stats are count, distinct users, rounded average and most-used room of the filtered rows, read in check-in-time order; the list is the first 20 of the stable newest-first sort |
| Reports.NewestCheckIns | src/components/reports/CheckInAnalytics.tsx:111-112 | the first 20 of the stable newest-first sort: newest first, drawn from the list, none older than a row left out |
| Reports.FilterRows | src/components/reports/ReservationDashboard.tsx:65-68 | keeps exactly the rows that pass the filter |
| Reports.ActiveRoomsAreUnderwayRooms | src/components/reports/ReservationDashboard.tsx:71-81 | a room is active iff one of its entries is underway now |
| Reports.DashboardCountsAreBounded | src/components/reports/ReservationDashboard.tsx:70-90 | at most as many active rooms as underway entries; underway plus upcoming and completed each at most the entry count |
| Reports.CountSchedules | src/components/reports/ReservationDashboard.tsx:70-97 | the loop's counts equal their definitions |
| Reports.FetchReservationData | src/components/reports/ReservationDashboard.tsx:32-104 | first auto-completes, then computes the four counts over the entries the start-time query returns and the first 10 of their stable latest-first sort |
| Reports.LatestSchedules | src/components/reports/ReservationDashboard.tsx:99-101 | the first 10 of the stable latest-first sort: latest start first, drawn from the list, none starting before an entry left out |
| Reports.FetchProfessorReports | src/pages/professor/ReportsPage.tsx:54-116 | the caller's entries starting in range, stably sorted latest first, and the caller's check-ins in range with durations, stably sorted newest first, each from id order |
| Reports.CollectInRange | src/pages/professor/ReportsPage.tsx:94-113 | the loop keeps exactly the caller's check-ins made in the range, in query order, each with its duration |
| Reports.NatToString | src/components/reports/CheckInAnalytics.tsx:135-136 | decimal text without leading zeros |
| Reports.DecimalRoundTrip | src/components/reports/CheckInAnalytics.tsx:135-136 | reading back the decimal text of n gives n |
| Reports.ShortDurationRoundTrip | src/components/reports/CheckInAnalytics.tsx:135 | under an hour the text is "<m>m" and reads back to the minutes |
| Reports.ParseHoursAndMinutes | src/components/reports/CheckInAnalytics.tsx:136 | "<h>h <m>m" reads back as h·60 + m |
| Reports.LongDurationRoundTrip | src/components/reports/CheckInAnalytics.tsx:133-136 | from an hour on the text is "<h>h <m>m" and reads back to the minutes |
| Reports.FormatDurationRoundTrip | src/components/reports/CheckInAnalytics.tsx:132-137 | for any non-negative count the text splits it into hours and minutes below 60 and reads back to the count |
| Reports.NegativeDurationText | src/pages/professor/ReportsPage.tsx:176-181 | a negative count keeps the sign on both parts: −30 gives "-1h -30m" |

## Left out

- Firestore I/O, network latency and failures of the store itself: each store is a map.
  The store's refusal of a malformed document id is modelled only for the room id of a
  scan (`PathRejected`). That path check is approximated as "empty or containing '/'",
  and its message is not modelled.
- Concurrency: concurrent handler calls, the transactions' isolation and the client's
  `Promise.all` are modelled as one call at a time, writing in order.
- Authentication, the `users` collection and the role stored in `localStorage` are
  parameters (caller id, is-professor, is-admin, role).
- Zod parsing, ISO date strings, `parseISO`, time zones and `addWeeks` across daylight
  changes: times are already integer milliseconds, and a week is a fixed 7·24·60 minutes.
- Server timestamps (`createdAt`, `updatedAt`, `Timestamp.now()`): they are not stored.
  Where the code stamps a time, the model uses the `now` parameter.
- The building and floor copied onto a check-in record, `userEmail`, and the
  "Unknown …" fallbacks: they are display fields.
- The order of `Object.entries` for integer-like room names: rooms are visited in
  first-seen order.
- UTF-16 string lengths: strings are sequences of characters, and lengths count characters.
- A scan in check-out mode with no check-in id in the navigation state is not modelled:
  the mode always carries an id.
- The listing of `src/pages/professor/ReservationPage.tsx` (lines 56-84): its query adds
  `status != 'cancelled'`, an inequality filter, so the store returns entries ordered by
  status, then id, and the stable sort keeps that order among equal start times. The
  model's listing is that of `ReservationsPage.tsx`, where ties stay in id order.
- `fetchRoomSchedules` (the room view with professor names) and the page rendering, PDF
  export and toasts are not modelled.
- Sweepers.SweeperAutoFinalize: the source keeps adding to a `WriteBatch` after
  committing it. The model treats each commit as a fresh batch.
- Sweepers.SweeperAutoNoShow: the source keeps adding to its one `const batch` after
  committing it at 500 writes (`functions/src/sweepers.ts:23,48-50`), which the store
  would refuse. The model treats each commit as a fresh batch, and the error the store
  would throw, with the `catch` that logs it, is not modelled.
- ReservationForm.FetchMySchedules: the signed-out early return is not modelled, and
  only a missing room is modelled as a failure.
- ReservationForm.SubmitReservation: the catch-all "Failed to create reservation" path
  is not modelled.
- StatusService.GetReservationsEndingSoon: the catch that returns an empty list is not
  modelled. The default of 10 minutes is the constant `DefaultWarningMinutes`, not a
  default argument.
- Reports.FetchReservationData: the updates returned by auto-complete are discarded, as
  in the source.
