/** The professor's QR scanner page (src/pages/professor/ScannerPage.tsx):
    parsing a room payload, finding the schedule a check-in belongs to, and
    writing or closing the caller's client-side check-in record. The page's
    mode (check-in, or check-out of a given record) comes from its navigation
    state and is a parameter here, as is the clock reading `now`. */
module Scanner {
  import opened Wrappers
  import opened Schedules
  import opened Strings

  /** The prefix of every room payload; the admin page encodes room `id` as
      `room-<id>` (src/pages/admin/RoomQRPage.tsx). */
  const RoomPrefix := "room-"

  const NotSignedInError := "You must be logged in to scan rooms"
  const InvalidQrError := "Invalid QR code. Please scan a valid room QR code."
  const RoomNotFoundError := "Room not found. Please try again."
  const NoSessionsError := "You do not have any scheduled sessions in this room."
  const NoActiveScheduleError := "No active schedule found for current time."
  const WrongRoomError := "Please scan the same room you checked into"
  const AlreadyActiveError := "You already have an active check-in. Please check-out first."

  // ---------------------------------------------------------------- payload

  /** The room id a payload names, when it has the room prefix. */
  function ParseRoomId(qrData: string): Option<RoomId> {
    if StartsWith(qrData, RoomPrefix) then Some(ReplaceFirst(qrData, RoomPrefix, "")) else None
  }

  function QrPayload(roomId: RoomId): string {
    RoomPrefix + roomId
  }

  /** An accepted payload names exactly the text after the prefix. */
  lemma ParsedIdIsRemainder(qrData: string)
    ensures ParseRoomId(qrData).Some? <==> StartsWith(qrData, RoomPrefix)
    ensures StartsWith(qrData, RoomPrefix) ==> ParseRoomId(qrData) == Some(qrData[|RoomPrefix|..])
  {
    if StartsWith(qrData, RoomPrefix) {
      ReplacePrefix(qrData, RoomPrefix);
    }
  }

  /** Parsing undoes the generator, and every accepted payload is the
      generator's output for the id it names. */
  lemma PayloadRoundTrip(roomId: RoomId, qrData: string)
    ensures ParseRoomId(QrPayload(roomId)) == Some(roomId)
    ensures ParseRoomId(qrData).Some? ==> QrPayload(ParseRoomId(qrData).value) == qrData
  {
    ParsedIdIsRemainder(QrPayload(roomId));
    assert QrPayload(roomId)[|RoomPrefix|..] == roomId;
    ParsedIdIsRemainder(qrData);
    if StartsWith(qrData, RoomPrefix) {
      assert qrData == qrData[..|RoomPrefix|] + qrData[|RoomPrefix|..];
    }
  }

  /** A document id the store accepts in `rooms/<id>`: non-empty and without a slash. */
  predicate IsDocumentId(id: string) {
    id != "" && '/' !in id
  }

  // ---------------------------------------------------------------- schedule window

  /** A 'scheduled' entry of this room and professor: what the page queries. */
  predicate IsOwnScheduled(s: RoomSchedule, roomId: RoomId, professorId: UserId) {
    s.roomId == roomId && s.professorId == professorId && s.status == Scheduled
  }

  /** From 30 minutes before the start to the end, both inclusive. */
  predicate InScanWindow(s: RoomSchedule, now: int) {
    s.startTime - CheckInEarlyBuffer * MinuteMs <= now <= s.endTime
  }

  /** The first (lowest id) own scheduled entry in the window among ids `lo` .. `hi - 1`. */
  function FirstInWindow(m: map<Id, RoomSchedule>, roomId: RoomId, professorId: UserId, now: int, lo: nat, hi: nat): (r: Option<Id>)
    decreases hi - lo
    ensures r.Some? ==> lo <= r.value < hi && r.value in m
    ensures r.Some? ==> IsOwnScheduled(m[r.value], roomId, professorId) && InScanWindow(m[r.value], now)
    ensures r.Some? ==> forall j :: lo <= j < r.value && j in m && IsOwnScheduled(m[j], roomId, professorId) ==> !InScanWindow(m[j], now)
    ensures r.None? ==> forall j :: lo <= j < hi && j in m && IsOwnScheduled(m[j], roomId, professorId) ==> !InScanWindow(m[j], now)
  {
    if lo >= hi then None
    else if lo in m && IsOwnScheduled(m[lo], roomId, professorId) && InScanWindow(m[lo], now) then Some(lo)
    else FirstInWindow(m, roomId, professorId, now, lo + 1, hi)
  }

  predicate HasOwnScheduled(m: map<Id, RoomSchedule>, roomId: RoomId, professorId: UserId) {
    exists id :: id in m && IsOwnScheduled(m[id], roomId, professorId)
  }

  /** The schedule a check-in scan belongs to, or the message that refuses it. */
  function ValidateSchedule(m: map<Id, RoomSchedule>, bound: nat, roomId: RoomId, professorId: UserId, now: int): (r: Result<Id, string>)
    ensures r.Failure? ==> r.error == NoSessionsError || r.error == NoActiveScheduleError
    ensures r.Success? ==> r.value in m && IsOwnScheduled(m[r.value], roomId, professorId) && InScanWindow(m[r.value], now)
  {
    if !HasOwnScheduled(m, roomId, professorId) then Failure(NoSessionsError)
    else match FirstInWindow(m, roomId, professorId, now, 0, bound)
      case None => Failure(NoActiveScheduleError)
      case Some(id) => Success(id)
  }

  /** With every id below the bound, validation succeeds exactly when some own
      scheduled entry is in the window, and it reports the missing entry before
      the missed window. */
  lemma ValidateScheduleIsExact(m: map<Id, RoomSchedule>, bound: nat, roomId: RoomId, professorId: UserId, now: int)
    requires forall id :: id in m ==> id < bound
    ensures ValidateSchedule(m, bound, roomId, professorId, now).Success? <==>
      exists id :: id in m && IsOwnScheduled(m[id], roomId, professorId) && InScanWindow(m[id], now)
    ensures ValidateSchedule(m, bound, roomId, professorId, now) == Failure(NoSessionsError) <==>
      !HasOwnScheduled(m, roomId, professorId)
  {
    if exists id :: id in m && IsOwnScheduled(m[id], roomId, professorId) && InScanWindow(m[id], now) {
      var id :| id in m && IsOwnScheduled(m[id], roomId, professorId) && InScanWindow(m[id], now);
      assert id < bound;
    }
  }

  // ---------------------------------------------------------------- scan

  datatype ScanMode = CheckInMode | CheckOutMode(checkInId: Id)

  datatype ScanOutcome =
    | ScanFailed(message: string) // the toast shown; nothing written
    | PathRejected                // the store refuses the room path; its message is not modelled
    | CheckedIn(checkInId: Id)
    | CheckedOut(checkInId: Id)

  predicate HasActiveCheckIn(checkIns: map<Id, CheckInRecord>, userId: UserId) {
    exists id :: id in checkIns && checkIns[id].userId == userId && checkIns[id].status == Active
  }

  function ClosedCheckIn(c: CheckInRecord, now: int): CheckInRecord {
    c.(checkOutTime := Some(now), status := Done)
  }

  /** The first check that refuses the scan, in the page's order. */
  function ScanFault(schedules: map<Id, RoomSchedule>, checkIns: map<Id, CheckInRecord>, rooms: map<RoomId, ClientRoom>,
                     bound: nat, caller: Option<UserId>, qrData: string, mode: ScanMode, now: int): Option<ScanOutcome>
  {
    if caller.None? then Some(ScanFailed(NotSignedInError))
    else if !StartsWith(qrData, RoomPrefix) then Some(ScanFailed(InvalidQrError))
    else
      var roomId := ParseRoomId(qrData).value;
      if !IsDocumentId(roomId) then Some(PathRejected)
      else if roomId !in rooms then Some(ScanFailed(RoomNotFoundError))
      else match mode
        case CheckInMode =>
          var v := ValidateSchedule(schedules, bound, roomId, caller.value, now);
          if v.Failure? then Some(ScanFailed(v.error))
          else if HasActiveCheckIn(checkIns, caller.value) then Some(ScanFailed(AlreadyActiveError))
          else None
        case CheckOutMode(id) =>
          if id !in checkIns || checkIns[id].roomId != roomId then Some(ScanFailed(WrongRoomError))
          else None
  }

  method HandleScan(db: ClientDb, caller: Option<UserId>, qrData: string, mode: ScanMode, now: int) returns (outcome: ScanOutcome)
    requires db.Valid()
    modifies db
    ensures db.Valid()
    ensures db.schedules == old(db.schedules) && db.rooms == old(db.rooms)
    ensures var fault := ScanFault(old(db.schedules), old(db.checkIns), old(db.rooms), old(db.nextId), caller, qrData, mode, now);
      && (fault.Some? ==> outcome == fault.value && unchanged(db))
      && (fault.None? && mode.CheckInMode? ==>
            var roomId := ParseRoomId(qrData).value;
            && outcome == CheckedIn(old(db.nextId))
            && db.checkIns == old(db.checkIns)[old(db.nextId) :=
                 CheckInRecord(caller.value, roomId, old(db.rooms)[roomId].name, now, None, Active)]
            && db.nextId == old(db.nextId) + 1)
      && (fault.None? && mode.CheckOutMode? ==>
            && outcome == CheckedOut(mode.checkInId)
            && db.checkIns == old(db.checkIns)[mode.checkInId := ClosedCheckIn(old(db.checkIns)[mode.checkInId], now)]
            && db.nextId == old(db.nextId))
  {
    if caller.None? {
      return ScanFailed(NotSignedInError);
    }
    if !StartsWith(qrData, RoomPrefix) {
      return ScanFailed(InvalidQrError);
    }
    var roomId := ReplaceFirst(qrData, RoomPrefix, "");
    if roomId == "" || '/' in roomId {
      return PathRejected;
    }
    if roomId !in db.rooms {
      return ScanFailed(RoomNotFoundError);
    }
    if mode.CheckInMode? {
      var v := ValidateSchedule(db.schedules, db.nextId, roomId, caller.value, now);
      if v.Failure? {
        return ScanFailed(v.error);
      }
    }
    if mode.CheckOutMode? {
      var id := mode.checkInId;
      if id !in db.checkIns || db.checkIns[id].roomId != roomId {
        return ScanFailed(WrongRoomError);
      }
      db.checkIns := db.checkIns[id := ClosedCheckIn(db.checkIns[id], now)];
      return CheckedOut(id);
    } else {
      if HasActiveCheckIn(db.checkIns, caller.value) {
        return ScanFailed(AlreadyActiveError);
      }
      var id := db.nextId;
      db.checkIns := db.checkIns[id := CheckInRecord(caller.value, roomId, db.rooms[roomId].name, now, None, Active)];
      db.nextId := id + 1;
      return CheckedIn(id);
    }
  }

  /** Check-out scans never look at the schedules: two stores that differ only
      in their schedules refuse or accept the same check-out scans. */
  lemma CheckOutIgnoresSchedules(s1: map<Id, RoomSchedule>, s2: map<Id, RoomSchedule>, checkIns: map<Id, CheckInRecord>,
                                 rooms: map<RoomId, ClientRoom>, b1: nat, b2: nat, caller: Option<UserId>, qrData: string, id: Id, now: int)
    ensures ScanFault(s1, checkIns, rooms, b1, caller, qrData, CheckOutMode(id), now) ==
            ScanFault(s2, checkIns, rooms, b2, caller, qrData, CheckOutMode(id), now)
  {
  }

  /** An accepted check-in scan had a schedule in its window and no open
      check-in anywhere; an accepted check-out scan names a record of the
      scanned room. */
  lemma AcceptedScanGuards(schedules: map<Id, RoomSchedule>, checkIns: map<Id, CheckInRecord>, rooms: map<RoomId, ClientRoom>,
                           bound: nat, caller: Option<UserId>, qrData: string, mode: ScanMode, now: int)
    requires ScanFault(schedules, checkIns, rooms, bound, caller, qrData, mode, now).None?
    ensures caller.Some? && ParseRoomId(qrData).Some? && ParseRoomId(qrData).value in rooms
    ensures qrData == QrPayload(ParseRoomId(qrData).value)
    ensures mode.CheckInMode? ==> !HasActiveCheckIn(checkIns, caller.value)
    ensures mode.CheckInMode? ==>
      exists id :: id in schedules && IsOwnScheduled(schedules[id], ParseRoomId(qrData).value, caller.value) && InScanWindow(schedules[id], now)
    ensures mode.CheckOutMode? ==> mode.checkInId in checkIns && checkIns[mode.checkInId].roomId == ParseRoomId(qrData).value
  {
    PayloadRoundTrip("", qrData);
    if mode.CheckInMode? {
      var v := ValidateSchedule(schedules, bound, ParseRoomId(qrData).value, caller.value, now);
      assert v.Success?;
    }
  }

  /** Once a check-in is written, scanning again to check in is refused until
      the record is checked out. */
  lemma SecondCheckInIsRefused(schedules: map<Id, RoomSchedule>, checkIns: map<Id, CheckInRecord>, rooms: map<RoomId, ClientRoom>,
                               bound: nat, caller: Option<UserId>, qrData: string, now: int, later: int)
    requires ScanFault(schedules, checkIns, rooms, bound, caller, qrData, CheckInMode, now).None?
    requires bound !in checkIns
    ensures var roomId := ParseRoomId(qrData).value;
      var checkIns' := checkIns[bound := CheckInRecord(caller.value, roomId, rooms[roomId].name, now, None, Active)];
      ScanFault(schedules, checkIns', rooms, bound + 1, caller, qrData, CheckInMode, later) != None
  {
    var roomId := ParseRoomId(qrData).value;
    var checkIns' := checkIns[bound := CheckInRecord(caller.value, roomId, rooms[roomId].name, now, None, Active)];
    assert HasActiveCheckIn(checkIns', caller.value) by {
      assert bound in checkIns' && checkIns'[bound].userId == caller.value;
    }
  }
}
