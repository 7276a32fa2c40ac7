/** Faculty check-in and check-out by QR scan (functions/src/checkins.ts).
    A check-in moves the caller's reservation that is inside its window to
    IN_SESSION and appends a CHECK_IN event; a check-out completes the
    caller's open session in that room and appends a CHECK_OUT event. The
    two writes of each handler happen in one transaction, so they are one
    assignment step here. */
module Checkins {
  import opened Wrappers
  import opened Models
  import opened Errors
  import opened Store
  import TimeUtils
  import Reservations

  const WindowBefore: int := 10
  const WindowAfter: int := 15

  /** The server's check-in window: from 10 minutes before the start to 15
      minutes after it, both ends included. */
  predicate InCheckInWindow(startAt: int, now: int) {
    startAt - WindowBefore * TimeUtils.MinuteMs <= now <= startAt + WindowAfter * TimeUtils.MinuteMs
  }

  /** The server window and the client's time rule describe the same instants. */
  lemma ServerWindowMatchesTimeRule(startAt: int, now: int)
    ensures InCheckInWindow(startAt, now) <==> TimeUtils.IsWithinCheckInWindow(startAt, now)
  {
  }

  /** Returned by the check-in query: the caller's open, scheduled reservation of this room. */
  predicate IsCheckInCandidate(r: Reservation, roomId: RoomId, userId: UserId) {
    r.roomId == roomId && r.userId == userId && r.status == Scheduled && !r.closed
  }

  predicate CanCheckInto(m: map<Id, Reservation>, id: Id, roomId: RoomId, userId: UserId, now: int)
    requires id in m
  {
    IsCheckInCandidate(m[id], roomId, userId) && InCheckInWindow(m[id].startAt, now)
  }

  predicate HasCheckInTarget(m: map<Id, Reservation>, roomId: RoomId, userId: UserId, now: int) {
    exists id :: id in m && CanCheckInto(m, id, roomId, userId, now)
  }

  predicate HasOpenSession(m: map<Id, Reservation>, roomId: RoomId, userId: UserId) {
    exists id :: id in m && IsOpenSession(m[id], roomId, userId)
  }

  /** Scans the candidates in query order (ascending id, all ids below `bound`)
      and returns the first one whose start puts `now` in the check-in window. */
  method FindActiveReservation(m: map<Id, Reservation>, bound: nat, roomId: RoomId, userId: UserId, now: int)
    returns (found: Option<Id>)
    requires forall id :: id in m ==> id < bound
    ensures found.Some? ==> found.value in m && CanCheckInto(m, found.value, roomId, userId, now)
    ensures found.Some? ==> forall j :: j in m && j < found.value ==> !CanCheckInto(m, j, roomId, userId, now)
    ensures found.None? <==> !HasCheckInTarget(m, roomId, userId, now)
  {
    for id := 0 to bound
      invariant forall j :: j in m && j < id ==> !CanCheckInto(m, j, roomId, userId, now)
    {
      if id in m && IsCheckInCandidate(m[id], roomId, userId) && InCheckInWindow(m[id].startAt, now) {
        return Some(id);
      }
    }
    return None;
  }

  /** The first open session of the caller in the room among ids lo..hi-1
      (the query is limited to one result). */
  function FirstOpenSession(m: map<Id, Reservation>, roomId: RoomId, userId: UserId, lo: nat, hi: nat): (s: Option<Id>)
    decreases hi - lo
    ensures s.Some? ==> lo <= s.value < hi && s.value in m && IsOpenSession(m[s.value], roomId, userId)
    ensures s.Some? ==> forall j :: lo <= j < s.value && j in m ==> !IsOpenSession(m[j], roomId, userId)
    ensures s.None? ==> forall j :: lo <= j < hi && j in m ==> !IsOpenSession(m[j], roomId, userId)
  {
    if lo >= hi then None
    else if lo in m && IsOpenSession(m[lo], roomId, userId) then Some(lo)
    else FirstOpenSession(m, roomId, userId, lo + 1, hi)
  }

  /** The current-session lookup over a whole store whose ids are below `bound`. */
  function FindCurrentSession(m: map<Id, Reservation>, bound: nat, roomId: RoomId, userId: UserId): (s: Option<Id>)
    requires forall id :: id in m ==> id < bound
    ensures s.None? <==> !HasOpenSession(m, roomId, userId)
    ensures s.Some? ==> s.value in m && IsOpenSession(m[s.value], roomId, userId)
  {
    FirstOpenSession(m, roomId, userId, 0, bound)
  }

  // ---------------------------------------------------------------- check-in

  datatype CheckInReceipt = CheckInReceipt(checkInId: Id, reservationId: Id, startTime: int)

  const CheckInSchemaPrefix := "Invalid check-in data: "
  const CheckInInternal := "Failed to process check-in"

  /** The first guard inside check-in's `try` that fails, in the handler's order. */
  function CheckInFault(rooms: map<RoomId, Room>, m: map<Id, Reservation>, userId: UserId, roomId: RoomId, now: int): Option<Fault> {
    if roomId == "" then Some(SchemaError(["Room ID is required"]))
    else if !Reservations.IsRoomAvailable(rooms, roomId) then Some(Raised(HttpsError(FailedPrecondition, "Room is not available")))
    else if HasOpenSession(m, roomId, userId) then Some(Raised(HttpsError(FailedPrecondition, "You already have an active session")))
    else if !HasCheckInTarget(m, roomId, userId, now) then Some(Raised(HttpsError(FailedPrecondition, "No valid reservation found for check-in")))
    else None
  }

  /** The reservation a check-in writes. */
  function Started(r: Reservation): Reservation {
    r.(status := InSession)
  }

  /** A check-in is a legal lifecycle step, keeps the room held over the same
      interval, and never creates a second open session in that room. */
  lemma {:induction false} CheckInKeepsInvariants(m: map<Id, Reservation>, id: Id, roomId: RoomId, userId: UserId, now: int)
    requires NoDoubleBooking(m) && WellFormed(m) && OneSessionPerRoom(m)
    requires id in m && CanCheckInto(m, id, roomId, userId, now)
    requires !HasOpenSession(m, roomId, userId)
    ensures Advances(m[id], Started(m[id]))
    ensures NoDoubleBooking(m[id := Started(m[id])]) && WellFormed(m[id := Started(m[id])])
    ensures OneSessionPerRoom(m[id := Started(m[id])])
  {
    Reservations.HolderHasNoConflict(m, id);
    Reservations.PutKeepsNoDoubleBooking(m, id, Started(m[id]));
    var m' := m[id := Started(m[id])];
    forall a, b | a in m' && b in m' && a != b && IsOpenSession(m'[a], m'[a].roomId, m'[a].userId)
      ensures !IsOpenSession(m'[b], m'[a].roomId, m'[a].userId)
    {
      if a == id {
        assert !IsOpenSession(m[b], roomId, userId);
      }
    }
  }

  method FacultyCheckin(db: Db, caller: Option<UserId>, isProfessor: bool, roomId: RoomId, now: int)
    returns (r: Result<CheckInReceipt, HttpsError>)
    requires db.Valid()
    modifies db
    ensures db.Valid()
    ensures r.Failure? ==> unchanged(db)
    ensures caller.None? ==> r == Failure(HttpsError(Unauthenticated, "User must be authenticated"))
    ensures caller.Some? && !isProfessor ==> r == Failure(HttpsError(PermissionDenied, "Only professors can check in"))
    ensures caller.Some? && isProfessor ==>
      match CheckInFault(old(db.rooms), old(db.reservations), caller.value, roomId, now)
      case Some(f) => r == Failure(Rethrow(f, CheckInSchemaPrefix, CheckInInternal))
      case None =>
        && r.Success?
        && var id := r.value.reservationId;
        && id in old(db.reservations)
        && CanCheckInto(old(db.reservations), id, roomId, caller.value, now)
        && (forall j :: j in old(db.reservations) && j < id ==> !CanCheckInto(old(db.reservations), j, roomId, caller.value, now))
        && r.value == CheckInReceipt(|old(db.checkins)|, id, old(db.reservations)[id].startAt)
        && db.reservations == old(db.reservations)[id := Started(old(db.reservations)[id])]
        && db.checkins == old(db.checkins) + [FacultyCheckIn(|old(db.checkins)|, id, caller.value, roomId, CheckIn, QR, now)]
        && db.rooms == old(db.rooms) && db.nextId == old(db.nextId)
  {
    if caller.None? {
      return Failure(HttpsError(Unauthenticated, "User must be authenticated"));
    }
    if !isProfessor {
      return Failure(HttpsError(PermissionDenied, "Only professors can check in"));
    }
    var userId := caller.value;
    if roomId == "" {
      return Failure(Rethrow(SchemaError(["Room ID is required"]), CheckInSchemaPrefix, CheckInInternal));
    }
    if !Reservations.IsRoomAvailable(db.rooms, roomId) {
      return Failure(Rethrow(Raised(HttpsError(FailedPrecondition, "Room is not available")), CheckInSchemaPrefix, CheckInInternal));
    }
    var session := FindCurrentSession(db.reservations, db.nextId, roomId, userId);
    if session.Some? {
      return Failure(Rethrow(Raised(HttpsError(FailedPrecondition, "You already have an active session")), CheckInSchemaPrefix, CheckInInternal));
    }
    var target := FindActiveReservation(db.reservations, db.nextId, roomId, userId, now);
    if target.None? {
      return Failure(Rethrow(Raised(HttpsError(FailedPrecondition, "No valid reservation found for check-in")), CheckInSchemaPrefix, CheckInInternal));
    }
    var id := target.value;
    var startTime := db.reservations[id].startAt;
    var eventId := |db.checkins|;
    Reservations.HolderHasNoConflict(db.reservations, id);
    Reservations.PutKeepsNoDoubleBooking(db.reservations, id, Started(db.reservations[id]));
    db.checkins := db.checkins + [FacultyCheckIn(eventId, id, userId, roomId, CheckIn, QR, now)];
    db.reservations := db.reservations[id := Started(db.reservations[id])];
    return Success(CheckInReceipt(eventId, id, startTime));
  }

  // ---------------------------------------------------------------- check-out

  datatype CheckOutReceipt = CheckOutReceipt(checkOutId: Id, reservationId: Id, endTime: int)

  const CheckOutSchemaPrefix := "Invalid check-out data: "
  const CheckOutInternal := "Failed to process check-out"

  /** The reservation a check-out writes. */
  function Completed(r: Reservation, now: int): Reservation {
    r.(status := Models.Completed, closed := true, finalizedAt := Some(now))
  }

  /** A check-out is a legal lifecycle step that releases the room, and the
      check-out instant is recorded both as the event time and as finalizedAt. */
  lemma CheckOutCompletesSession(r: Reservation, roomId: RoomId, userId: UserId, now: int)
    requires IsOpenSession(r, roomId, userId)
    ensures Advances(r, Completed(r, now))
    ensures !Holds(Completed(r, now)) && Completed(r, now).closed
    ensures Completed(r, now).finalizedAt == Some(now)
    ensures !IsOpenSession(Completed(r, now), roomId, userId)
  {
  }

  method FacultyCheckout(db: Db, caller: Option<UserId>, isProfessor: bool, roomId: RoomId, now: int)
    returns (r: Result<CheckOutReceipt, HttpsError>)
    requires db.Valid()
    modifies db
    ensures db.Valid()
    ensures r.Failure? ==> unchanged(db)
    ensures caller.None? ==> r == Failure(HttpsError(Unauthenticated, "User must be authenticated"))
    ensures caller.Some? && !isProfessor ==> r == Failure(HttpsError(PermissionDenied, "Only professors can check out"))
    ensures caller.Some? && isProfessor && roomId == "" ==>
      r == Failure(Rethrow(SchemaError(["Room ID is required"]), CheckOutSchemaPrefix, CheckOutInternal))
    ensures caller.Some? && isProfessor && roomId != "" ==>
      match FindCurrentSession(old(db.reservations), old(db.nextId), roomId, caller.value)
      case None => r == Failure(HttpsError(Internal, CheckOutInternal))
      case Some(id) =>
        && r == Success(CheckOutReceipt(|old(db.checkins)|, id, now))
        && db.reservations == old(db.reservations)[id := Completed(old(db.reservations)[id], now)]
        && db.checkins == old(db.checkins) + [FacultyCheckIn(|old(db.checkins)|, id, caller.value, roomId, CheckOut, QR, now)]
        && db.rooms == old(db.rooms) && db.nextId == old(db.nextId)
  {
    if caller.None? {
      return Failure(HttpsError(Unauthenticated, "User must be authenticated"));
    }
    if !isProfessor {
      return Failure(HttpsError(PermissionDenied, "Only professors can check out"));
    }
    var userId := caller.value;
    if roomId == "" {
      return Failure(Rethrow(SchemaError(["Room ID is required"]), CheckOutSchemaPrefix, CheckOutInternal));
    }
    var session := FindCurrentSession(db.reservations, db.nextId, roomId, userId);
    if session.None? {
      return Failure(Rethrow(Raised(HttpsError(FailedPrecondition, "No active session found")), CheckOutSchemaPrefix, CheckOutInternal));
    }
    var id := session.value;
    var eventId := |db.checkins|;
    Reservations.PutKeepsNoDoubleBooking(db.reservations, id, Completed(db.reservations[id], now));
    db.checkins := db.checkins + [FacultyCheckIn(eventId, id, userId, roomId, CheckOut, QR, now)];
    db.reservations := db.reservations[id := Completed(db.reservations[id], now)];
    return Success(CheckOutReceipt(eventId, id, now));
  }
}
