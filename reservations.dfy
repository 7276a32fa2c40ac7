/** The booking gateway (functions/src/reservations.ts): the conflict query,
    room availability, and the create, update and cancel handlers. The caller's
    identity and whether the users collection records them as a professor are
    parameters; the clock reading that stands for the server timestamp is `now`. */
module Reservations {
  import opened Wrappers
  import opened Models
  import opened Errors
  import opened Store

  /** Stored reservation `id` is returned by the conflict query for
      [startAt, endAt) in `roomId` and survives the filter applied to it. */
  predicate ConflictsWith(m: map<Id, Reservation>, id: Id, roomId: RoomId, startAt: int, endAt: int, exclude: Option<Id>)
    requires id in m
  {
    var r := m[id];
    // the query: same room, SCHEDULED or IN_SESSION, starts before the new end, ends after the new start
    r.roomId == roomId && (r.status == Scheduled || r.status == InSession) &&
    r.startAt < endAt && r.endAt > startAt &&
    // the filter on its results: not the excluded document, not closed
    exclude != Some(id) && !r.closed
  }

  predicate HasConflictingReservation(m: map<Id, Reservation>, roomId: RoomId, startAt: int, endAt: int, exclude: Option<Id>) {
    exists id :: id in m && ConflictsWith(m, id, roomId, startAt, endAt, exclude)
  }

  predicate IsRoomAvailable(rooms: map<RoomId, Room>, roomId: RoomId) {
    roomId in rooms && !rooms[roomId].isRetired
  }

  /** The conflict check finds exactly the other reservations that still hold
      the room over an overlapping half-open interval. */
  lemma ConflictMeansOverlapWithHolder(m: map<Id, Reservation>, roomId: RoomId, startAt: int, endAt: int, exclude: Option<Id>)
    ensures HasConflictingReservation(m, roomId, startAt, endAt, exclude) <==>
      exists id :: id in m && exclude != Some(id) && Holds(m[id]) && m[id].roomId == roomId &&
        Overlaps(startAt, endAt, m[id].startAt, m[id].endAt)
  {
  }

  /** A reservation that only touches [startAt, endAt) at an endpoint never
      turns the answer of the conflict check into a conflict. */
  lemma {:induction false} TouchingNeverConflicts(m: map<Id, Reservation>, id: Id, r: Reservation, roomId: RoomId, startAt: int, endAt: int, exclude: Option<Id>)
    requires id !in m
    requires r.endAt <= startAt || r.startAt >= endAt
    ensures HasConflictingReservation(m[id := r], roomId, startAt, endAt, exclude)
        == HasConflictingReservation(m, roomId, startAt, endAt, exclude)
  {
    var m' := m[id := r];
    if HasConflictingReservation(m', roomId, startAt, endAt, exclude) {
      var w :| w in m' && ConflictsWith(m', w, roomId, startAt, endAt, exclude);
      assert w != id;
      assert w in m && ConflictsWith(m, w, roomId, startAt, endAt, exclude);
    }
    if HasConflictingReservation(m, roomId, startAt, endAt, exclude) {
      var w :| w in m && ConflictsWith(m, w, roomId, startAt, endAt, exclude);
      assert w in m' && ConflictsWith(m', w, roomId, startAt, endAt, exclude);
    }
  }

  /** Excluding a document is the same as leaving it out of the store. */
  lemma {:induction false} ExcludingIsRemoving(m: map<Id, Reservation>, id: Id, roomId: RoomId, startAt: int, endAt: int)
    ensures HasConflictingReservation(m, roomId, startAt, endAt, Some(id))
        == HasConflictingReservation(m - {id}, roomId, startAt, endAt, None)
  {
    var m' := m - {id};
    if HasConflictingReservation(m, roomId, startAt, endAt, Some(id)) {
      var w :| w in m && ConflictsWith(m, w, roomId, startAt, endAt, Some(id));
      assert w in m' && ConflictsWith(m', w, roomId, startAt, endAt, None);
    }
    if HasConflictingReservation(m', roomId, startAt, endAt, None) {
      var w :| w in m' && ConflictsWith(m', w, roomId, startAt, endAt, None);
      assert w in m && ConflictsWith(m, w, roomId, startAt, endAt, Some(id));
    }
  }

  /** In a store without double bookings, a reservation that holds its room
      does not conflict with anything over its own interval once it is
      excluded: an update that keeps its times is not rejected by its own record. */
  lemma HolderHasNoConflict(m: map<Id, Reservation>, id: Id)
    requires NoDoubleBooking(m) && id in m && Holds(m[id])
    ensures !HasConflictingReservation(m, m[id].roomId, m[id].startAt, m[id].endAt, Some(id))
  {
    var r := m[id];
    forall w | w in m
      ensures !ConflictsWith(m, w, r.roomId, r.startAt, r.endAt, Some(id))
    {
      if w != id && Holds(m[w]) && m[w].roomId == r.roomId {
        assert !Overlaps(r.startAt, r.endAt, m[w].startAt, m[w].endAt);
      }
    }
  }

  /** Writing a record that passed the conflict check (excluding its own id),
      or one that no longer holds its room, keeps the store free of double bookings. */
  lemma PutKeepsNoDoubleBooking(m: map<Id, Reservation>, id: Id, r: Reservation)
    requires NoDoubleBooking(m)
    requires Holds(r) ==> !HasConflictingReservation(m, r.roomId, r.startAt, r.endAt, Some(id))
    ensures NoDoubleBooking(m[id := r])
  {
    var m' := m[id := r];
    forall a, b | a in m' && b in m' && a != b && Holds(m'[a]) && Holds(m'[b]) && m'[a].roomId == m'[b].roomId
      ensures !Overlaps(m'[a].startAt, m'[a].endAt, m'[b].startAt, m'[b].endAt)
    {
      if a == id {
        assert !ConflictsWith(m, b, r.roomId, r.startAt, r.endAt, Some(id));
      } else if b == id {
        assert !ConflictsWith(m, a, r.roomId, r.startAt, r.endAt, Some(id));
      }
    }
  }

  // ---------------------------------------------------------------- create

  const NotSignedIn := HttpsError(Unauthenticated, "User must be authenticated")
  const TimeRangeError := HttpsError(InvalidArgument, "Start time must be before end time")
  const SlotTaken := HttpsError(FailedPrecondition, "Time slot is already booked")
  const CreateSchemaPrefix := "Invalid reservation data: "
  const CreateInternal := "Failed to create reservation"

  /** The first guard inside create's `try` that fails, in the handler's order:
      input schema, time range, room availability, conflict. */
  function CreateFault(rooms: map<RoomId, Room>, m: map<Id, Reservation>, roomId: RoomId, startAt: int, endAt: int): Option<Fault> {
    if roomId == "" then Some(SchemaError(["Room ID is required"]))
    else if startAt >= endAt then Some(Raised(TimeRangeError))
    else if !IsRoomAvailable(rooms, roomId) then Some(Raised(HttpsError(FailedPrecondition, "Room is not available")))
    else if HasConflictingReservation(m, roomId, startAt, endAt, None) then Some(Raised(SlotTaken))
    else None
  }

  /** Create accepts exactly a valid, free slot in an available room, and the
      guards fire in order: a bad time range is reported whatever the room,
      an unavailable room whatever the bookings. */
  lemma CreateGuardOrder(rooms: map<RoomId, Room>, m: map<Id, Reservation>, roomId: RoomId, startAt: int, endAt: int)
    ensures CreateFault(rooms, m, roomId, startAt, endAt) == None <==>
      roomId != "" && startAt < endAt && IsRoomAvailable(rooms, roomId) &&
      forall id :: id in m && Holds(m[id]) && m[id].roomId == roomId ==> !Overlaps(startAt, endAt, m[id].startAt, m[id].endAt)
    ensures roomId != "" && startAt >= endAt ==> CreateFault(rooms, m, roomId, startAt, endAt) == Some(Raised(TimeRangeError))
    ensures roomId != "" && startAt < endAt && !IsRoomAvailable(rooms, roomId) ==>
      CreateFault(rooms, m, roomId, startAt, endAt) == Some(Raised(HttpsError(FailedPrecondition, "Room is not available")))
  {
    ConflictMeansOverlapWithHolder(m, roomId, startAt, endAt, None);
  }

  method CreateReservation(db: Db, caller: Option<UserId>, isProfessor: bool, roomId: RoomId, startAt: int, endAt: int)
    returns (r: Result<Id, HttpsError>)
    requires db.Valid()
    modifies db
    ensures db.Valid()
    ensures r.Failure? ==> unchanged(db)
    ensures caller.None? ==> r == Failure(NotSignedIn)
    ensures caller.Some? && !isProfessor ==>
      r == Failure(HttpsError(PermissionDenied, "Only professors can create reservations"))
    ensures caller.Some? && isProfessor ==>
      match CreateFault(old(db.rooms), old(db.reservations), roomId, startAt, endAt)
      case Some(f) => r == Failure(Rethrow(f, CreateSchemaPrefix, CreateInternal))
      case None =>
        && r == Success(old(db.nextId))
        && db.reservations == old(db.reservations)[old(db.nextId) :=
             Reservation(roomId, caller.value, startAt, endAt, Scheduled, false, None)]
        && db.nextId == old(db.nextId) + 1
        && db.rooms == old(db.rooms) && db.checkins == old(db.checkins)
  {
    if caller.None? {
      return Failure(NotSignedIn);
    }
    if !isProfessor {
      return Failure(HttpsError(PermissionDenied, "Only professors can create reservations"));
    }
    var fault: Option<Fault> := None;
    if roomId == "" {
      fault := Some(SchemaError(["Room ID is required"]));
    } else if startAt >= endAt {
      fault := Some(Raised(TimeRangeError));
    } else if !IsRoomAvailable(db.rooms, roomId) {
      fault := Some(Raised(HttpsError(FailedPrecondition, "Room is not available")));
    } else if HasConflictingReservation(db.reservations, roomId, startAt, endAt, None) {
      fault := Some(Raised(SlotTaken));
    }
    if fault.Some? {
      return Failure(Rethrow(fault.value, CreateSchemaPrefix, CreateInternal));
    }
    var id := db.nextId;
    var record := Reservation(roomId, caller.value, startAt, endAt, Scheduled, false, None);
    ExcludingIsRemoving(db.reservations, id, roomId, startAt, endAt);
    assert db.reservations - {id} == db.reservations;
    PutKeepsNoDoubleBooking(db.reservations, id, record);
    db.reservations := db.reservations[id := record];
    db.nextId := db.nextId + 1;
    return Success(id);
  }

  // ---------------------------------------------------------------- update

  const UpdateSchemaPrefix := "Invalid update data: "
  const UpdateInternal := "Failed to update reservation"

  /** The stored record with the supplied times; an omitted time keeps the stored one. */
  function Rescheduled(r: Reservation, newStart: Option<int>, newEnd: Option<int>): Reservation {
    r.(startAt := newStart.GetOr(r.startAt), endAt := newEnd.GetOr(r.endAt))
  }

  /** The first guard inside update's `try` that fails, in the handler's order. */
  function UpdateFault(m: map<Id, Reservation>, caller: UserId, isProfessor: bool, reservationId: Option<Id>,
                       newStart: Option<int>, newEnd: Option<int>): Option<Fault>
  {
    if reservationId.None? then Some(SchemaError(["Reservation ID is required"]))
    else if reservationId.value !in m then Some(Raised(HttpsError(NotFound, "Reservation not found")))
    else
      var r := m[reservationId.value];
      if r.userId != caller then Some(Raised(HttpsError(PermissionDenied, "Can only update own reservations")))
      else if !isProfessor then Some(Raised(HttpsError(PermissionDenied, "Only professors can update reservations")))
      else if r.closed then Some(Raised(HttpsError(FailedPrecondition, "Cannot update a closed reservation")))
      else if r.status != Scheduled then Some(Raised(HttpsError(FailedPrecondition, "Can only update scheduled reservations")))
      else
        var s := Rescheduled(r, newStart, newEnd);
        if s.startAt >= s.endAt then Some(Raised(TimeRangeError))
        else if (newStart.Some? || newEnd.Some?) &&
                HasConflictingReservation(m, r.roomId, s.startAt, s.endAt, reservationId)
        then Some(Raised(SlotTaken))
        else None
  }

  /** Only the owner may update, and only an open, scheduled reservation. */
  lemma UpdateRejectsForeignOrSettled(m: map<Id, Reservation>, caller: UserId, isProfessor: bool, id: Id,
                                      newStart: Option<int>, newEnd: Option<int>)
    requires id in m
    requires m[id].userId != caller || m[id].closed || m[id].status != Scheduled
    ensures UpdateFault(m, caller, isProfessor, Some(id), newStart, newEnd).Some?
  {
  }

  /** Resubmitting a reservation's own times is never rejected by its own record. */
  lemma UpdateKeepingTimesIsAccepted(m: map<Id, Reservation>, id: Id)
    requires NoDoubleBooking(m) && WellFormed(m)
    requires id in m && m[id].status == Scheduled && !m[id].closed
    ensures UpdateFault(m, m[id].userId, true, Some(id), Some(m[id].startAt), Some(m[id].endAt)) == None
  {
    HolderHasNoConflict(m, id);
  }

  /** An accepted update never double-books: it keeps the store free of
      overlapping bookings, whether or not the conflict check ran. */
  lemma UpdateNeverDoubleBooks(m: map<Id, Reservation>, caller: UserId, isProfessor: bool, id: Id,
                               newStart: Option<int>, newEnd: Option<int>)
    requires NoDoubleBooking(m) && WellFormed(m) && id in m
    requires UpdateFault(m, caller, isProfessor, Some(id), newStart, newEnd) == None
    ensures NoDoubleBooking(m[id := Rescheduled(m[id], newStart, newEnd)])
    ensures WellFormed(m[id := Rescheduled(m[id], newStart, newEnd)])
  {
    var s := Rescheduled(m[id], newStart, newEnd);
    if newStart.None? && newEnd.None? {
      assert s == m[id];
      HolderHasNoConflict(m, id);
    }
    PutKeepsNoDoubleBooking(m, id, s);
  }

  /** Update accepts exactly an open, scheduled reservation of a professor
      caller whose rescheduled times form a valid range that, when a time was
      supplied, overlaps no other holder in its room; and the guards fire in
      order: ownership before role, state before times, times before conflicts. */
  lemma UpdateGuardOrder(m: map<Id, Reservation>, caller: UserId, isProfessor: bool, reservationId: Option<Id>,
                         newStart: Option<int>, newEnd: Option<int>)
    ensures UpdateFault(m, caller, isProfessor, reservationId, newStart, newEnd) == None <==>
      && reservationId.Some? && reservationId.value in m
      && m[reservationId.value].userId == caller && isProfessor
      && !m[reservationId.value].closed && m[reservationId.value].status == Scheduled
      && newStart.GetOr(m[reservationId.value].startAt) < newEnd.GetOr(m[reservationId.value].endAt)
      && ((newStart.None? && newEnd.None?) ||
          forall id :: id in m && id != reservationId.value && Holds(m[id]) && m[id].roomId == m[reservationId.value].roomId ==>
            !Overlaps(newStart.GetOr(m[reservationId.value].startAt), newEnd.GetOr(m[reservationId.value].endAt),
                      m[id].startAt, m[id].endAt))
    ensures reservationId.Some? && reservationId.value in m && m[reservationId.value].userId != caller ==>
      UpdateFault(m, caller, isProfessor, reservationId, newStart, newEnd) ==
        Some(Raised(HttpsError(PermissionDenied, "Can only update own reservations")))
    ensures reservationId.Some? && reservationId.value in m && m[reservationId.value].userId == caller && isProfessor &&
            !m[reservationId.value].closed && m[reservationId.value].status == Scheduled &&
            newStart.GetOr(m[reservationId.value].startAt) >= newEnd.GetOr(m[reservationId.value].endAt) ==>
      UpdateFault(m, caller, isProfessor, reservationId, newStart, newEnd) == Some(Raised(TimeRangeError))
  {
    if reservationId.Some? && reservationId.value in m {
      var r := m[reservationId.value];
      ConflictMeansOverlapWithHolder(m, r.roomId, newStart.GetOr(r.startAt), newEnd.GetOr(r.endAt), reservationId);
    }
  }

  method UpdateReservation(db: Db, caller: Option<UserId>, isProfessor: bool, reservationId: Option<Id>,
                           newStart: Option<int>, newEnd: Option<int>)
    returns (r: Result<Id, HttpsError>)
    requires db.Valid()
    modifies db
    ensures db.Valid()
    ensures r.Failure? ==> unchanged(db)
    ensures caller.None? ==> r == Failure(NotSignedIn)
    ensures caller.Some? ==>
      match UpdateFault(old(db.reservations), caller.value, isProfessor, reservationId, newStart, newEnd)
      case Some(f) => r == Failure(Rethrow(f, UpdateSchemaPrefix, UpdateInternal))
      case None =>
        && reservationId.Some? && reservationId.value in old(db.reservations)
        && r == Success(reservationId.value)
        && db.reservations == old(db.reservations)[reservationId.value :=
             Rescheduled(old(db.reservations)[reservationId.value], newStart, newEnd)]
        && db.rooms == old(db.rooms) && db.checkins == old(db.checkins) && db.nextId == old(db.nextId)
  {
    if caller.None? {
      return Failure(NotSignedIn);
    }
    var fault := UpdateFault(db.reservations, caller.value, isProfessor, reservationId, newStart, newEnd);
    if fault.Some? {
      return Failure(Rethrow(fault.value, UpdateSchemaPrefix, UpdateInternal));
    }
    var id := reservationId.value;
    UpdateNeverDoubleBooks(db.reservations, caller.value, isProfessor, id, newStart, newEnd);
    db.reservations := db.reservations[id := Rescheduled(db.reservations[id], newStart, newEnd)];
    return Success(id);
  }

  // ---------------------------------------------------------------- cancel

  const CancelInternal := "Failed to cancel reservation"

  /** The cancelled version of a stored reservation. */
  function CancelledRecord(r: Reservation, now: int): Reservation {
    r.(status := Cancelled, closed := true, finalizedAt := Some(now))
  }

  /** The first guard inside cancel's `try` that fails, in the handler's order. */
  function CancelFault(m: map<Id, Reservation>, caller: UserId, isProfessor: bool, id: Id): Option<HttpsError> {
    if id !in m then Some(HttpsError(NotFound, "Reservation not found"))
    else if m[id].userId != caller then Some(HttpsError(PermissionDenied, "Can only cancel own reservations"))
    else if !isProfessor then Some(HttpsError(PermissionDenied, "Only professors can cancel reservations"))
    else if m[id].closed then Some(HttpsError(FailedPrecondition, "Cannot cancel a closed reservation"))
    else if m[id].status != Scheduled then Some(HttpsError(FailedPrecondition, "Can only cancel scheduled reservations"))
    else None
  }

  /** An accepted cancellation is a legal lifecycle step that releases the room,
      and it writes a status outside the declared status type. */
  lemma CancelReleasesRoom(m: map<Id, Reservation>, caller: UserId, id: Id, now: int)
    requires CancelFault(m, caller, true, id) == None
    ensures id in m && Advances(m[id], CancelledRecord(m[id], now))
    ensures !Holds(CancelledRecord(m[id], now))
    ensures !IsDeclaredStatus(CancelledRecord(m[id], now).status)
  {
  }

  method CancelReservation(db: Db, caller: Option<UserId>, isProfessor: bool, reservationId: Option<Id>, now: int)
    returns (r: Result<Id, HttpsError>)
    requires db.Valid()
    modifies db
    ensures db.Valid()
    ensures r.Failure? ==> unchanged(db)
    ensures caller.None? ==> r == Failure(NotSignedIn)
    ensures caller.Some? && reservationId.None? ==>
      r == Failure(HttpsError(InvalidArgument, "Reservation ID is required"))
    ensures caller.Some? && reservationId.Some? ==>
      var id := reservationId.value;
      if CancelFault(old(db.reservations), caller.value, isProfessor, id).Some? then
        r == Failure(HttpsError(Internal, CancelInternal))
      else
        && r == Success(id)
        && db.reservations == old(db.reservations)[id := CancelledRecord(old(db.reservations)[id], now)]
        && db.rooms == old(db.rooms) && db.checkins == old(db.checkins) && db.nextId == old(db.nextId)
  {
    if caller.None? {
      return Failure(NotSignedIn);
    }
    if reservationId.None? {
      return Failure(HttpsError(InvalidArgument, "Reservation ID is required"));
    }
    var id := reservationId.value;
    var raised: Option<HttpsError> := None;
    if id !in db.reservations {
      raised := Some(HttpsError(NotFound, "Reservation not found"));
    } else if db.reservations[id].userId != caller.value {
      raised := Some(HttpsError(PermissionDenied, "Can only cancel own reservations"));
    } else if !isProfessor {
      raised := Some(HttpsError(PermissionDenied, "Only professors can cancel reservations"));
    } else if db.reservations[id].closed {
      raised := Some(HttpsError(FailedPrecondition, "Cannot cancel a closed reservation"));
    } else if db.reservations[id].status != Scheduled {
      raised := Some(HttpsError(FailedPrecondition, "Can only cancel scheduled reservations"));
    }
    if raised.Some? {
      // the catch block replaces every error raised inside the `try`
      return Failure(HttpsError(Internal, CancelInternal));
    }
    PutKeepsNoDoubleBooking(db.reservations, id, CancelledRecord(db.reservations[id], now));
    db.reservations := db.reservations[id := CancelledRecord(db.reservations[id], now)];
    return Success(id);
  }
}
