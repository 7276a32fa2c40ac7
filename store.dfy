/** The server's document store: the `reservations` and `rooms` collections
    as maps from document id to record, and `faculty_checkins` as an
    append-only sequence of attendance events. */
module Store {
  import opened Models

  /** No two reservations that still claim the same room overlap in time. */
  ghost predicate NoDoubleBooking(m: map<Id, Reservation>) {
    forall a, b ::
      (a in m && b in m && a != b && Holds(m[a]) && Holds(m[b]) && m[a].roomId == m[b].roomId)
      ==> !Overlaps(m[a].startAt, m[a].endAt, m[b].startAt, m[b].endAt)
  }

  /** Every stored reservation starts before it ends. */
  ghost predicate WellFormed(m: map<Id, Reservation>) {
    forall id :: id in m ==> m[id].startAt < m[id].endAt
  }

  /** Returned by the current-session query: the caller's open session in this room. */
  predicate IsOpenSession(r: Reservation, roomId: RoomId, userId: UserId) {
    r.roomId == roomId && r.userId == userId && r.status == InSession && !r.closed
  }

  /** At most one open session per professor and room. */
  ghost predicate OneSessionPerRoom(m: map<Id, Reservation>) {
    forall a, b :: a in m && b in m && a != b && IsOpenSession(m[a], m[a].roomId, m[a].userId)
      ==> !IsOpenSession(m[b], m[a].roomId, m[a].userId)
  }

  class Db {
    var reservations: map<Id, Reservation>
    var rooms: map<RoomId, Room>
    var checkins: seq<FacultyCheckIn>
    /** The next id the store hands out; every stored id is below it. */
    var nextId: nat

    ghost predicate Valid()
      reads this
    {
      (forall id :: id in reservations ==> id < nextId) &&
      NoDoubleBooking(reservations) &&
      WellFormed(reservations) &&
      OneSessionPerRoom(reservations)
    }

    constructor ()
      ensures Valid()
      ensures reservations == map[] && rooms == map[] && checkins == [] && nextId == 0
    {
      reservations := map[];
      rooms := map[];
      checkins := [];
      nextId := 0;
    }
  }
}
