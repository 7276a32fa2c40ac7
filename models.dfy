/** The server-side records (src/types/models.ts) and the lifecycle rules
    that relate one stored reservation to its next version. */
module Models {
  import opened Wrappers

  /** Document ids generated by the store. */
  type Id = nat
  type UserId = string
  type RoomId = string

  datatype UserRole = Professor | Admin

  /** The statuses a stored reservation can carry. The declared type lists the
      first four; cancellation writes a fifth one, CANCELLED. */
  datatype ReservationStatus = Scheduled | InSession | Completed | NoShow | Cancelled

  predicate IsDeclaredStatus(s: ReservationStatus) {
    s != Cancelled
  }

  datatype Reservation = Reservation(
    roomId: RoomId,
    userId: UserId,
    startAt: int,
    endAt: int,
    status: ReservationStatus,
    closed: bool,
    finalizedAt: Option<int>)

  datatype CheckInType = CheckIn | CheckOut

  datatype CheckInMethod = QR | Auto

  datatype Room = Room(name: string, capacity: int, isRetired: bool, qrVersion: int)

  /** One attendance event of the append-only `faculty_checkins` ledger. */
  datatype FacultyCheckIn = FacultyCheckIn(
    id: Id,
    reservationId: Id,
    userId: UserId,
    roomId: RoomId,
    kind: CheckInType,
    via: CheckInMethod,
    timestamp: int)

  /** A reservation that still claims its room: scheduled or in session, and open. */
  predicate Holds(r: Reservation) {
    (r.status == Scheduled || r.status == InSession) && !r.closed
  }

  /** Half-open intervals [s1, e1) and [s2, e2) share an instant. */
  predicate Overlaps(s1: int, e1: int, s2: int, e2: int) {
    s1 < e2 && e1 > s2
  }

  lemma OverlapsIsSymmetric(s1: int, e1: int, s2: int, e2: int)
    ensures Overlaps(s1, e1, s2, e2) == Overlaps(s2, e2, s1, e1)
  {
  }

  /** How far along the lifecycle a status is. */
  function Rank(s: ReservationStatus): nat {
    match s
    case Scheduled => 0
    case InSession => 1
    case NoShow => 1
    case Completed => 2
    case Cancelled => 2
  }

  /** The legal ways one stored version of a reservation can follow another:
      no change, or one of the transitions of the lifecycle. Every transition
      starts from an open reservation and keeps room, owner and (except a
      reschedule) the times. */
  predicate Advances(a: Reservation, b: Reservation) {
    a == b ||
    (!a.closed &&
      ((a.status == Scheduled && b == a.(status := InSession)) ||
       (a.status == Scheduled && b == a.(status := NoShow)) ||
       (a.status == Scheduled && b.startAt < b.endAt && b == a.(startAt := b.startAt, endAt := b.endAt)) ||
       (a.status == Scheduled && b.finalizedAt.Some? &&
          b == a.(status := Cancelled, closed := true, finalizedAt := b.finalizedAt)) ||
       (a.status == InSession && b.finalizedAt.Some? &&
          b == a.(status := Completed, closed := true, finalizedAt := b.finalizedAt)) ||
       (a.status == NoShow && b.finalizedAt.Some? &&
          b == a.(closed := true, finalizedAt := b.finalizedAt))))
  }

  /** A closed reservation never changes again, and no step moves a status back. */
  lemma AdvancesIsMonotone(a: Reservation, b: Reservation)
    requires Advances(a, b)
    ensures a.closed ==> b == a
    ensures a.closed ==> b.closed
    ensures Rank(a.status) <= Rank(b.status)
    ensures b.closed && !a.closed ==> b.finalizedAt.Some?
    ensures b.roomId == a.roomId && b.userId == a.userId
  {
  }
}
