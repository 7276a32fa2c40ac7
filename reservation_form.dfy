/** The professor's booking form and "my schedules" list on the client
    (src/pages/professor/ReservationsPage.tsx and its near-copy
    src/pages/professor/ReservationPage.tsx). Both pages submit a schedule with
    the same overlap test and the same weekly expansion, and list the caller's
    non-cancelled schedules sorted by start time. */
module ReservationForm {
  import opened Wrappers
  import opened Schedules
  import Models
  import Sorting

  /** One week in milliseconds; weekly copies are shifted by whole weeks. */
  const WeekMs: int := 7 * 24 * 60 * MinuteMs

  /** The number of copies a weekly booking adds after the base entry. */
  const WeeklyCopies: nat := 15

  const TimeOrderError := "End time must be after start time"
  const SlotBookedError := "This time slot is already booked"
  const LoadSchedulesError := "Failed to load schedules"

  /** The submitted form, with its date and times already combined into instants. */
  datatype ScheduleForm = ScheduleForm(roomId: RoomId, courseCode: string, startTime: int, endTime: int, recurringType: Recurrence)

  // ---------------------------------------------------------------- overlap test

  /** The pages' overlap test: the new start lies in [s, e) or the new end lies in (s, e]. */
  predicate ClientOverlaps(newStart: int, newEnd: int, s: int, e: int) {
    (newStart >= s && newStart < e) || (newEnd > s && newEnd <= e)
  }

  /** For a well-ordered new booking, a flagged pair really overlaps as half-open intervals. */
  lemma ClientOverlapIsRealOverlap(newStart: int, newEnd: int, s: int, e: int)
    requires newStart < newEnd
    ensures ClientOverlaps(newStart, newEnd, s, e) ==> Models.Overlaps(newStart, newEnd, s, e)
  {
  }

  /** Two half-open intervals overlap exactly when the pages' test flags them or
      the new booking strictly contains the existing one. */
  lemma OverlapIsClientOverlapOrContainment(newStart: int, newEnd: int, s: int, e: int)
    requires newStart < newEnd && s < e
    ensures Models.Overlaps(newStart, newEnd, s, e) <==>
      ClientOverlaps(newStart, newEnd, s, e) || (newStart < s && newEnd > e)
  {
  }

  /** A booking that strictly contains an existing one is never flagged, and
      neither is one that only touches it. */
  lemma ContainmentAndTouchingAreNotFlagged(newStart: int, newEnd: int, s: int, e: int)
    requires newStart < newEnd && s < e
    ensures newStart < s && newEnd > e ==> !ClientOverlaps(newStart, newEnd, s, e)
    ensures newEnd == s || newStart == e ==> !ClientOverlaps(newStart, newEnd, s, e)
  {
  }

  /** The conflict query's candidates: 'scheduled' entries of the form's room. */
  predicate IsConflictCandidate(s: RoomSchedule, roomId: RoomId) {
    s.roomId == roomId && s.status == Scheduled
  }

  predicate HasConflict(m: map<Id, RoomSchedule>, roomId: RoomId, newStart: int, newEnd: int) {
    exists id :: id in m && IsConflictCandidate(m[id], roomId) &&
      ClientOverlaps(newStart, newEnd, m[id].startTime, m[id].endTime)
  }

  /** Only same-room 'scheduled' entries can block a booking: cancelled,
      completed and other rooms' entries never do. */
  lemma OnlyScheduledSameRoomBlocks(m: map<Id, RoomSchedule>, id: Id, s: RoomSchedule, roomId: RoomId, newStart: int, newEnd: int)
    requires id !in m
    requires !IsConflictCandidate(s, roomId)
    ensures HasConflict(m[id := s], roomId, newStart, newEnd) == HasConflict(m, roomId, newStart, newEnd)
  {
    if HasConflict(m[id := s], roomId, newStart, newEnd) {
      var j :| j in m[id := s] && IsConflictCandidate(m[id := s][j], roomId) &&
        ClientOverlaps(newStart, newEnd, m[id := s][j].startTime, m[id := s][j].endTime);
      assert j != id;
      assert j in m && IsConflictCandidate(m[j], roomId);
    }
    if HasConflict(m, roomId, newStart, newEnd) {
      var j :| j in m && IsConflictCandidate(m[j], roomId) &&
        ClientOverlaps(newStart, newEnd, m[j].startTime, m[j].endTime);
      assert j in m[id := s] && m[id := s][j] == m[j];
    }
  }

  /** The check misses a strict containment: a 09:00-12:00 booking passes over
      an existing 10:00-11:00 one in the same room, and the two overlap. */
  lemma ContainingBookingIsAccepted()
    ensures var existing := NewSchedule("R1", "p1", "CS101", 10 * 60 * MinuteMs, 11 * 60 * MinuteMs, NoRepeat);
      var m := map[0 := existing];
      && !HasConflict(m, "R1", 9 * 60 * MinuteMs, 12 * 60 * MinuteMs)
      && Models.Overlaps(9 * 60 * MinuteMs, 12 * 60 * MinuteMs, existing.startTime, existing.endTime)
  {
  }

  // ---------------------------------------------------------------- submission

  /** The first guard that rejects the form, in the pages' order. */
  function SubmitFault(m: map<Id, RoomSchedule>, form: ScheduleForm): Option<string> {
    if form.endTime <= form.startTime then Some(TimeOrderError)
    else if HasConflict(m, form.roomId, form.startTime, form.endTime) then Some(SlotBookedError)
    else None
  }

  /** The `k`-th weekly copy (k >= 1) of the form: the same slot `k` weeks later. */
  function WeeklyCopy(form: ScheduleForm, professorId: UserId, k: int): RoomSchedule {
    NewSchedule(form.roomId, professorId, form.courseCode,
                form.startTime + k * WeekMs, form.endTime + k * WeekMs, form.recurringType)
  }

  /** The entries one accepted submission writes, in write order: the base
      entry, then for a weekly booking the copies 1 to 15 weeks later. */
  function Expansion(form: ScheduleForm, professorId: UserId): seq<RoomSchedule> {
    [WeeklyCopy(form, professorId, 0)] +
    (if form.recurringType == Weekly
     then seq(WeeklyCopies, i requires 0 <= i < WeeklyCopies => WeeklyCopy(form, professorId, i + 1))
     else [])
  }

  /** A weekly booking writes 16 entries and any other one writes one; entry
      `k` is the form's slot shifted by `k` weeks, with the same room, owner,
      course and duration, and status 'scheduled'. */
  lemma ExpansionShape(form: ScheduleForm, professorId: UserId)
    ensures |Expansion(form, professorId)| == if form.recurringType == Weekly then WeeklyCopies + 1 else 1
    ensures forall k :: 0 <= k < |Expansion(form, professorId)| ==>
      var s := Expansion(form, professorId)[k];
      && s.startTime == form.startTime + k * WeekMs
      && s.endTime - s.startTime == form.endTime - form.startTime
      && s.roomId == form.roomId && s.professorId == professorId && s.courseCode == form.courseCode
      && s.status == Scheduled && !s.warningShown
  {
  }

  /** Only the base entry is checked: a weekly booking is accepted even when
      its first copy lands on an existing booking of the same room. */
  lemma WeeklyCopiesAreNotChecked()
    ensures var existing := NewSchedule("R1", "p2", "CS102", WeekMs, WeekMs + 60 * MinuteMs, NoRepeat);
      var form := ScheduleForm("R1", "CS101", 0, 60 * MinuteMs, Weekly);
      var m := map[0 := existing];
      && SubmitFault(m, form) == None
      && Expansion(form, "p1")[1].startTime == existing.startTime
      && Models.Overlaps(Expansion(form, "p1")[1].startTime, Expansion(form, "p1")[1].endTime, existing.startTime, existing.endTime)
  {
    var existing := NewSchedule("R1", "p2", "CS102", WeekMs, WeekMs + 60 * MinuteMs, NoRepeat);
    var form := ScheduleForm("R1", "CS101", 0, 60 * MinuteMs, Weekly);
    var m := map[0 := existing];
    assert !ClientOverlaps(0, 60 * MinuteMs, existing.startTime, existing.endTime);
    assert !HasConflict(m, "R1", 0, 60 * MinuteMs);
    assert Expansion(form, "p1")[1] == WeeklyCopy(form, "p1", 1);
  }

  /** `m` with the entries `xs` stored under consecutive ids from `base`. */
  function Placed(m: map<Id, RoomSchedule>, base: Id, xs: seq<RoomSchedule>): map<Id, RoomSchedule>
    decreases |xs|
  {
    if xs == [] then m
    else Placed(m, base, xs[..|xs| - 1])[base + |xs| - 1 := xs[|xs| - 1]]
  }

  /** Placing writes exactly the ids `base` .. `base + |xs| - 1` and keeps every other entry. */
  lemma {:induction false} PlacedContents(m: map<Id, RoomSchedule>, base: Id, xs: seq<RoomSchedule>)
    ensures forall id :: id in Placed(m, base, xs) <==> id in m || base <= id < base + |xs|
    ensures forall id :: base <= id < base + |xs| ==> Placed(m, base, xs)[id] == xs[id - base]
    ensures forall id :: id in m && !(base <= id < base + |xs|) ==> Placed(m, base, xs)[id] == m[id]
    decreases |xs|
  {
    if xs != [] {
      PlacedContents(m, base, xs[..|xs| - 1]);
    }
  }

  datatype SubmitOutcome =
    | Ignored                   // nobody is signed in: the handler returns at once
    | Rejected(message: string) // the toast shown, nothing written
    | Created(ids: seq<Id>)     // the ids of the written entries, base first

  method SubmitReservation(db: ClientDb, caller: Option<UserId>, form: ScheduleForm) returns (outcome: SubmitOutcome)
    requires db.Valid()
    modifies db
    ensures db.Valid()
    ensures db.checkIns == old(db.checkIns) && db.rooms == old(db.rooms)
    ensures caller.None? ==> outcome == Ignored && unchanged(db)
    ensures caller.Some? && SubmitFault(old(db.schedules), form).Some? ==>
      outcome == Rejected(SubmitFault(old(db.schedules), form).value) && unchanged(db)
    ensures caller.Some? && SubmitFault(old(db.schedules), form).None? ==>
      && outcome == Created(seq(|Expansion(form, caller.value)|, i requires 0 <= i => old(db.nextId) + i))
      && db.schedules == Placed(old(db.schedules), old(db.nextId), Expansion(form, caller.value))
      && db.nextId == old(db.nextId) + |Expansion(form, caller.value)|
  {
    if caller.None? {
      return Ignored;
    }
    if form.endTime <= form.startTime {
      return Rejected(TimeOrderError);
    }
    if HasConflict(db.schedules, form.roomId, form.startTime, form.endTime) {
      return Rejected(SlotBookedError);
    }
    var m, ids := WriteEntries(db.schedules, db.nextId, form, caller.value);
    PlacedContents(db.schedules, db.nextId, Expansion(form, caller.value));
    db.schedules := m;
    db.nextId := db.nextId + |ids|;
    return Created(ids);
  }

  /** The `addDoc` calls of an accepted submission, on values: the base entry,
      then for a weekly booking each copy, under consecutive ids from `base`. */
  method WriteEntries(m0: map<Id, RoomSchedule>, base: Id, form: ScheduleForm, professorId: UserId)
    returns (m: map<Id, RoomSchedule>, ids: seq<Id>)
    ensures m == Placed(m0, base, Expansion(form, professorId))
    ensures ids == seq(|Expansion(form, professorId)|, i requires 0 <= i => base + i)
  {
    ghost var xs := Expansion(form, professorId);
    ids := [base];
    m := m0[base := WeeklyCopy(form, professorId, 0)];
    assert xs[..1] == [xs[0]];
    assert Placed(m0, base, xs[..0]) == m0 by { assert xs[..0] == []; }
    if form.recurringType == Weekly {
      for i := 0 to WeeklyCopies
        invariant m == Placed(m0, base, xs[..i + 1])
        invariant ids == seq(i + 1, j requires 0 <= j => base + j)
      {
        assert xs[..i + 2][..i + 1] == xs[..i + 1];
        m := m[base + i + 1 := WeeklyCopy(form, professorId, i + 1)];
        ids := ids + [base + i + 1];
      }
    }
    assert xs[..|xs|] == xs;
  }

  // ---------------------------------------------------------------- my schedules

  /** A listed schedule with the room details joined onto it. */
  datatype ScheduleWithRoom = ScheduleWithRoom(id: Id, schedule: RoomSchedule, room: ClientRoom)

  function IsMineAndLive(professorId: UserId): RoomSchedule -> bool {
    (s: RoomSchedule) => s.professorId == professorId && s.status != Cancelled
  }

  function StartKey(e: ScheduleWithRoom): int {
    e.schedule.startTime
  }

  /** The joined entries for `ids`, in the same order. */
  function Joined(m: map<Id, RoomSchedule>, rooms: map<RoomId, ClientRoom>, ids: seq<Id>): (js: seq<ScheduleWithRoom>)
    requires forall i :: 0 <= i < |ids| ==> ids[i] in m && m[ids[i]].roomId in rooms
    ensures |js| == |ids|
    ensures forall i :: 0 <= i < |js| ==> js[i] == ScheduleWithRoom(ids[i], m[ids[i]], rooms[m[ids[i]].roomId])
  {
    seq(|ids|, i requires 0 <= i < |ids| => ScheduleWithRoom(ids[i], m[ids[i]], rooms[m[ids[i]].roomId]))
  }

  predicate AllRoomsKnown(m: map<Id, RoomSchedule>, rooms: map<RoomId, ClientRoom>, ids: seq<Id>)
    requires forall i :: 0 <= i < |ids| ==> ids[i] in m
  {
    forall i :: 0 <= i < |ids| ==> m[ids[i]].roomId in rooms
  }

  /** The caller's non-cancelled schedules with their rooms, ascending by start
      time; a schedule whose room document is missing fails the whole load. */
  method FetchMySchedules(db: ClientDb, professorId: UserId) returns (r: Result<seq<ScheduleWithRoom>, string>)
    requires db.Valid()
    ensures var ids := Select(db.schedules, db.nextId, IsMineAndLive(professorId));
      && (r.Success? <==> AllRoomsKnown(db.schedules, db.rooms, ids))
      && (r.Failure? ==> r.error == LoadSchedulesError)
      && (r.Success? ==> multiset(r.value) == multiset(Joined(db.schedules, db.rooms, ids)))
    ensures r.Success? ==> Sorting.SortedBy(r.value, StartKey)
    ensures r.Success? ==> r.value == Sorting.StableSort(Joined(db.schedules, db.rooms, Select(db.schedules, db.nextId, IsMineAndLive(professorId))), StartKey)
  {
    ghost var ids := Select(db.schedules, db.nextId, IsMineAndLive(professorId));
    var list: seq<ScheduleWithRoom> := [];
    for id := 0 to db.nextId
      invariant AllRoomsKnown(db.schedules, db.rooms, Select(db.schedules, id, IsMineAndLive(professorId)))
      invariant list == Joined(db.schedules, db.rooms, Select(db.schedules, id, IsMineAndLive(professorId)))
    {
      if id in db.schedules && db.schedules[id].professorId == professorId && db.schedules[id].status != Cancelled {
        var s := db.schedules[id];
        if s.roomId !in db.rooms {
          SelectIsComplete(db.schedules, db.nextId, IsMineAndLive(professorId));
          assert id in ids;
          return Failure(LoadSchedulesError);
        }
        list := list + [ScheduleWithRoom(id, s, db.rooms[s.roomId])];
      }
    }
    var sorted := Sorting.SortByKey(list, StartKey);
    return Success(sorted);
  }

  /** Every listed entry is one of the caller's non-cancelled schedules, as stored. */
  lemma ListedEntriesAreMine(m: map<Id, RoomSchedule>, rooms: map<RoomId, ClientRoom>, k: nat, professorId: UserId, list: seq<ScheduleWithRoom>)
    requires AllRoomsKnown(m, rooms, Select(m, k, IsMineAndLive(professorId)))
    requires multiset(list) == multiset(Joined(m, rooms, Select(m, k, IsMineAndLive(professorId))))
    ensures forall e :: e in list ==>
      e.id in m && e.schedule == m[e.id] && e.schedule.professorId == professorId && e.schedule.status != Cancelled
  {
    forall e | e in list
      ensures e.id in m && e.schedule == m[e.id] && e.schedule.professorId == professorId && e.schedule.status != Cancelled
    {
      assert e in multiset(list);
      assert e in Joined(m, rooms, Select(m, k, IsMineAndLive(professorId)));
    }
  }
}
