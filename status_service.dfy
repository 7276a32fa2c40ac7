/** The client's schedule status service (src/utils/reservationStatusService.ts):
    completing schedules whose end has passed, forcing completion, resolving a
    room's expired entries, and the ending-soon and starting-soon filters with
    their warning flag. The browser clock reading is the parameter `now`. */
module StatusService {
  import opened Wrappers
  import opened Schedules

  /** The record pushed onto the returned `updates` list for each completion. */
  datatype StatusUpdate = StatusUpdate(reservationId: Id, oldStatus: ScheduleStatus, newStatus: ScheduleStatus, reason: string)

  /** An entry of the ending-soon or starting-soon list, with its whole minutes to go. */
  datatype SoonEntry = SoonEntry(id: Id, schedule: RoomSchedule, minutes: int)

  const AutoCompleteReason := "Auto-completed: End time passed"
  const ConflictReason := "Auto-completed due to conflict detection"
  const DefaultWarningMinutes: int := 10
  const StartingSoonMinutes: int := 30

  /** The whole minutes, rounded up, in `t` milliseconds. */
  function CeilMinutes(t: int): int {
    (t + MinuteMs - 1) / MinuteMs
  }

  /** For a positive span, the rounded-up minutes are the least whole number of
      minutes that covers it. */
  lemma CeilMinutesIsCeiling(t: int)
    requires t > 0
    ensures CeilMinutes(t) >= 1
    ensures (CeilMinutes(t) - 1) * MinuteMs < t <= CeilMinutes(t) * MinuteMs
  {
  }

  /** One completion record per id, in the same order. */
  function CompletionRecords(ids: seq<Id>, reason: string): (us: seq<StatusUpdate>)
    ensures |us| == |ids|
    ensures forall i :: 0 <= i < |us| ==> us[i] == StatusUpdate(ids[i], Scheduled, Completed, reason)
  {
    seq(|ids|, i requires 0 <= i < |ids| => StatusUpdate(ids[i], Scheduled, Completed, reason))
  }

  // ---------------------------------------------------------------- auto-complete

  /** A 'scheduled' entry whose end is strictly before now. */
  predicate IsExpired(s: RoomSchedule, now: int) {
    s.status == Scheduled && s.endTime < now
  }

  function ExpiredAt(now: int): RoomSchedule -> bool {
    s => IsExpired(s, now)
  }

  function AutoCompleted(s: RoomSchedule, now: int): RoomSchedule {
    s.(status := Completed, autoCompletedAt := Some(now))
  }

  /** The collection after auto-completion: expired entries completed, every
      other entry untouched. */
  function AutoCompleteAll(m: map<Id, RoomSchedule>, now: int): map<Id, RoomSchedule> {
    map id | id in m :: if IsExpired(m[id], now) then AutoCompleted(m[id], now) else m[id]
  }

  function AutoCompletePrefix(m: map<Id, RoomSchedule>, k: nat, now: int): map<Id, RoomSchedule> {
    map id | id in m :: if id < k && IsExpired(m[id], now) then AutoCompleted(m[id], now) else m[id]
  }

  /** A second pass at the same instant finds nothing to complete and changes nothing. */
  lemma {:induction false} AutoCompleteIsIdempotent(m: map<Id, RoomSchedule>, k: nat, now: int)
    ensures Select(AutoCompleteAll(m, now), k, ExpiredAt(now)) == []
    ensures AutoCompleteAll(AutoCompleteAll(m, now), now) == AutoCompleteAll(m, now)
  {
    if k > 0 {
      AutoCompleteIsIdempotent(m, k - 1, now);
    }
  }

  /** One step of the completion loop: an expired entry is completed and
      reported; any other id changes nothing. */
  lemma AutoCompletePrefixStep(m: map<Id, RoomSchedule>, k: nat, now: int)
    ensures if k in m && IsExpired(m[k], now) then
        && AutoCompletePrefix(m, k + 1, now) == AutoCompletePrefix(m, k, now)[k := AutoCompleted(m[k], now)]
        && CompletionRecords(Select(m, k + 1, ExpiredAt(now)), AutoCompleteReason) ==
           CompletionRecords(Select(m, k, ExpiredAt(now)), AutoCompleteReason) + [StatusUpdate(k, Scheduled, Completed, AutoCompleteReason)]
      else
        && AutoCompletePrefix(m, k + 1, now) == AutoCompletePrefix(m, k, now)
        && Select(m, k + 1, ExpiredAt(now)) == Select(m, k, ExpiredAt(now))
  {
    if !(k in m && IsExpired(m[k], now)) {
      assert AutoCompletePrefix(m, k + 1, now) == AutoCompletePrefix(m, k, now);
    }
  }

  /** The loop over the query result, on values. */
  method StageAutoComplete(m0: map<Id, RoomSchedule>, bound: nat, now: int) returns (m: map<Id, RoomSchedule>, updates: seq<StatusUpdate>)
    ensures m == AutoCompletePrefix(m0, bound, now)
    ensures updates == CompletionRecords(Select(m0, bound, ExpiredAt(now)), AutoCompleteReason)
  {
    m := m0;
    updates := [];
    for id := 0 to bound
      invariant m == AutoCompletePrefix(m0, id, now)
      invariant updates == CompletionRecords(Select(m0, id, ExpiredAt(now)), AutoCompleteReason)
    {
      AutoCompletePrefixStep(m0, id, now);
      if id in m0 && m0[id].status == Scheduled && m0[id].endTime < now {
        m := m[id := m0[id].(status := Completed, autoCompletedAt := Some(now))];
        updates := updates + [StatusUpdate(id, Scheduled, Completed, AutoCompleteReason)];
      }
    }
  }

  method AutoCompleteExpiredReservations(db: ClientDb, now: int) returns (updates: seq<StatusUpdate>)
    requires db.Valid()
    modifies db
    ensures db.Valid()
    ensures db.schedules == AutoCompleteAll(old(db.schedules), now)
    ensures db.checkIns == old(db.checkIns) && db.rooms == old(db.rooms) && db.nextId == old(db.nextId)
    ensures updates == CompletionRecords(Select(old(db.schedules), old(db.nextId), ExpiredAt(now)), AutoCompleteReason)
  {
    var m;
    m, updates := StageAutoComplete(db.schedules, db.nextId, now);
    assert m == AutoCompleteAll(old(db.schedules), now);
    db.schedules := m;
  }

  // ---------------------------------------------------------------- force complete

  function ForceCompleted(s: RoomSchedule, now: int): RoomSchedule {
    s.(status := Completed, forcedCompletedAt := Some(now), forcedCompletedByAdmin := true)
  }

  /** Forcing completes an entry whatever its status, and auto-completion then
      leaves it alone. */
  lemma ForceCompleteOverridesStatus(s: RoomSchedule, now: int, later: int)
    ensures ForceCompleted(s, now).status == Completed
    ensures !IsExpired(ForceCompleted(s, now), later)
    ensures ForceCompleted(s, now).startTime == s.startTime && ForceCompleted(s, now).endTime == s.endTime
  {
  }

  /** Returns the toast text on failure: updating a missing document fails. */
  method ForceCompleteReservation(db: ClientDb, reservationId: Id, now: int) returns (error: Option<string>)
    requires db.Valid()
    modifies db
    ensures db.Valid()
    ensures reservationId !in old(db.schedules) ==> error == Some("Failed to complete reservation") && unchanged(db)
    ensures reservationId in old(db.schedules) ==>
      && error == None
      && db.schedules == old(db.schedules)[reservationId := ForceCompleted(old(db.schedules)[reservationId], now)]
      && db.checkIns == old(db.checkIns) && db.rooms == old(db.rooms) && db.nextId == old(db.nextId)
  {
    if reservationId !in db.schedules {
      return Some("Failed to complete reservation");
    }
    db.schedules := db.schedules[reservationId := ForceCompleted(db.schedules[reservationId], now)];
    return None;
  }

  // ---------------------------------------------------------------- conflict resolution

  /** Returned by the room's query: a 'scheduled' entry of this room. */
  predicate InRoomQuery(s: RoomSchedule, roomId: RoomId) {
    s.roomId == roomId && s.status == Scheduled
  }

  predicate IsRunning(s: RoomSchedule, now: int) {
    s.startTime <= now && s.endTime >= now
  }

  function ActiveInRoomAt(roomId: RoomId, now: int): RoomSchedule -> bool {
    s => InRoomQuery(s, roomId) && IsRunning(s, now)
  }

  function ExpiredInRoomAt(roomId: RoomId, now: int): RoomSchedule -> bool {
    s => InRoomQuery(s, roomId) && !IsRunning(s, now) && s.endTime < now
  }

  /** Splits the room's scheduled entries into those running now and those
      already over; an entry that has not started yet is in neither list. */
  method PartitionRoomSchedules(db: ClientDb, roomId: RoomId, now: int) returns (active: seq<Id>, expired: seq<Id>)
    requires db.Valid()
    ensures active == Select(db.schedules, db.nextId, ActiveInRoomAt(roomId, now))
    ensures expired == Select(db.schedules, db.nextId, ExpiredInRoomAt(roomId, now))
    ensures forall id :: id in active ==> id in db.schedules && IsRunning(db.schedules[id], now)
    ensures forall id :: id in expired ==> id in db.schedules && db.schedules[id].endTime < now
    ensures forall id :: id in db.schedules && db.schedules[id].startTime > now ==> id !in active
    ensures forall id :: id in db.schedules && db.schedules[id].endTime >= now ==> id !in expired
  {
    active, expired := [], [];
    for id := 0 to db.nextId
      invariant active == Select(db.schedules, id, ActiveInRoomAt(roomId, now))
      invariant expired == Select(db.schedules, id, ExpiredInRoomAt(roomId, now))
    {
      if id in db.schedules && db.schedules[id].roomId == roomId && db.schedules[id].status == Scheduled {
        var s := db.schedules[id];
        if s.startTime <= now && s.endTime >= now {
          active := active + [id];
        } else if s.endTime < now {
          expired := expired + [id];
        }
      }
    }
  }

  /** Both lists together are the room's scheduled entries that have started,
      and no entry is in both. */
  lemma PartitionIsExact(m: map<Id, RoomSchedule>, k: nat, roomId: RoomId, now: int)
    requires forall id :: id in m ==> id < k
    ensures forall id :: id in m && InRoomQuery(m[id], roomId) && m[id].startTime <= now ==>
      (id in Select(m, k, ActiveInRoomAt(roomId, now)) || id in Select(m, k, ExpiredInRoomAt(roomId, now)))
    ensures forall id :: !(id in Select(m, k, ActiveInRoomAt(roomId, now)) && id in Select(m, k, ExpiredInRoomAt(roomId, now)))
  {
    SelectIsComplete(m, k, ActiveInRoomAt(roomId, now));
    SelectIsComplete(m, k, ExpiredInRoomAt(roomId, now));
  }

  function Resolved(s: RoomSchedule, now: int): RoomSchedule {
    s.(status := Completed, autoCompletedAt := Some(now), resolvedConflict := true)
  }

  function ResolvePrefix(m: map<Id, RoomSchedule>, done: seq<Id>, now: int): map<Id, RoomSchedule> {
    map id | id in m :: if id in done then Resolved(m[id], now) else m[id]
  }

  /** Resolving the listed entries touches exactly those entries. */
  lemma ResolveTouchesOnlyListed(m: map<Id, RoomSchedule>, k: nat, roomId: RoomId, now: int)
    requires forall id :: id in m ==> id < k
    ensures forall id :: id in m ==>
      ResolvePrefix(m, Select(m, k, ExpiredInRoomAt(roomId, now)), now)[id] ==
        (if InRoomQuery(m[id], roomId) && !IsRunning(m[id], now) && m[id].endTime < now then Resolved(m[id], now) else m[id])
  {
    SelectIsComplete(m, k, ExpiredInRoomAt(roomId, now));
  }

  /** Applies the resolutions to a snapshot of the collection, one id at a time. */
  method StageResolutions(m0: map<Id, RoomSchedule>, expired: seq<Id>, now: int) returns (m: map<Id, RoomSchedule>, updates: seq<StatusUpdate>)
    requires forall i :: 0 <= i < |expired| ==> expired[i] in m0
    ensures m == ResolvePrefix(m0, expired, now)
    ensures updates == CompletionRecords(expired, ConflictReason)
  {
    m := m0;
    updates := [];
    for i := 0 to |expired|
      invariant m == ResolvePrefix(m0, expired[..i], now)
      invariant updates == CompletionRecords(expired[..i], ConflictReason)
    {
      assert expired[..i + 1] == expired[..i] + [expired[i]];
      m := m[expired[i] := Resolved(m0[expired[i]], now)];
      updates := updates + [StatusUpdate(expired[i], Scheduled, Completed, ConflictReason)];
      assert m == ResolvePrefix(m0, expired[..i + 1], now);
    }
    assert expired[..|expired|] == expired;
  }

  /** Completes the room's expired entries; running and future entries are untouched. */
  method DetectAndResolveConflicts(db: ClientDb, roomId: RoomId, now: int) returns (updates: seq<StatusUpdate>)
    requires db.Valid()
    modifies db
    ensures db.Valid()
    ensures db.schedules == ResolvePrefix(old(db.schedules), Select(old(db.schedules), old(db.nextId), ExpiredInRoomAt(roomId, now)), now)
    ensures db.checkIns == old(db.checkIns) && db.rooms == old(db.rooms) && db.nextId == old(db.nextId)
    ensures updates == CompletionRecords(Select(old(db.schedules), old(db.nextId), ExpiredInRoomAt(roomId, now)), ConflictReason)
  {
    var active, expired := PartitionRoomSchedules(db, roomId, now);
    var m, us := StageResolutions(db.schedules, expired, now);
    db.schedules := m;
    updates := us;
  }

  // ---------------------------------------------------------------- warnings

  /** A 'scheduled' entry ending within the threshold that has not been warned about. */
  predicate IsEndingSoon(s: RoomSchedule, now: int, minutesUntilEnd: int) {
    s.status == Scheduled && 0 < s.endTime - now < minutesUntilEnd * MinuteMs && !s.warningShown
  }

  function EndingSoonAt(now: int, minutesUntilEnd: int): RoomSchedule -> bool {
    s => IsEndingSoon(s, now, minutesUntilEnd)
  }

  /** The default threshold is 10 minutes; the caller may pass another. */
  method GetReservationsEndingSoon(db: ClientDb, now: int, minutesUntilEnd: int) returns (list: seq<SoonEntry>)
    requires db.Valid()
    ensures |list| == |Select(db.schedules, db.nextId, EndingSoonAt(now, minutesUntilEnd))|
    ensures forall i :: 0 <= i < |list| ==>
      && list[i].id == Select(db.schedules, db.nextId, EndingSoonAt(now, minutesUntilEnd))[i]
      && list[i].schedule == db.schedules[list[i].id]
      && list[i].minutes == CeilMinutes(list[i].schedule.endTime - now)
    ensures forall i :: 0 <= i < |list| ==>
      (list[i].minutes - 1) * MinuteMs < list[i].schedule.endTime - now <= list[i].minutes * MinuteMs
  {
    list := [];
    for id := 0 to db.nextId
      invariant |list| == |Select(db.schedules, id, EndingSoonAt(now, minutesUntilEnd))|
      invariant forall i :: 0 <= i < |list| ==>
        && list[i].id == Select(db.schedules, id, EndingSoonAt(now, minutesUntilEnd))[i]
        && list[i].schedule == db.schedules[list[i].id]
        && list[i].minutes == CeilMinutes(list[i].schedule.endTime - now)
        && (list[i].minutes - 1) * MinuteMs < list[i].schedule.endTime - now <= list[i].minutes * MinuteMs
    {
      if id in db.schedules {
        var s := db.schedules[id];
        var timeUntilEnd := s.endTime - now;
        if timeUntilEnd > 0 && timeUntilEnd < minutesUntilEnd * MinuteMs && !s.warningShown && s.status == Scheduled {
          CeilMinutesIsCeiling(timeUntilEnd);
          list := list + [SoonEntry(id, s, CeilMinutes(timeUntilEnd))];
        }
      }
    }
  }

  function WarningMarked(s: RoomSchedule, now: int): RoomSchedule {
    s.(warningShown := true, warningShownAt := Some(now))
  }

  /** A marked entry is never reported as ending soon again, whatever the
      instant or threshold. */
  lemma MarkedIsNeverEndingSoon(s: RoomSchedule, markedAt: int, now: int, minutesUntilEnd: int)
    ensures !IsEndingSoon(WarningMarked(s, markedAt), now, minutesUntilEnd)
    ensures WarningMarked(s, markedAt).status == s.status && WarningMarked(s, markedAt).endTime == s.endTime
  {
  }

  /** Marking a missing document fails and the error is only logged. */
  method MarkWarningAsShown(db: ClientDb, reservationId: Id, now: int)
    requires db.Valid()
    modifies db
    ensures db.Valid()
    ensures reservationId !in old(db.schedules) ==> unchanged(db)
    ensures reservationId in old(db.schedules) ==>
      && db.schedules == old(db.schedules)[reservationId := WarningMarked(old(db.schedules)[reservationId], now)]
      && db.checkIns == old(db.checkIns) && db.rooms == old(db.rooms) && db.nextId == old(db.nextId)
  {
    if reservationId in db.schedules {
      db.schedules := db.schedules[reservationId := WarningMarked(db.schedules[reservationId], now)];
    }
  }

  /** A professor's 'scheduled' entry that starts within the next 30 minutes. */
  predicate IsStartingSoon(s: RoomSchedule, professorId: UserId, now: int) {
    s.professorId == professorId && s.status == Scheduled &&
    0 < s.startTime - now < StartingSoonMinutes * MinuteMs
  }

  function StartingSoonAt(professorId: UserId, now: int): RoomSchedule -> bool {
    s => IsStartingSoon(s, professorId, now)
  }

  method GetProfessorReservationsStartingSoon(db: ClientDb, professorId: UserId, now: int) returns (list: seq<SoonEntry>)
    requires db.Valid()
    ensures |list| == |Select(db.schedules, db.nextId, StartingSoonAt(professorId, now))|
    ensures forall i :: 0 <= i < |list| ==>
      && list[i].id == Select(db.schedules, db.nextId, StartingSoonAt(professorId, now))[i]
      && list[i].schedule == db.schedules[list[i].id]
      && list[i].minutes == CeilMinutes(list[i].schedule.startTime - now)
      && 1 <= list[i].minutes <= StartingSoonMinutes
  {
    list := [];
    for id := 0 to db.nextId
      invariant |list| == |Select(db.schedules, id, StartingSoonAt(professorId, now))|
      invariant forall i :: 0 <= i < |list| ==>
        && list[i].id == Select(db.schedules, id, StartingSoonAt(professorId, now))[i]
        && list[i].schedule == db.schedules[list[i].id]
        && list[i].minutes == CeilMinutes(list[i].schedule.startTime - now)
        && 1 <= list[i].minutes <= StartingSoonMinutes
    {
      if id in db.schedules && db.schedules[id].professorId == professorId && db.schedules[id].status == Scheduled {
        var s := db.schedules[id];
        var timeUntilStart := s.startTime - now;
        if timeUntilStart > 0 && timeUntilStart < StartingSoonMinutes * MinuteMs {
          CeilMinutesIsCeiling(timeUntilStart);
          list := list + [SoonEntry(id, s, CeilMinutes(timeUntilStart))];
        }
      }
    }
  }
}
