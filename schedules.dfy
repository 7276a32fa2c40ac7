/** The client-side schedule store: the `roomSchedules`, `checkIns` and
    `rooms` collections the web pages read and write directly
    (src/types/room.ts). It is a different collection from the server's
    `reservations`, with lower-case statuses and its own windows, and it is
    kept apart from the server model. Ids are handed out by a counter. A
    query with only equality filters returns its matches in ascending id
    order; a query with a range filter on a field returns them ordered by
    that field, then by id. */
module Schedules {
  import opened Wrappers
  import Sorting

  type Id = nat
  type UserId = string
  type RoomId = string

  const MinuteMs: int := 60000

  /** How early before its start a schedule may be checked into, in minutes. */
  const CheckInEarlyBuffer: int := 30

  datatype ScheduleStatus = Scheduled | Cancelled | Completed

  datatype Recurrence = NoRepeat | Daily | Weekly

  /** A `roomSchedules` document, including the bookkeeping fields the status
      service adds to it. */
  datatype RoomSchedule = RoomSchedule(
    roomId: RoomId,
    professorId: UserId,
    courseCode: string,
    startTime: int,
    endTime: int,
    recurringType: Recurrence,
    status: ScheduleStatus,
    warningShown: bool,
    warningShownAt: Option<int>,
    autoCompletedAt: Option<int>,
    resolvedConflict: bool,
    forcedCompletedAt: Option<int>,
    forcedCompletedByAdmin: bool)

  /** The status of a client check-in: 'active' or 'completed'. */
  datatype CheckInStatus = Active | Done

  /** A `checkIns` document written by the scanner page. */
  datatype CheckInRecord = CheckInRecord(
    userId: UserId,
    roomId: RoomId,
    roomName: string,
    checkInTime: int,
    checkOutTime: Option<int>,
    status: CheckInStatus)

  /** The room fields the client pages join onto schedules and check-ins. */
  datatype ClientRoom = ClientRoom(name: string, building: string, floor: string)

  /** A freshly submitted schedule: 'scheduled', with none of the status
      service's bookkeeping set. */
  function NewSchedule(roomId: RoomId, professorId: UserId, courseCode: string,
                       startTime: int, endTime: int, recurringType: Recurrence): (s: RoomSchedule)
    ensures s.status == Scheduled && !s.warningShown && s.autoCompletedAt.None? && s.forcedCompletedAt.None?
    ensures s.startTime == startTime && s.endTime == endTime && s.roomId == roomId && s.professorId == professorId
  {
    RoomSchedule(roomId, professorId, courseCode, startTime, endTime, recurringType, Scheduled,
                 false, None, None, false, None, false)
  }

  class ClientDb {
    var schedules: map<Id, RoomSchedule>
    var checkIns: map<Id, CheckInRecord>
    var rooms: map<RoomId, ClientRoom>
    var nextId: nat

    /** Every stored id was handed out by the counter. */
    ghost predicate Valid()
      reads this
    {
      (forall id :: id in schedules ==> id < nextId) &&
      (forall id :: id in checkIns ==> id < nextId)
    }

    constructor ()
      ensures Valid()
      ensures schedules == map[] && checkIns == map[] && rooms == map[] && nextId == 0
    {
      schedules := map[];
      checkIns := map[];
      rooms := map[];
      nextId := 0;
    }
  }

  /** The ids below `k` of the documents a query with filter `pred` returns,
      in ascending order. */
  function Select<T>(m: map<Id, T>, k: nat, pred: T -> bool): (ids: seq<Id>)
    ensures forall i :: 0 <= i < |ids| ==> ids[i] < k && ids[i] in m && pred(m[ids[i]])
  {
    if k == 0 then []
    else Select(m, k - 1, pred) + (if k - 1 in m && pred(m[k - 1]) then [k - 1] else [])
  }

  /** The query misses no matching document, and lists each one once, in id order. */
  lemma {:induction false} SelectIsComplete<T>(m: map<Id, T>, k: nat, pred: T -> bool)
    ensures forall id :: id < k && id in m && pred(m[id]) ==> id in Select(m, k, pred)
    ensures forall i, j :: 0 <= i < j < |Select(m, k, pred)| ==> Select(m, k, pred)[i] < Select(m, k, pred)[j]
  {
    if k > 0 {
      SelectIsComplete(m, k - 1, pred);
    }
  }

  /** The value of `field` in the document `id`. */
  function FieldOf<T>(m: map<Id, T>, field: T -> int): Id -> int {
    (id: Id) => if id in m then field(m[id]) else 0
  }

  /** The order of a range query on `key`: by the key, then by id. */
  predicate KeyThenId(key: Id -> int, a: Id, b: Id) {
    key(a) < key(b) || (key(a) == key(b) && a < b)
  }

  /** A list of ids ordered by key, then by id. */
  predicate OrderedByKeyThenId(ids: seq<Id>, key: Id -> int) {
    forall i, j :: 0 <= i < j < |ids| ==> KeyThenId(key, ids[i], ids[j])
  }

  /** Ids drawn from a list of matches are matches. */
  lemma MembersOfMatches<T>(sel: seq<Id>, r: seq<Id>, m: map<Id, T>, k: nat, pred: T -> bool)
    requires forall i :: 0 <= i < |sel| ==> sel[i] < k && sel[i] in m && pred(m[sel[i]])
    requires forall x :: x in r ==> x in sel
    ensures forall i :: 0 <= i < |r| ==> r[i] < k && r[i] in m && pred(m[r[i]])
  {
    forall i | 0 <= i < |r|
      ensures r[i] < k && r[i] in m && pred(m[r[i]])
    {
      assert r[i] in sel;
    }
  }

  /** Every element of a sort of the matches is a match. */
  lemma SortedMatches<T>(m: map<Id, T>, k: nat, pred: T -> bool, key: Id -> int)
    ensures forall i :: 0 <= i < |Sorting.StableSort(Select(m, k, pred), key)| ==>
      var id := Sorting.StableSort(Select(m, k, pred), key)[i];
      id < k && id in m && pred(m[id])
  {
    var sel := Select(m, k, pred);
    Sorting.StableSortMembers(sel, key);
    MembersOfMatches(sel, Sorting.StableSort(sel, key), m, k, pred);
  }

  /** The ids below `k` of the documents a query with filter `pred` and a
      range filter on `field` returns, in the order it returns them. */
  function RangeSelect<T>(m: map<Id, T>, k: nat, pred: T -> bool, field: T -> int): (ids: seq<Id>)
    ensures multiset(ids) == multiset(Select(m, k, pred))
    ensures forall i :: 0 <= i < |ids| ==> ids[i] < k && ids[i] in m && pred(m[ids[i]])
  {
    SortedMatches(m, k, pred, FieldOf(m, field));
    Sorting.StableSort(Select(m, k, pred), FieldOf(m, field))
  }

  /** Inserting an id larger than all others after the ids whose key is not
      larger keeps the order by key, then by id. */
  lemma InsertLargestId(t: seq<Id>, x: Id, p: nat, key: Id -> int)
    requires p <= |t| && OrderedByKeyThenId(t, key)
    requires forall i :: 0 <= i < |t| ==> t[i] < x
    requires forall i :: 0 <= i < p ==> key(t[i]) <= key(x)
    requires forall i :: p <= i < |t| ==> key(x) < key(t[i])
    ensures OrderedByKeyThenId(t[..p] + [x] + t[p..], key)
  {
    var r := t[..p] + [x] + t[p..];
    forall i, j | 0 <= i < j < |r|
      ensures KeyThenId(key, r[i], r[j])
    {
      if j < p {
        assert r[i] == t[i] && r[j] == t[j];
      } else if j == p {
        assert r[i] == t[i] && r[j] == x;
      } else if i < p {
        assert r[i] == t[i] && r[j] == t[j - 1];
      } else if i == p {
        assert r[i] == x && r[j] == t[j - 1];
      } else {
        assert r[i] == t[i - 1] && r[j] == t[j - 1];
      }
    }
  }

  /** A stable sort of ascending ids orders them by key, then by id. */
  lemma {:induction false} StableSortOfAscendingIds(s: seq<Id>, key: Id -> int)
    requires forall i, j :: 0 <= i < j < |s| ==> s[i] < s[j]
    ensures OrderedByKeyThenId(Sorting.StableSort(s, key), key)
    decreases |s|
  {
    if s != [] {
      var pre := s[..|s| - 1];
      var x := s[|s| - 1];
      StableSortOfAscendingIds(pre, key);
      var t := Sorting.StableSort(pre, key);
      Sorting.StableSortMembers(pre, key);
      forall i | 0 <= i < |t|
        ensures t[i] < x
      {
        assert t[i] in pre;
      }
      var p := Sorting.InsertGoesAfterEqualKeys(x, t, key);
      InsertLargestId(t, x, p, key);
    }
  }

  /** A range query misses no matching document and lists the matches by
      `field`, equal values in id order. */
  lemma RangeSelectIsOrdered<T>(m: map<Id, T>, k: nat, pred: T -> bool, field: T -> int)
    ensures forall id :: id < k && id in m && pred(m[id]) ==> id in RangeSelect(m, k, pred, field)
    ensures OrderedByKeyThenId(RangeSelect(m, k, pred, field), FieldOf(m, field))
  {
    SelectIsComplete(m, k, pred);
    Sorting.StableSortMembers(Select(m, k, pred), FieldOf(m, field));
    StableSortOfAscendingIds(Select(m, k, pred), FieldOf(m, field));
  }
}
