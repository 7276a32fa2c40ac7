/** The integer report computations of the client: the admin check-in
    analytics (src/components/reports/CheckInAnalytics.tsx), the reservation
    dashboard (src/components/reports/ReservationDashboard.tsx) and the
    professor's own report page (src/pages/professor/ReportsPage.tsx). A
    store query is `Select` over the collection, in id order; the page-side
    filters, counters and sorts are modelled as written. */
module Reports {
  import opened Wrappers
  import opened Schedules
  import Sorting
  import StatusService

  /** The report filter bar: an inclusive date range and an optional room
      selection (empty means every room). */
  datatype ReportFilters = ReportFilters(startDate: int, endDate: int, selectedRooms: seq<RoomId>)

  predicate RoomSelected(f: ReportFilters, roomId: RoomId) {
    |f.selectedRooms| == 0 || roomId in f.selectedRooms
  }

  // ---------------------------------------------------------------- durations

  /** Whole minutes between check-in and check-out, rounded down; 0 while the
      record has no check-out. */
  function Duration(c: CheckInRecord): int {
    match c.checkOutTime
    case None => 0
    case Some(out) => (out - c.checkInTime) / MinuteMs
  }

  lemma DurationIsWholeMinutes(c: CheckInRecord)
    ensures c.checkOutTime.None? ==> Duration(c) == 0
    ensures c.checkOutTime.Some? ==>
      Duration(c) * MinuteMs <= c.checkOutTime.value - c.checkInTime < (Duration(c) + 1) * MinuteMs
  {
  }

  /** A listed check-in with its computed duration. */
  datatype DurationRow = DurationRow(id: Id, record: CheckInRecord, duration: int)

  /** The rows, in order, for the ids whose record `keep` accepts. */
  function RowsWhere(m: map<Id, CheckInRecord>, ids: seq<Id>, keep: CheckInRecord -> bool): (rows: seq<DurationRow>)
    requires forall i :: 0 <= i < |ids| ==> ids[i] in m
    ensures |rows| <= |ids|
    ensures forall r :: r in rows ==> r.id in m && r.record == m[r.id] && keep(r.record) && r.duration == Duration(r.record)
    decreases |ids|
  {
    if ids == [] then []
    else
      var last := ids[|ids| - 1];
      RowsWhere(m, ids[..|ids| - 1], keep) + (if keep(m[last]) then [DurationRow(last, m[last], Duration(m[last]))] else [])
  }

  /** No accepted record is left out. */
  lemma {:induction false} RowsWhereIsComplete(m: map<Id, CheckInRecord>, ids: seq<Id>, keep: CheckInRecord -> bool)
    requires forall i :: 0 <= i < |ids| ==> ids[i] in m
    ensures forall i :: 0 <= i < |ids| && keep(m[ids[i]]) ==>
      DurationRow(ids[i], m[ids[i]], Duration(m[ids[i]])) in RowsWhere(m, ids, keep)
    decreases |ids|
  {
    if ids != [] {
      RowsWhereIsComplete(m, ids[..|ids| - 1], keep);
      forall i | 0 <= i < |ids| - 1 && keep(m[ids[i]])
        ensures DurationRow(ids[i], m[ids[i]], Duration(m[ids[i]])) in RowsWhere(m, ids, keep)
      {
        assert ids[..|ids| - 1][i] == ids[i];
      }
    }
  }

  function TotalDuration(rows: seq<DurationRow>): int
    decreases |rows|
  {
    if rows == [] then 0 else TotalDuration(rows[..|rows| - 1]) + rows[|rows| - 1].duration
  }

  /** The professor page's "Total Hours": whole hours of the summed minutes, rounded down. */
  function TotalHours(rows: seq<DurationRow>): (h: int)
    ensures h * 60 <= TotalDuration(rows) < (h + 1) * 60
  {
    TotalDuration(rows) / 60
  }

  // ---------------------------------------------------------------- analytics

  /** The distinct users among the rows. */
  function UserIds(rows: seq<DurationRow>): set<UserId>
    decreases |rows|
  {
    if rows == [] then {} else UserIds(rows[..|rows| - 1]) + {rows[|rows| - 1].record.userId}
  }

  /** A user is counted exactly when one of the rows is theirs, and there are
      never more users than rows. */
  lemma {:induction false} UserIdsAreDistinctUsers(rows: seq<DurationRow>)
    ensures forall u :: u in UserIds(rows) <==> exists i :: 0 <= i < |rows| && rows[i].record.userId == u
    ensures |UserIds(rows)| <= |rows|
    decreases |rows|
  {
    if rows != [] {
      var prefix := rows[..|rows| - 1];
      UserIdsAreDistinctUsers(prefix);
      forall u | u in UserIds(rows)
        ensures exists i :: 0 <= i < |rows| && rows[i].record.userId == u
      {
        if u in UserIds(prefix) {
          var i :| 0 <= i < |prefix| && prefix[i].record.userId == u;
          assert rows[i] == prefix[i];
        } else {
          assert rows[|rows| - 1].record.userId == u;
        }
      }
      forall u | exists i :: 0 <= i < |rows| && rows[i].record.userId == u
        ensures u in UserIds(rows)
      {
        var i :| 0 <= i < |rows| && rows[i].record.userId == u;
        if i < |rows| - 1 {
          assert prefix[i] == rows[i];
        }
      }
    }
  }

  /** `roomCounts[name] = (roomCounts[name] || 0) + 1`. */
  function Bump(counts: map<string, nat>, name: string): map<string, nat> {
    counts[name := (if name in counts then counts[name] else 0) + 1]
  }

  /** The per-room counters, keyed by room name. */
  function RoomCounts(rows: seq<DurationRow>): map<string, nat>
    decreases |rows|
  {
    if rows == [] then map[] else Bump(RoomCounts(rows[..|rows| - 1]), rows[|rows| - 1].record.roomName)
  }

  /** The room names in the order a counter was first created for them. */
  function FirstSeen(rows: seq<DurationRow>): seq<string>
    decreases |rows|
  {
    if rows == [] then []
    else
      var order := FirstSeen(rows[..|rows| - 1]);
      var name := rows[|rows| - 1].record.roomName;
      order + (if name in order then [] else [name])
  }

  function RoomNames(rows: seq<DurationRow>): (names: seq<string>)
    ensures |names| == |rows| && forall i :: 0 <= i < |rows| ==> names[i] == rows[i].record.roomName
  {
    seq(|rows|, i requires 0 <= i < |rows| => rows[i].record.roomName)
  }

  /** A counter exists exactly for the rooms in the creation order. */
  lemma {:induction false} CountedRoomsAreFirstSeen(rows: seq<DurationRow>)
    ensures forall n :: n in RoomCounts(rows) <==> n in FirstSeen(rows)
    decreases |rows|
  {
    if rows != [] {
      CountedRoomsAreFirstSeen(rows[..|rows| - 1]);
    }
  }

  /** Each counter holds the number of rows of its room, and the creation
      order lists every counted room exactly once. */
  lemma {:induction false} RoomCountsCountRows(rows: seq<DurationRow>)
    ensures forall n :: n in RoomCounts(rows) <==> n in FirstSeen(rows)
    ensures forall n :: n in RoomCounts(rows) ==> RoomCounts(rows)[n] == multiset(RoomNames(rows))[n] >= 1
    ensures forall n :: n !in RoomCounts(rows) ==> multiset(RoomNames(rows))[n] == 0
    ensures forall i, j :: 0 <= i < j < |FirstSeen(rows)| ==> FirstSeen(rows)[i] != FirstSeen(rows)[j]
    decreases |rows|
  {
    if rows != [] {
      var prefix := rows[..|rows| - 1];
      RoomCountsCountRows(prefix);
      assert RoomNames(rows) == RoomNames(prefix) + [rows[|rows| - 1].record.roomName];
    }
  }

  /** The `reduce` over the counters in creation order: a room replaces the
      current best only with a strictly larger count. */
  function MostUsed(order: seq<string>, counts: map<string, nat>, best: string, bestCount: int): (r: (string, int))
    requires forall i :: 0 <= i < |order| ==> order[i] in counts
    ensures r.1 >= bestCount
    ensures forall i :: 0 <= i < |order| ==> counts[order[i]] <= r.1
    ensures r == (best, bestCount) ||
      exists i :: 0 <= i < |order| && order[i] == r.0 && counts[r.0] == r.1 && r.1 > bestCount &&
        forall j :: 0 <= j < i ==> counts[order[j]] < r.1
    decreases |order|
  {
    if order == [] then (best, bestCount)
    else
      var first := order[0];
      var r := if counts[first] > bestCount then MostUsed(order[1..], counts, first, counts[first])
               else MostUsed(order[1..], counts, best, bestCount);
      assert forall i :: 1 <= i < |order| ==> order[i] == order[1..][i - 1];
      r
  }

  function MostUsedRoom(rows: seq<DurationRow>): string {
    CountedRoomsAreFirstSeen(rows);
    MostUsed(FirstSeen(rows), RoomCounts(rows), "N/A", 0).0
  }

  /** With no rows the most used room is "N/A"; otherwise it is a counted room
      with the largest count, and the first such room in creation order. */
  lemma MostUsedRoomIsFirstMaximum(rows: seq<DurationRow>)
    ensures rows == [] ==> MostUsedRoom(rows) == "N/A"
    ensures rows != [] ==>
      var counts := RoomCounts(rows);
      var best := MostUsedRoom(rows);
      && best in counts
      && (forall j :: 0 <= j < |FirstSeen(rows)| ==> FirstSeen(rows)[j] in counts)
      && (forall n :: n in counts ==> counts[n] <= counts[best])
      && exists i :: 0 <= i < |FirstSeen(rows)| && FirstSeen(rows)[i] == best &&
           forall j :: 0 <= j < i ==> counts[FirstSeen(rows)[j]] < counts[best]
  {
    RoomCountsCountRows(rows);
    if rows != [] {
      var order := FirstSeen(rows);
      var counts := RoomCounts(rows);
      var name := rows[|rows| - 1].record.roomName;
      assert name in RoomNames(rows);
      assert name in counts;
      var k :| 0 <= k < |order| && order[k] == name;
      var r := MostUsed(order, counts, "N/A", 0);
      assert r.1 >= counts[name] >= 1;
    }
  }

  /** `Math.round(t / c)` for a positive count: the nearest integer, halves
      rounded up. */
  function RoundDiv(t: int, c: int): (q: int)
    requires c > 0
    ensures 2 * c * q <= 2 * t + c < 2 * c * (q + 1)
  {
    var q := (2 * t + c) / (2 * c);
    assert 2 * t + c == 2 * c * q + (2 * t + c) % (2 * c);
    q
  }

  function AverageDuration(rows: seq<DurationRow>): int {
    if |rows| > 0 then RoundDiv(TotalDuration(rows), |rows|) else 0
  }

  datatype CheckInStats = CheckInStats(totalCheckIns: nat, totalUsers: nat, averageDuration: int, mostUsedRoom: string)

  /** The field the analytics query's range filter is on. */
  function CheckInTimeOf(c: CheckInRecord): int {
    c.checkInTime
  }

  function CheckInInRange(startDate: int, endDate: int): CheckInRecord -> bool {
    (c: CheckInRecord) => startDate <= c.checkInTime <= endDate
  }

  function InSelectedRoom(f: ReportFilters): CheckInRecord -> bool {
    (c: CheckInRecord) => RoomSelected(f, c.roomId)
  }

  /** Sort key of the newest-first lists. */
  function NewestFirst(r: DurationRow): int {
    -r.record.checkInTime
  }

  const AnalyticsListSize: nat := 20

  lemma RowsWhereStep(m: map<Id, CheckInRecord>, ids: seq<Id>, i: nat, keep: CheckInRecord -> bool)
    requires i < |ids| && forall j :: 0 <= j < |ids| ==> ids[j] in m
    ensures RowsWhere(m, ids[..i + 1], keep) ==
      RowsWhere(m, ids[..i], keep) + (if keep(m[ids[i]]) then [DurationRow(ids[i], m[ids[i]], Duration(m[ids[i]]))] else [])
  {
    assert ids[..i + 1][..i] == ids[..i];
  }

  /** Appending one row updates each accumulator by that row alone. */
  lemma AccumulatorsStep(all: seq<DurationRow>, row: DurationRow)
    ensures UserIds(all + [row]) == UserIds(all) + {row.record.userId}
    ensures TotalDuration(all + [row]) == TotalDuration(all) + row.duration
    ensures RoomCounts(all + [row]) == Bump(RoomCounts(all), row.record.roomName)
    ensures FirstSeen(all + [row]) == FirstSeen(all) + (if row.record.roomName in FirstSeen(all) then [] else [row.record.roomName])
  {
    assert (all + [row])[..|all|] == all;
  }

  /** One iteration of the check-in loop: a record outside the room selection
      adds nothing, any other record adds its own row. */
  lemma SelectedRowsStep(m: map<Id, CheckInRecord>, ids: seq<Id>, i: nat, f: ReportFilters)
    requires i < |ids| && forall j :: 0 <= j < |ids| ==> ids[j] in m
    ensures !RoomSelected(f, m[ids[i]].roomId) ==>
      RowsWhere(m, ids[..i + 1], InSelectedRoom(f)) == RowsWhere(m, ids[..i], InSelectedRoom(f))
    ensures RoomSelected(f, m[ids[i]].roomId) ==>
      RowsWhere(m, ids[..i + 1], InSelectedRoom(f)) ==
      RowsWhere(m, ids[..i], InSelectedRoom(f)) + [DurationRow(ids[i], m[ids[i]], Duration(m[ids[i]]))]
  {
    RowsWhereStep(m, ids, i, InSelectedRoom(f));
  }

  /** Folds one row into the user set, the room counters and the total. */
  method AddRow(all: seq<DurationRow>, row: DurationRow, userIds: set<UserId>, roomCounts: map<string, nat>,
                roomOrder: seq<string>, totalDuration: int)
    returns (userIds': set<UserId>, roomCounts': map<string, nat>, roomOrder': seq<string>, totalDuration': int)
    requires userIds == UserIds(all) && roomCounts == RoomCounts(all) && roomOrder == FirstSeen(all)
    requires totalDuration == TotalDuration(all)
    ensures userIds' == UserIds(all + [row]) && roomCounts' == RoomCounts(all + [row])
    ensures roomOrder' == FirstSeen(all + [row]) && totalDuration' == TotalDuration(all + [row])
  {
    CountedRoomsAreFirstSeen(all);
    AccumulatorsStep(all, row);
    userIds' := userIds + {row.record.userId};
    roomOrder' := roomOrder;
    if row.record.roomName !in roomCounts {
      roomOrder' := roomOrder + [row.record.roomName];
    }
    roomCounts' := Bump(roomCounts, row.record.roomName);
    totalDuration' := totalDuration + row.duration;
  }

  /** The accumulators agree with a list of rows. */
  predicate Accumulated(all: seq<DurationRow>, userIds: set<UserId>, roomCounts: map<string, nat>, roomOrder: seq<string>, totalDuration: int) {
    userIds == UserIds(all) && roomCounts == RoomCounts(all) && roomOrder == FirstSeen(all) && totalDuration == TotalDuration(all)
  }

  /** The body of the check-in loop for the record `ids[i]`. */
  method AccumulateOne(m: map<Id, CheckInRecord>, ids: seq<Id>, i: nat, f: ReportFilters,
                       all: seq<DurationRow>, userIds: set<UserId>, roomCounts: map<string, nat>, roomOrder: seq<string>, totalDuration: int)
    returns (all': seq<DurationRow>, userIds': set<UserId>, roomCounts': map<string, nat>, roomOrder': seq<string>, totalDuration': int)
    requires i < |ids| && forall j :: 0 <= j < |ids| ==> ids[j] in m
    requires all == RowsWhere(m, ids[..i], InSelectedRoom(f))
    requires Accumulated(all, userIds, roomCounts, roomOrder, totalDuration)
    ensures all' == RowsWhere(m, ids[..i + 1], InSelectedRoom(f))
    ensures Accumulated(all', userIds', roomCounts', roomOrder', totalDuration')
  {
    SelectedRowsStep(m, ids, i, f);
    all', userIds', roomCounts', roomOrder', totalDuration' := all, userIds, roomCounts, roomOrder, totalDuration;
    var c := m[ids[i]];
    if |f.selectedRooms| > 0 && c.roomId !in f.selectedRooms {
      return;
    }
    var duration := 0;
    if c.checkOutTime.Some? {
      duration := (c.checkOutTime.value - c.checkInTime) / MinuteMs;
    }
    var row := DurationRow(ids[i], c, duration);
    userIds', roomCounts', roomOrder', totalDuration' := AddRow(all, row, userIds, roomCounts, roomOrder, totalDuration);
    all' := all + [row];
  }

  /** The loop over the query result: skips rooms outside the selection and
      accumulates the rows, the user set, the room counters and the total. */
  method AccumulateCheckIns(m: map<Id, CheckInRecord>, ids: seq<Id>, f: ReportFilters)
    returns (all: seq<DurationRow>, userIds: set<UserId>, roomCounts: map<string, nat>, roomOrder: seq<string>, totalDuration: int)
    requires forall i :: 0 <= i < |ids| ==> ids[i] in m
    ensures all == RowsWhere(m, ids, InSelectedRoom(f))
    ensures userIds == UserIds(all)
    ensures roomCounts == RoomCounts(all) && roomOrder == FirstSeen(all)
    ensures totalDuration == TotalDuration(all)
  {
    all, userIds, roomCounts, roomOrder, totalDuration := [], {}, map[], [], 0;
    for i := 0 to |ids|
      invariant all == RowsWhere(m, ids[..i], InSelectedRoom(f))
      invariant Accumulated(all, userIds, roomCounts, roomOrder, totalDuration)
    {
      all, userIds, roomCounts, roomOrder, totalDuration := AccumulateOne(m, ids, i, f, all, userIds, roomCounts, roomOrder, totalDuration);
    }
    assert ids[..|ids|] == ids;
  }

  /** The query over the date range, then the room selection. */
  function AnalyticsRows(m: map<Id, CheckInRecord>, k: nat, f: ReportFilters): seq<DurationRow> {
    RowsWhere(m, RangeSelect(m, k, CheckInInRange(f.startDate, f.endDate), CheckInTimeOf), InSelectedRoom(f))
  }

  /** The check-ins of the date range, narrowed to the selected rooms, with
      their statistics and the 20 most recent of them. */
  method FetchCheckInData(db: ClientDb, f: ReportFilters) returns (stats: CheckInStats, shown: seq<DurationRow>)
    requires db.Valid()
    ensures var rows := AnalyticsRows(db.checkIns, db.nextId, f);
      && stats == CheckInStats(|rows|, |UserIds(rows)|, AverageDuration(rows), MostUsedRoom(rows))
      && |shown| == (if |rows| < AnalyticsListSize then |rows| else AnalyticsListSize)
      && Sorting.SortedBy(shown, NewestFirst)
      && (forall r :: r in shown ==> r in rows)
      && (forall x, y :: x in rows && x !in shown && y in shown ==> y.record.checkInTime >= x.record.checkInTime)
      && shown == Sorting.Take(Sorting.StableSort(rows, NewestFirst), AnalyticsListSize)
  {
    var ids := RangeSelect(db.checkIns, db.nextId, CheckInInRange(f.startDate, f.endDate), CheckInTimeOf);
    var all, userIds, roomCounts, roomOrder, totalDuration := AccumulateCheckIns(db.checkIns, ids, f);
    assert all == AnalyticsRows(db.checkIns, db.nextId, f);
    CountedRoomsAreFirstSeen(all);
    var mostUsedRoom := MostUsed(roomOrder, roomCounts, "N/A", 0).0;
    var averageDuration := if |all| > 0 then RoundDiv(totalDuration, |all|) else 0;
    stats := CheckInStats(|all|, |userIds|, averageDuration, mostUsedRoom);
    shown := NewestCheckIns(all);
  }

  /** Two kept records give two rows, in the order of their ids. */
  lemma RowsOfTwo(m: map<Id, CheckInRecord>, i: Id, j: Id, keep: CheckInRecord -> bool)
    requires i in m && j in m && keep(m[i]) && keep(m[j])
    ensures RowsWhere(m, [i, j], keep) == [DurationRow(i, m[i], Duration(m[i])), DurationRow(j, m[j], Duration(m[j]))]
  {
    assert [i, j][..1] == [i];
    assert [i][..0] == [];
  }

  /** Two rows in different rooms: the first room is first seen, and of the
      equal counts the first room wins. */
  lemma MostUsedOfTwo(x: DurationRow, y: DurationRow)
    requires x.record.roomName != y.record.roomName
    ensures MostUsedRoom([x, y]) == x.record.roomName
  {
    var rows := [x, y];
    assert rows[..1] == [x];
    assert [x][..0] == [];
    assert FirstSeen([x]) == [x.record.roomName];
    assert RoomCounts([x]) == map[x.record.roomName := 1];
    assert FirstSeen(rows) == [x.record.roomName, y.record.roomName];
    assert RoomCounts(rows)[x.record.roomName] == 1 && RoomCounts(rows)[y.record.roomName] == 1;
    MostUsedRoomIsFirstMaximum(rows);
  }

  /** The analytics query delivers check-ins by check-in time, so of two rooms
      with equal counts the one checked into first is the most used: here room
      "B" has the lower id but the later check-in, and "A" is reported. */
  lemma EqualCountsGoToEarlierCheckIn()
    ensures var m := map[0 := CheckInRecord("u", "rb", "B", 200, None, Active),
                         1 := CheckInRecord("u", "ra", "A", 100, None, Active)];
      MostUsedRoom(AnalyticsRows(m, 2, ReportFilters(0, 1000, []))) == "A"
  {
    var a := CheckInRecord("u", "ra", "A", 100, None, Active);
    var b := CheckInRecord("u", "rb", "B", 200, None, Active);
    var m := map[0 := b, 1 := a];
    var f := ReportFilters(0, 1000, []);
    ExampleOrder(m, f);
    RowsOfTwo(m, 1, 0, InSelectedRoom(f));
    MostUsedOfTwo(DurationRow(1, a, 0), DurationRow(0, b, 0));
  }

  lemma ExampleOrder(m: map<Id, CheckInRecord>, f: ReportFilters)
    requires m == map[0 := CheckInRecord("u", "rb", "B", 200, None, Active),
                       1 := CheckInRecord("u", "ra", "A", 100, None, Active)]
    requires f == ReportFilters(0, 1000, [])
    ensures RangeSelect(m, 2, CheckInInRange(f.startDate, f.endDate), CheckInTimeOf) == [1, 0]
  {
    BothInRange(m, f);
    EarlierFirst(FieldOf(m, CheckInTimeOf));
  }

  lemma BothInRange(m: map<Id, CheckInRecord>, f: ReportFilters)
    requires m == map[0 := CheckInRecord("u", "rb", "B", 200, None, Active),
                       1 := CheckInRecord("u", "ra", "A", 100, None, Active)]
    requires f == ReportFilters(0, 1000, [])
    ensures Select(m, 2, CheckInInRange(f.startDate, f.endDate)) == [0, 1]
  {
    assert Select(m, 1, CheckInInRange(f.startDate, f.endDate)) == [0];
  }

  lemma EarlierFirst(key: Id -> int)
    requires key(1) < key(0)
    ensures Sorting.StableSort<Id>([0, 1], key) == [1, 0]
  {
    var one: seq<Id> := [0];
    var two: seq<Id> := [0, 1];
    assert Sorting.StableSort(one, key) == one;
    assert two[..1] == one;
    assert Sorting.StableSort(two, key) == Sorting.Insert(1, one, key);
  }

  /** The 20 most recent check-ins of the analytics list. */
  method NewestCheckIns(rows: seq<DurationRow>) returns (shown: seq<DurationRow>)
    ensures |shown| == (if |rows| < AnalyticsListSize then |rows| else AnalyticsListSize)
    ensures Sorting.SortedBy(shown, NewestFirst)
    ensures forall r :: r in shown ==> r in rows
    ensures forall x, y :: x in rows && x !in shown && y in shown ==> y.record.checkInTime >= x.record.checkInTime
    ensures shown == Sorting.Take(Sorting.StableSort(rows, NewestFirst), AnalyticsListSize)
  {
    shown := Sorting.SmallestByKey(rows, NewestFirst, AnalyticsListSize);
    forall x, y | x in rows && x !in shown && y in shown
      ensures y.record.checkInTime >= x.record.checkInTime
    {
      assert NewestFirst(y) <= NewestFirst(x);
    }
  }

  // ---------------------------------------------------------------- dashboard

  /** A listed schedule with its id. */
  datatype ScheduleRow = ScheduleRow(id: Id, schedule: RoomSchedule)

  function ScheduleRows(m: map<Id, RoomSchedule>, ids: seq<Id>): (rows: seq<ScheduleRow>)
    requires forall i :: 0 <= i < |ids| ==> ids[i] in m
    ensures |rows| == |ids| && forall i :: 0 <= i < |ids| ==> rows[i] == ScheduleRow(ids[i], m[ids[i]])
  {
    seq(|ids|, i requires 0 <= i < |ids| => ScheduleRow(ids[i], m[ids[i]]))
  }

  /** `rows.filter(...)` on the schedule: the kept rows, in order. */
  function FilterRows(rows: seq<ScheduleRow>, keep: RoomSchedule -> bool): (kept: seq<ScheduleRow>)
    ensures |kept| <= |rows|
    ensures forall r :: r in kept <==> r in rows && keep(r.schedule)
    decreases |rows|
  {
    if rows == [] then []
    else FilterRows(rows[..|rows| - 1], keep) + (if keep(rows[|rows| - 1].schedule) then [rows[|rows| - 1]] else [])
  }

  /** The field the dashboard query's range filter is on. */
  function StartTimeOf(s: RoomSchedule): int {
    s.startTime
  }

  function StartsInRange(startDate: int, endDate: int): RoomSchedule -> bool {
    (s: RoomSchedule) => startDate <= s.startTime <= endDate
  }

  function ScheduleInSelectedRoom(f: ReportFilters): RoomSchedule -> bool {
    (s: RoomSchedule) => RoomSelected(f, s.roomId)
  }

  predicate IsUnderway(s: RoomSchedule, now: int) {
    s.startTime <= now && s.endTime >= now
  }

  predicate IsUpcoming(s: RoomSchedule, now: int) {
    s.startTime > now && s.status != Cancelled
  }

  /** The rooms with a schedule underway now. */
  function ActiveRooms(rows: seq<ScheduleRow>, now: int): set<RoomId>
    decreases |rows|
  {
    if rows == [] then {}
    else
      var last := rows[|rows| - 1].schedule;
      ActiveRooms(rows[..|rows| - 1], now) + (if IsUnderway(last, now) then {last.roomId} else {})
  }

  function CountUnderway(rows: seq<ScheduleRow>, now: int): nat
    decreases |rows|
  {
    if rows == [] then 0
    else CountUnderway(rows[..|rows| - 1], now) + (if IsUnderway(rows[|rows| - 1].schedule, now) then 1 else 0)
  }

  function CountUpcoming(rows: seq<ScheduleRow>, now: int): nat
    decreases |rows|
  {
    if rows == [] then 0
    else CountUpcoming(rows[..|rows| - 1], now) + (if IsUpcoming(rows[|rows| - 1].schedule, now) then 1 else 0)
  }

  function CountCompleted(rows: seq<ScheduleRow>): nat
    decreases |rows|
  {
    if rows == [] then 0
    else CountCompleted(rows[..|rows| - 1]) + (if rows[|rows| - 1].schedule.status == Completed then 1 else 0)
  }

  /** A room is active exactly when one of its schedules is underway. */
  lemma {:induction false} ActiveRoomsAreUnderwayRooms(rows: seq<ScheduleRow>, now: int)
    ensures forall roomId :: roomId in ActiveRooms(rows, now) <==>
      exists i :: 0 <= i < |rows| && rows[i].schedule.roomId == roomId && IsUnderway(rows[i].schedule, now)
    decreases |rows|
  {
    if rows != [] {
      var prefix := rows[..|rows| - 1];
      ActiveRoomsAreUnderwayRooms(prefix, now);
      forall roomId | roomId in ActiveRooms(rows, now)
        ensures exists i :: 0 <= i < |rows| && rows[i].schedule.roomId == roomId && IsUnderway(rows[i].schedule, now)
      {
        if roomId in ActiveRooms(prefix, now) {
          var i :| 0 <= i < |prefix| && prefix[i].schedule.roomId == roomId && IsUnderway(prefix[i].schedule, now);
          assert rows[i] == prefix[i];
        }
      }
      forall roomId | exists i :: 0 <= i < |rows| && rows[i].schedule.roomId == roomId && IsUnderway(rows[i].schedule, now)
        ensures roomId in ActiveRooms(rows, now)
      {
        var i :| 0 <= i < |rows| && rows[i].schedule.roomId == roomId && IsUnderway(rows[i].schedule, now);
        if i < |rows| - 1 {
          assert prefix[i] == rows[i];
        }
      }
    }
  }

  /** An entry is never both underway and upcoming, and each active room has
      at least one underway entry, so the counters are bounded by the number
      of bookings. */
  lemma {:induction false} DashboardCountsAreBounded(rows: seq<ScheduleRow>, now: int)
    ensures |ActiveRooms(rows, now)| <= CountUnderway(rows, now)
    ensures CountUnderway(rows, now) + CountUpcoming(rows, now) <= |rows|
    ensures CountCompleted(rows) <= |rows|
    decreases |rows|
  {
    if rows != [] {
      DashboardCountsAreBounded(rows[..|rows| - 1], now);
    }
  }

  datatype ReservationStats = ReservationStats(totalBookings: nat, activeRooms: nat, upcomingReservations: nat, completedReservations: nat)

  /** Sort key of the latest-first schedule lists. */
  function LatestFirst(r: ScheduleRow): int {
    -r.schedule.startTime
  }

  const RecentListSize: nat := 10

  /** The `forEach` over the filtered schedules. */
  method CountSchedules(filtered: seq<ScheduleRow>, now: int) returns (stats: ReservationStats)
    ensures stats == ReservationStats(|filtered|, |ActiveRooms(filtered, now)|, CountUpcoming(filtered, now), CountCompleted(filtered))
  {
    var activeRoomIds: set<RoomId> := {};
    var upcoming := 0;
    var completed := 0;
    for i := 0 to |filtered|
      invariant activeRoomIds == ActiveRooms(filtered[..i], now)
      invariant upcoming == CountUpcoming(filtered[..i], now)
      invariant completed == CountCompleted(filtered[..i])
    {
      assert filtered[..i + 1][..i] == filtered[..i];
      var s := filtered[i].schedule;
      if s.startTime <= now && s.endTime >= now {
        activeRoomIds := activeRoomIds + {s.roomId};
      }
      if s.startTime > now && s.status != Cancelled {
        upcoming := upcoming + 1;
      }
      if s.status == Completed {
        completed := completed + 1;
      }
    }
    assert filtered[..|filtered|] == filtered;
    stats := ReservationStats(|filtered|, |activeRoomIds|, upcoming, completed);
  }

  /** The query over the date range, then the room selection. */
  function DashboardRows(m: map<Id, RoomSchedule>, k: nat, f: ReportFilters): seq<ScheduleRow> {
    FilterRows(ScheduleRows(m, RangeSelect(m, k, StartsInRange(f.startDate, f.endDate), StartTimeOf)), ScheduleInSelectedRoom(f))
  }

  /** Runs auto-completion first, then counts the schedules starting in the
      date range (narrowed to the selected rooms) and lists the 10 latest. */
  method FetchReservationData(db: ClientDb, f: ReportFilters, now: int) returns (stats: ReservationStats, recent: seq<ScheduleRow>)
    requires db.Valid()
    modifies db
    ensures db.Valid()
    ensures db.schedules == StatusService.AutoCompleteAll(old(db.schedules), now)
    ensures db.checkIns == old(db.checkIns) && db.rooms == old(db.rooms) && db.nextId == old(db.nextId)
    ensures var rows := DashboardRows(db.schedules, db.nextId, f);
      && stats == ReservationStats(|rows|, |ActiveRooms(rows, now)|, CountUpcoming(rows, now), CountCompleted(rows))
      && |recent| == (if |rows| < RecentListSize then |rows| else RecentListSize)
      && Sorting.SortedBy(recent, LatestFirst)
      && (forall r :: r in recent ==> r in rows)
      && (forall x, y :: x in rows && x !in recent && y in recent ==> y.schedule.startTime >= x.schedule.startTime)
      && recent == Sorting.Take(Sorting.StableSort(rows, LatestFirst), RecentListSize)
  {
    var ignoredUpdates := StatusService.AutoCompleteExpiredReservations(db, now);
    var filtered := DashboardRows(db.schedules, db.nextId, f);
    stats := CountSchedules(filtered, now);
    recent := LatestSchedules(filtered);
  }

  /** The 10 latest-starting entries of the dashboard list. */
  method LatestSchedules(rows: seq<ScheduleRow>) returns (recent: seq<ScheduleRow>)
    ensures |recent| == (if |rows| < RecentListSize then |rows| else RecentListSize)
    ensures Sorting.SortedBy(recent, LatestFirst)
    ensures forall r :: r in recent ==> r in rows
    ensures forall x, y :: x in rows && x !in recent && y in recent ==> y.schedule.startTime >= x.schedule.startTime
    ensures recent == Sorting.Take(Sorting.StableSort(rows, LatestFirst), RecentListSize)
  {
    recent := Sorting.SmallestByKey(rows, LatestFirst, RecentListSize);
    forall x, y | x in rows && x !in recent && y in recent
      ensures y.schedule.startTime >= x.schedule.startTime
    {
      assert LatestFirst(y) <= LatestFirst(x);
    }
  }

  // ---------------------------------------------------------------- professor reports

  function OwnSchedule(professorId: UserId): RoomSchedule -> bool {
    (s: RoomSchedule) => s.professorId == professorId
  }

  function OwnCheckIn(userId: UserId): CheckInRecord -> bool {
    (c: CheckInRecord) => c.userId == userId
  }

  /** The loop over the professor's check-ins: keeps those made in the date
      range, each with its duration. */
  method CollectInRange(m: map<Id, CheckInRecord>, ids: seq<Id>, f: ReportFilters) returns (mine: seq<DurationRow>)
    requires forall i :: 0 <= i < |ids| ==> ids[i] in m
    ensures mine == RowsWhere(m, ids, CheckInInRange(f.startDate, f.endDate))
  {
    mine := [];
    for i := 0 to |ids|
      invariant mine == RowsWhere(m, ids[..i], CheckInInRange(f.startDate, f.endDate))
    {
      RowsWhereStep(m, ids, i, CheckInInRange(f.startDate, f.endDate));
      var c := m[ids[i]];
      if c.checkInTime >= f.startDate && c.checkInTime <= f.endDate {
        var duration := if c.checkOutTime.Some? then (c.checkOutTime.value - c.checkInTime) / MinuteMs else 0;
        mine := mine + [DurationRow(ids[i], c, duration)];
      }
    }
    assert ids[..|ids|] == ids;
  }

  /** The professor's schedules starting in the range, latest first, and their
      check-ins made in the range, newest first. */
  method FetchProfessorReports(db: ClientDb, professorId: UserId, f: ReportFilters)
    returns (reservations: seq<ScheduleRow>, checkIns: seq<DurationRow>)
    requires db.Valid()
    ensures multiset(reservations) == multiset(FilterRows(ScheduleRows(db.schedules, Select(db.schedules, db.nextId, OwnSchedule(professorId))),
                                                          StartsInRange(f.startDate, f.endDate)))
    ensures Sorting.SortedBy(reservations, LatestFirst)
    ensures multiset(checkIns) == multiset(RowsWhere(db.checkIns, Select(db.checkIns, db.nextId, OwnCheckIn(professorId)),
                                                     CheckInInRange(f.startDate, f.endDate)))
    ensures Sorting.SortedBy(checkIns, NewestFirst)
    ensures reservations == Sorting.StableSort(FilterRows(ScheduleRows(db.schedules, Select(db.schedules, db.nextId, OwnSchedule(professorId))),
                                                          StartsInRange(f.startDate, f.endDate)), LatestFirst)
    ensures checkIns == Sorting.StableSort(RowsWhere(db.checkIns, Select(db.checkIns, db.nextId, OwnCheckIn(professorId)),
                                                     CheckInInRange(f.startDate, f.endDate)), NewestFirst)
  {
    var own := ScheduleRows(db.schedules, Select(db.schedules, db.nextId, OwnSchedule(professorId)));
    var inRange := FilterRows(own, StartsInRange(f.startDate, f.endDate));
    reservations := Sorting.SortByKey(inRange, LatestFirst);

    var ids := Select(db.checkIns, db.nextId, OwnCheckIn(professorId));
    var mine := CollectInRange(db.checkIns, ids, f);
    checkIns := Sorting.SortByKey(mine, NewestFirst);
  }

  // ---------------------------------------------------------------- formatting

  function DigitChar(d: nat): (c: char)
    requires d < 10
    ensures '0' <= c <= '9' && (c as int) - ('0' as int) == d
  {
    (('0' as int) + d) as char
  }

  /** The decimal text of `n`, as template-literal interpolation writes it. */
  function NatToString(n: nat): (s: string)
    ensures |s| >= 1
    ensures forall i :: 0 <= i < |s| ==> '0' <= s[i] <= '9'
    ensures |s| > 1 ==> s[0] != '0'
  {
    if n < 10 then [DigitChar(n)] else NatToString(n / 10) + [DigitChar(n % 10)]
  }

  function IntToString(i: int): string {
    if i < 0 then "-" + NatToString(-i) else NatToString(i)
  }

  /** The value of a string of decimal digits. */
  function DecimalValue(s: string): int
    decreases |s|
  {
    if s == [] then 0 else DecimalValue(s[..|s| - 1]) * 10 + ((s[|s| - 1] as int) - ('0' as int))
  }

  lemma {:induction false} DecimalRoundTrip(n: nat)
    ensures DecimalValue(NatToString(n)) == n
  {
    if n >= 10 {
      DecimalRoundTrip(n / 10);
      var s := NatToString(n);
      assert s[..|s| - 1] == NatToString(n / 10);
    }
  }

  /** JavaScript's `%`, whose result takes the sign of the dividend. */
  function JsRem(a: int, b: int): int
    requires b > 0
  {
    if a >= 0 then a % b else -((-a) % b)
  }

  /** `formatDuration`: hours are `Math.floor(minutes / 60)`, minutes the
      JavaScript remainder, and a zero hour count is omitted. */
  function FormatDuration(minutes: int): string {
    var hours := minutes / 60;
    var mins := JsRem(minutes, 60);
    if hours == 0 then IntToString(mins) + "m" else IntToString(hours) + "h " + IntToString(mins) + "m"
  }

  /** Reads a non-negative duration back from its text. */
  function ParseDuration(s: string): Option<int> {
    if |s| < 2 || s[|s| - 1] != 'm' then None else ParseDurationBody(s[..|s| - 1])
  }

  /** The text before the final "m": plain minutes, or hours, "h ", minutes. */
  function ParseDurationBody(body: string): Option<int> {
    match FirstSpace(body)
    case None => Some(DecimalValue(body))
    case Some(k) =>
      if k < 1 || body[k - 1] != 'h' then None
      else Some(DecimalValue(body[..k - 1]) * 60 + DecimalValue(body[k + 1..]))
  }

  function FirstSpace(s: string): (k: Option<nat>)
    ensures k.Some? ==> k.value < |s| && s[k.value] == ' ' && forall j :: 0 <= j < k.value ==> s[j] != ' '
    ensures k.None? ==> ' ' !in s
    decreases |s|
  {
    if s == [] then None
    else if s[0] == ' ' then Some(0)
    else match FirstSpace(s[1..])
      case None => None
      case Some(k) => Some(k + 1)
  }

  lemma DigitsHaveNoSpace(n: nat)
    ensures ' ' !in NatToString(n)
  {
  }

  /** Below an hour only the minutes are written. */
  lemma ShortDurationRoundTrip(minutes: nat)
    requires minutes < 60
    ensures FormatDuration(minutes) == NatToString(minutes) + "m"
    ensures ParseDuration(FormatDuration(minutes)) == Some(minutes)
  {
    var s := FormatDuration(minutes);
    assert s[..|s| - 1] == NatToString(minutes);
    DigitsHaveNoSpace(minutes);
    DecimalRoundTrip(minutes);
  }

  /** The first space of "<digits>h <rest>" is right after the "h". */
  lemma FirstSpaceAfterHours(h: string, rest: string)
    requires ' ' !in h
    ensures FirstSpace(h + "h " + rest) == Some(|h| + 1)
  {
    var body := h + "h " + rest;
    assert body[|h| + 1] == ' ';
    assert forall j :: 0 <= j < |h| ==> body[j] == h[j];
    assert body[|h|] == 'h';
  }

  lemma ParseStripsFinalM(body: string)
    requires |body| >= 1
    ensures ParseDuration(body + "m") == ParseDurationBody(body)
  {
    assert (body + "m")[..|body|] == body;
  }

  lemma ParseBodyAt(body: string, k: nat, h: string, m: string)
    requires FirstSpace(body) == Some(k) && k >= 1 && body[k - 1] == 'h'
    requires body[..k - 1] == h && body[k + 1..] == m
    ensures ParseDurationBody(body) == Some(DecimalValue(h) * 60 + DecimalValue(m))
  {
  }

  lemma HoursTextParts(h: string, m: string)
    ensures (h + "h " + m)[|h|] == 'h'
    ensures (h + "h " + m)[..|h|] == h
    ensures (h + "h " + m)[|h| + 2..] == m
  {
  }

  /** Text of the form "<digits>h <digits>m" is read as hours and minutes. */
  lemma ParseHoursAndMinutes(h: string, m: string)
    requires ' ' !in h
    ensures ParseDuration(h + "h " + m + "m") == Some(DecimalValue(h) * 60 + DecimalValue(m))
  {
    var body := h + "h " + m;
    ParseStripsFinalM(body);
    FirstSpaceAfterHours(h, m);
    HoursTextParts(h, m);
    ParseBodyAt(body, |h| + 1, h, m);
  }

  /** From an hour on, the text is whole hours, "h ", and the remaining minutes. */
  lemma LongDurationRoundTrip(minutes: nat)
    requires minutes >= 60
    ensures FormatDuration(minutes) == NatToString(minutes / 60) + "h " + NatToString(minutes % 60) + "m"
    ensures ParseDuration(FormatDuration(minutes)) == Some(minutes)
  {
    var hours: nat := minutes / 60;
    var mins: nat := minutes % 60;
    assert hours >= 1 && JsRem(minutes, 60) == mins;
    assert FormatDuration(minutes) == NatToString(hours) + "h " + NatToString(mins) + "m";
    DigitsHaveNoSpace(hours);
    ParseHoursAndMinutes(NatToString(hours), NatToString(mins));
    DecimalRoundTrip(hours);
    DecimalRoundTrip(mins);
    assert hours * 60 + mins == minutes;
  }

  /** For a non-negative count, the text splits it into whole hours and the
      remaining minutes below 60, omits a zero hour count, and reads back to
      the same number of minutes. */
  lemma FormatDurationRoundTrip(minutes: nat)
    ensures (minutes / 60) * 60 + minutes % 60 == minutes && minutes % 60 < 60
    ensures minutes < 60 ==> FormatDuration(minutes) == NatToString(minutes) + "m"
    ensures minutes >= 60 ==> FormatDuration(minutes) == NatToString(minutes / 60) + "h " + NatToString(minutes % 60) + "m"
    ensures ParseDuration(FormatDuration(minutes)) == Some(minutes)
  {
    if minutes < 60 {
      ShortDurationRoundTrip(minutes);
    } else {
      LongDurationRoundTrip(minutes);
    }
  }

  /** A negative count keeps the sign on both parts, because the hours round
      down while the remainder truncates: -30 minutes reads "-1h -30m". */
  lemma NegativeDurationText()
    ensures FormatDuration(-30) == "-1h -30m"
  {
    assert NatToString(30) == NatToString(3) + ['0'];
  }
}
