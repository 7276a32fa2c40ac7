/** The two scheduled sweepers (functions/src/sweepers.ts). Each run reads the
    clock once (`now`), scans its query results in ascending id order and
    stages writes in a batch that is committed whenever it is full and once
    more at the end if anything is left. The model returns how many writes
    were staged and how many commits were issued. */
module Sweepers {
  import opened Wrappers
  import opened Models
  import opened Store
  import TimeUtils
  import Reservations
  import Checkins

  /** Writes per committed batch. */
  const BatchLimit: nat := 500

  /** Commits needed to flush `writes` writes in full batches plus a final partial one. */
  function CommitsFor(writes: nat): nat {
    (writes + BatchLimit - 1) / BatchLimit
  }

  /** Every write is in exactly one commit: the commits hold at least `writes`
      writes, and one commit fewer would not. */
  lemma CommitsForIsTight(writes: nat)
    ensures CommitsFor(writes) * BatchLimit >= writes
    ensures CommitsFor(writes) > 0 ==> (CommitsFor(writes) - 1) * BatchLimit < writes
    ensures CommitsFor(writes) == writes / BatchLimit + (if writes % BatchLimit > 0 then 1 else 0)
  {
  }

  // ---------------------------------------------------------------- no-show pass

  /** A scheduled, open reservation whose start is at least 15 minutes past. */
  predicate NoShowDue(r: Reservation, now: int) {
    r.status == Scheduled && !r.closed && TimeUtils.IsNoShow(r.startAt, now)
  }

  /** What the no-show sweeper does to one record. */
  function NoShowStep(r: Reservation, now: int): (r': Reservation)
    ensures Advances(r, r')
    ensures r' != r <==> NoShowDue(r, now)
    ensures r'.closed == r.closed && r'.finalizedAt == r.finalizedAt
  {
    if NoShowDue(r, now) then r.(status := NoShow) else r
  }

  function NoShowSweep(m: map<Id, Reservation>, now: int): map<Id, Reservation> {
    map id | id in m :: NoShowStep(m[id], now)
  }

  /** The store after the no-show loop has handled every id below `k`. */
  function NoShowPrefix(m: map<Id, Reservation>, k: nat, now: int): map<Id, Reservation> {
    map id | id in m :: if id < k then NoShowStep(m[id], now) else m[id]
  }

  /** How many records with an id below `k` the no-show sweeper marks. */
  function CountNoShowDue(m: map<Id, Reservation>, k: nat, now: int): nat {
    if k == 0 then 0
    else CountNoShowDue(m, k - 1, now) + (if k - 1 in m && NoShowDue(m[k - 1], now) then 1 else 0)
  }

  /** A second run at the same instant marks nothing more and changes nothing. */
  lemma {:induction false} NoShowSweepIsIdempotent(m: map<Id, Reservation>, k: nat, now: int)
    ensures NoShowSweep(NoShowSweep(m, now), now) == NoShowSweep(m, now)
    ensures CountNoShowDue(NoShowSweep(m, now), k, now) == 0
  {
    if k > 0 {
      NoShowSweepIsIdempotent(m, k - 1, now);
    }
  }

  /** `full` committed batches and a pending batch of `pending` writes need
      one more commit exactly when something is pending. */
  lemma FlushCount(full: nat, pending: nat)
    requires pending < BatchLimit
    ensures CommitsFor(full * BatchLimit + pending) == full + (if pending > 0 then 1 else 0)
  {
  }

  /** A sweep that only rewrites records into ones that no longer hold their
      room, keeping their times, keeps the store invariant. */
  lemma ReleasingKeepsValid(m: map<Id, Reservation>, m': map<Id, Reservation>)
    requires NoDoubleBooking(m) && WellFormed(m)
    requires m'.Keys == m.Keys
    requires forall id :: id in m ==> m'[id] == m[id] || (!Holds(m'[id]) && m'[id].startAt == m[id].startAt && m'[id].endAt == m[id].endAt)
    ensures NoDoubleBooking(m') && WellFormed(m')
  {
  }

  /** One step of the no-show loop: a due record is marked and counted; any
      other id changes nothing. */
  lemma NoShowPrefixStep(m: map<Id, Reservation>, k: nat, now: int)
    ensures if k in m && NoShowDue(m[k], now) then
        && NoShowPrefix(m, k + 1, now) == NoShowPrefix(m, k, now)[k := m[k].(status := NoShow)]
        && CountNoShowDue(m, k + 1, now) == CountNoShowDue(m, k, now) + 1
      else
        && NoShowPrefix(m, k + 1, now) == NoShowPrefix(m, k, now)
        && CountNoShowDue(m, k + 1, now) == CountNoShowDue(m, k, now)
  {
    if !(k in m && NoShowDue(m[k], now)) {
      assert NoShowPrefix(m, k + 1, now) == NoShowPrefix(m, k, now);
    }
  }

  lemma NoShowPrefixComplete(m: map<Id, Reservation>, bound: nat, now: int)
    requires forall id :: id in m ==> id < bound
    ensures NoShowPrefix(m, bound, now) == NoShowSweep(m, now)
  {
  }

  /** The no-show loop over the query snapshot `m0`: stages one write per due
      record and commits every full batch. */
  method StageNoShows(m0: map<Id, Reservation>, bound: nat, now: int)
    returns (m: map<Id, Reservation>, writes: nat, commits: nat, pending: nat)
    ensures m == NoShowPrefix(m0, bound, now)
    ensures writes == CountNoShowDue(m0, bound, now)
    ensures writes == commits * BatchLimit + pending && pending < BatchLimit
  {
    m := m0;
    writes, commits, pending := 0, 0, 0;
    for id := 0 to bound
      invariant m == NoShowPrefix(m0, id, now)
      invariant writes == CountNoShowDue(m0, id, now)
      invariant writes == commits * BatchLimit + pending && pending < BatchLimit
    {
      NoShowPrefixStep(m0, id, now);
      if id in m0 && NoShowDue(m0[id], now) {
        m := m[id := m0[id].(status := NoShow)];
        writes := writes + 1;
        commits, pending := StageWrite(commits, pending);
      }
    }
  }

  /** Counts one write into the batch and commits once 500 are pending. */
  method StageWrite(commits: nat, pending: nat) returns (commits': nat, pending': nat)
    requires pending < BatchLimit
    ensures commits' * BatchLimit + pending' == commits * BatchLimit + pending + 1
    ensures pending' < BatchLimit
  {
    commits', pending' := commits, pending + 1;
    if pending' >= BatchLimit {
      commits', pending' := commits' + 1, 0;
    }
  }

  method SweeperAutoNoShow(db: Db, now: int) returns (writes: nat, commits: nat)
    requires db.Valid()
    modifies db
    ensures db.Valid()
    ensures db.reservations == NoShowSweep(old(db.reservations), now)
    ensures db.rooms == old(db.rooms) && db.checkins == old(db.checkins) && db.nextId == old(db.nextId)
    ensures writes == CountNoShowDue(old(db.reservations), old(db.nextId), now)
    ensures commits == CommitsFor(writes)
  {
    var m, pending;
    m, writes, commits, pending := StageNoShows(db.reservations, db.nextId, now);
    FlushCount(commits, pending);
    if pending > 0 {
      commits := commits + 1;
    }
    NoShowPrefixComplete(db.reservations, db.nextId, now);
    ReleasingKeepsValid(db.reservations, m);
    db.reservations := m;
  }

  // ---------------------------------------------------------------- finalize pass 1: auto check-out

  /** An open session whose end is at least 10 minutes past. */
  predicate AutoCheckoutDue(r: Reservation, now: int) {
    r.status == InSession && !r.closed && TimeUtils.ShouldAutoFinalize(r.endAt, now)
  }

  function AutoCheckoutStep(r: Reservation, now: int): (r': Reservation)
    ensures Advances(r, r')
    ensures r' != r <==> AutoCheckoutDue(r, now)
    ensures AutoCheckoutDue(r, now) ==> r'.closed && r'.finalizedAt == Some(now)
  {
    if AutoCheckoutDue(r, now) then Checkins.Completed(r, now) else r
  }

  function AutoCheckoutPrefix(m: map<Id, Reservation>, k: nat, now: int): map<Id, Reservation> {
    map id | id in m :: if id < k then AutoCheckoutStep(m[id], now) else m[id]
  }

  function CountAutoCheckoutDue(m: map<Id, Reservation>, k: nat, now: int): nat {
    if k == 0 then 0
    else CountAutoCheckoutDue(m, k - 1, now) + (if k - 1 in m && AutoCheckoutDue(m[k - 1], now) then 1 else 0)
  }

  /** The automatic CHECK_OUT events for the due sessions with an id below `k`,
      in id order, numbered from `base`. */
  function AutoCheckoutEvents(m: map<Id, Reservation>, k: nat, base: nat, now: int): (es: seq<FacultyCheckIn>)
    ensures |es| == CountAutoCheckoutDue(m, k, now)
  {
    if k == 0 then []
    else
      var es := AutoCheckoutEvents(m, k - 1, base, now);
      if k - 1 in m && AutoCheckoutDue(m[k - 1], now) then
        es + [FacultyCheckIn(base + |es|, k - 1, m[k - 1].userId, m[k - 1].roomId, CheckOut, Auto, now)]
      else es
  }

  /** One automatic event is an AUTO check-out at `now` for a due session with
      an id below `k`, made on behalf of that session's professor in its room. */
  predicate DescribesDueSession(e: FacultyCheckIn, m: map<Id, Reservation>, k: nat, now: int) {
    && e.kind == CheckOut && e.via == Auto && e.timestamp == now
    && e.reservationId < k && e.reservationId in m && AutoCheckoutDue(m[e.reservationId], now)
    && e.userId == m[e.reservationId].userId && e.roomId == m[e.reservationId].roomId
  }

  /** The automatic events are numbered consecutively from `base`, each
      describes a due session, and they follow the order of the session ids. */
  lemma {:induction false} AutoCheckoutEventsDescribeDueSessions(m: map<Id, Reservation>, k: nat, base: nat, now: int)
    ensures forall i :: 0 <= i < |AutoCheckoutEvents(m, k, base, now)| ==>
      AutoCheckoutEvents(m, k, base, now)[i].id == base + i &&
      DescribesDueSession(AutoCheckoutEvents(m, k, base, now)[i], m, k, now)
    ensures forall i, j :: 0 <= i < j < |AutoCheckoutEvents(m, k, base, now)| ==>
      AutoCheckoutEvents(m, k, base, now)[i].reservationId < AutoCheckoutEvents(m, k, base, now)[j].reservationId
  {
    if k > 0 {
      AutoCheckoutEventsDescribeDueSessions(m, k - 1, base, now);
      var prev := AutoCheckoutEvents(m, k - 1, base, now);
      var es := AutoCheckoutEvents(m, k, base, now);
      forall i | 0 <= i < |prev|
        ensures es[i] == prev[i] && DescribesDueSession(es[i], m, k, now)
      {
        assert DescribesDueSession(prev[i], m, k - 1, now);
      }
    }
  }

  /** One step of the first finalize loop: a due session is completed and
      gets the next event; any other id leaves the map, the events and the
      count as they were. */
  lemma AutoCheckoutLoopStep(m0: map<Id, Reservation>, events0: seq<FacultyCheckIn>, k: nat, now: int)
    ensures var prev := events0 + AutoCheckoutEvents(m0, k, |events0|, now);
      if k in m0 && AutoCheckoutDue(m0[k], now) then
        && AutoCheckoutPrefix(m0, k + 1, now) == AutoCheckoutPrefix(m0, k, now)[k := Checkins.Completed(m0[k], now)]
        && events0 + AutoCheckoutEvents(m0, k + 1, |events0|, now)
           == prev + [FacultyCheckIn(|prev|, k, m0[k].userId, m0[k].roomId, CheckOut, Auto, now)]
        && CountAutoCheckoutDue(m0, k + 1, now) == CountAutoCheckoutDue(m0, k, now) + 1
      else
        && AutoCheckoutPrefix(m0, k + 1, now) == AutoCheckoutPrefix(m0, k, now)
        && AutoCheckoutEvents(m0, k + 1, |events0|, now) == AutoCheckoutEvents(m0, k, |events0|, now)
        && CountAutoCheckoutDue(m0, k + 1, now) == CountAutoCheckoutDue(m0, k, now)
  {
    var staged := AutoCheckoutEvents(m0, k, |events0|, now);
    if k in m0 && AutoCheckoutDue(m0[k], now) {
      var e := FacultyCheckIn(|events0| + |staged|, k, m0[k].userId, m0[k].roomId, CheckOut, Auto, now);
      assert events0 + (staged + [e]) == (events0 + staged) + [e];
    } else {
      assert AutoCheckoutPrefix(m0, k + 1, now) == AutoCheckoutPrefix(m0, k, now);
    }
  }

  /** The first finalize loop: for each due session, stages the automatic
      CHECK_OUT event and the completion; the two writes are counted as a pair
      and the batch commits once 499 or more are pending. */
  method StageAutoCheckouts(m0: map<Id, Reservation>, events0: seq<FacultyCheckIn>, bound: nat, now: int)
    returns (m: map<Id, Reservation>, events: seq<FacultyCheckIn>, writes: nat, commits: nat, pending: nat)
    ensures m == AutoCheckoutPrefix(m0, bound, now)
    ensures events == events0 + AutoCheckoutEvents(m0, bound, |events0|, now)
    ensures writes == 2 * CountAutoCheckoutDue(m0, bound, now)
    ensures writes == commits * BatchLimit + pending && pending < BatchLimit
  {
    m, events := m0, events0;
    writes, commits, pending := 0, 0, 0;
    for id := 0 to bound
      invariant m == AutoCheckoutPrefix(m0, id, now)
      invariant events == events0 + AutoCheckoutEvents(m0, id, |events0|, now)
      invariant writes == 2 * CountAutoCheckoutDue(m0, id, now)
      invariant writes == commits * BatchLimit + pending && pending < BatchLimit
      invariant pending % 2 == 0
    {
      AutoCheckoutLoopStep(m0, events0, id, now);
      if id in m0 && AutoCheckoutDue(m0[id], now) {
        var r := m0[id];
        events := events + [FacultyCheckIn(|events|, id, r.userId, r.roomId, CheckOut, Auto, now)];
        m := m[id := Checkins.Completed(r, now)];
        writes := writes + 2;
        commits, pending := StagePair(commits, pending);
      }
    }
  }

  /** Counts one pair of writes into the batch and commits once 499 or more
      are pending. Pairs never straddle a commit: the pending count stays
      even, so the threshold is first reached at exactly 500. */
  method StagePair(commits: nat, pending: nat) returns (commits': nat, pending': nat)
    requires pending < BatchLimit && pending % 2 == 0
    ensures commits' * BatchLimit + pending' == commits * BatchLimit + pending + 2
    ensures pending' < BatchLimit && pending' % 2 == 0
  {
    commits', pending' := commits, pending + 2;
    if pending' >= BatchLimit - 1 {
      commits', pending' := commits' + 1, 0;
    }
  }

  // ---------------------------------------------------------------- finalize pass 2: close no-shows

  /** An open no-show whose end is at least 10 minutes past. */
  predicate CloseDue(r: Reservation, now: int) {
    r.status == NoShow && !r.closed && TimeUtils.ShouldAutoFinalize(r.endAt, now)
  }

  function CloseStep(r: Reservation, now: int): (r': Reservation)
    ensures Advances(r, r')
    ensures r' != r <==> CloseDue(r, now)
    ensures CloseDue(r, now) ==> r'.status == NoShow && r'.closed && r'.finalizedAt == Some(now)
  {
    if CloseDue(r, now) then r.(closed := true, finalizedAt := Some(now)) else r
  }

  function ClosePrefix(m: map<Id, Reservation>, k: nat, now: int): map<Id, Reservation> {
    map id | id in m :: if id < k then CloseStep(m[id], now) else m[id]
  }

  function CountCloseDue(m: map<Id, Reservation>, k: nat, now: int): nat {
    if k == 0 then 0
    else CountCloseDue(m, k - 1, now) + (if k - 1 in m && CloseDue(m[k - 1], now) then 1 else 0)
  }

  /** One step of the closing loop: a due no-show is closed and counted; any
      other id changes nothing. */
  lemma ClosePrefixStep(m: map<Id, Reservation>, k: nat, now: int)
    ensures if k in m && CloseDue(m[k], now) then
        && ClosePrefix(m, k + 1, now) == ClosePrefix(m, k, now)[k := m[k].(closed := true, finalizedAt := Some(now))]
        && CountCloseDue(m, k + 1, now) == CountCloseDue(m, k, now) + 1
      else
        && ClosePrefix(m, k + 1, now) == ClosePrefix(m, k, now)
        && CountCloseDue(m, k + 1, now) == CountCloseDue(m, k, now)
  {
    if !(k in m && CloseDue(m[k], now)) {
      assert ClosePrefix(m, k + 1, now) == ClosePrefix(m, k, now);
    }
  }

  /** The second finalize loop, continuing the same batch. */
  method StageNoShowCloses(m0: map<Id, Reservation>, bound: nat, now: int, writes0: nat, commits0: nat, pending0: nat)
    returns (m: map<Id, Reservation>, writes: nat, commits: nat, pending: nat)
    requires writes0 == commits0 * BatchLimit + pending0 && pending0 < BatchLimit
    ensures m == ClosePrefix(m0, bound, now)
    ensures writes == writes0 + CountCloseDue(m0, bound, now)
    ensures writes == commits * BatchLimit + pending && pending < BatchLimit
  {
    m := m0;
    writes, commits, pending := writes0, commits0, pending0;
    for id := 0 to bound
      invariant m == ClosePrefix(m0, id, now)
      invariant writes == writes0 + CountCloseDue(m0, id, now)
      invariant writes == commits * BatchLimit + pending && pending < BatchLimit
    {
      ClosePrefixStep(m0, id, now);
      if id in m0 && CloseDue(m0[id], now) {
        m := m[id := m0[id].(closed := true, finalizedAt := Some(now))];
        writes := writes + 1;
        commits, pending := StageWrite(commits, pending);
      }
    }
  }

  // ---------------------------------------------------------------- finalize sweeper

  /** What one run of the finalize sweeper does to one record. */
  function FinalizeStep(r: Reservation, now: int): Reservation {
    if AutoCheckoutDue(r, now) then AutoCheckoutStep(r, now) else CloseStep(r, now)
  }

  function FinalizeSweep(m: map<Id, Reservation>, now: int): map<Id, Reservation> {
    map id | id in m :: FinalizeStep(m[id], now)
  }

  /** The auto check-out pass never touches a no-show, so the second pass finds
      the same records whether or not the first pass's writes are visible. */
  lemma {:induction false} AutoCheckoutKeepsCloseDue(m: map<Id, Reservation>, k: nat, bound: nat, now: int)
    ensures CountCloseDue(AutoCheckoutPrefix(m, bound, now), k, now) == CountCloseDue(m, k, now)
  {
    if k > 0 {
      AutoCheckoutKeepsCloseDue(m, k - 1, bound, now);
    }
  }

  /** Running the two passes one after the other is the pointwise finalize step,
      and every record it changes takes a legal lifecycle step and ends up closed. */
  lemma FinalizeSweepIsPointwise(m: map<Id, Reservation>, now: int, bound: nat)
    requires forall id :: id in m ==> id < bound
    ensures ClosePrefix(AutoCheckoutPrefix(m, bound, now), bound, now) == FinalizeSweep(m, now)
    ensures forall id :: id in m ==> Advances(m[id], FinalizeSweep(m, now)[id])
    ensures forall id :: id in m && FinalizeSweep(m, now)[id] != m[id] ==>
      FinalizeSweep(m, now)[id].closed && FinalizeSweep(m, now)[id].finalizedAt == Some(now)
  {
  }

  /** A second run of the finalize sweeper at the same instant finds nothing due. */
  lemma {:induction false} FinalizeSweepIsIdempotent(m: map<Id, Reservation>, k: nat, now: int)
    ensures FinalizeSweep(FinalizeSweep(m, now), now) == FinalizeSweep(m, now)
    ensures CountAutoCheckoutDue(FinalizeSweep(m, now), k, now) == 0
    ensures CountCloseDue(FinalizeSweep(m, now), k, now) == 0
  {
    if k > 0 {
      FinalizeSweepIsIdempotent(m, k - 1, now);
    }
  }

  /** After the no-show sweeper and then the finalize sweeper run at the same
      instant, every reservation that was still open and is past both its
      no-show deadline and its check-out deadline is closed, with `now` as its
      finalization time. */
  lemma SweepsSettlePastReservations(m: map<Id, Reservation>, id: Id, now: int)
    requires id in m && !m[id].closed
    requires m[id].status == Scheduled || m[id].status == InSession || m[id].status == NoShow
    requires TimeUtils.IsNoShow(m[id].startAt, now) && TimeUtils.ShouldAutoFinalize(m[id].endAt, now)
    ensures id in FinalizeSweep(NoShowSweep(m, now), now)
    ensures FinalizeSweep(NoShowSweep(m, now), now)[id].closed
    ensures FinalizeSweep(NoShowSweep(m, now), now)[id].finalizedAt == Some(now)
  {
  }

  /** The finalize sweep only closes records and keeps their times, so the
      store invariant survives it. */
  lemma FinalizeSweepKeepsValid(m: map<Id, Reservation>, now: int)
    requires NoDoubleBooking(m) && WellFormed(m)
    ensures NoDoubleBooking(FinalizeSweep(m, now)) && WellFormed(FinalizeSweep(m, now))
  {
    var m' := FinalizeSweep(m, now);
    forall id | id in m
      ensures m'[id] == m[id] || (!Holds(m'[id]) && m'[id].startAt == m[id].startAt && m'[id].endAt == m[id].endAt)
    {
      assert m'[id] == FinalizeStep(m[id], now);
    }
    ReleasingKeepsValid(m, m');
  }

  /** Both passes of the finalize sweeper over the snapshot, on values: the
      new records, the appended history, the writes and the commits. */
  method StageFinalize(m0: map<Id, Reservation>, events0: seq<FacultyCheckIn>, bound: nat, now: int)
    returns (m: map<Id, Reservation>, events: seq<FacultyCheckIn>, writes: nat, commits: nat)
    requires forall id :: id in m0 ==> id < bound
    ensures m == FinalizeSweep(m0, now)
    ensures events == events0 + AutoCheckoutEvents(m0, bound, |events0|, now)
    ensures writes == 2 * CountAutoCheckoutDue(m0, bound, now) + CountCloseDue(m0, bound, now)
    ensures commits == CommitsFor(writes)
  {
    var m1, pending;
    m1, events, writes, commits, pending := StageAutoCheckouts(m0, events0, bound, now);
    m, writes, commits, pending := StageNoShowCloses(m1, bound, now, writes, commits, pending);
    AutoCheckoutKeepsCloseDue(m0, bound, bound, now);
    FinalizeSweepIsPointwise(m0, now, bound);
    FlushCount(commits, pending);
    if pending > 0 {
      commits := commits + 1;
    }
  }

  method SweeperAutoFinalize(db: Db, now: int) returns (writes: nat, commits: nat)
    requires db.Valid()
    modifies db
    ensures db.Valid()
    ensures db.reservations == FinalizeSweep(old(db.reservations), now)
    ensures db.checkins == old(db.checkins) + AutoCheckoutEvents(old(db.reservations), old(db.nextId), |old(db.checkins)|, now)
    ensures db.rooms == old(db.rooms) && db.nextId == old(db.nextId)
    ensures writes == 2 * CountAutoCheckoutDue(old(db.reservations), old(db.nextId), now)
                      + CountCloseDue(old(db.reservations), old(db.nextId), now)
    ensures commits == CommitsFor(writes)
  {
    var m, events;
    m, events, writes, commits := StageFinalize(db.reservations, db.checkins, db.nextId, now);
    FinalizeSweepKeepsValid(db.reservations, now);
    db.reservations := m;
    db.checkins := events;
  }
}
