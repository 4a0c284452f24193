/** Run rows, their leases, and stuck-run recovery. Times are milliseconds. */
module Runs {
  import opened Text

  datatype RunStatus = Queued | Executing | WaitingApproval | Paused | Completed | Failed | CancelledRun

  predicate Finished(s: RunStatus) {
    s == Completed || s == Failed || s == CancelledRun
  }

  /** The columns of a run that claiming, heartbeats and recovery touch. The run a successor
      retries is stored only in its outbox message, and the retry count a run was created with
      is not stored at all; both are kept here so that histories can be spoken of. */
  datatype RunRow = RunRow(status: RunStatus, holder: Option<nat>, lease: Option<int>, heartbeat: Option<int>,
                           updated: int, retries: nat, retryOf: Option<nat>, born: nat)

  const LEASE: int := 30000
  const STUCK_AFTER: int := 15 * 60 * 1000
  const MAX_RETRIES := 3

  /** The condition of the claiming UPDATE. */
  predicate Claimable(r: RunRow, now: int) {
    r.status == Queued || (r.status == Executing && (r.lease == None || r.lease.value < now))
  }

  function Claimed(r: RunRow, worker: nat, now: int): RunRow {
    r.(status := Executing, holder := Some(worker), heartbeat := Some(now), lease := Some(now + LEASE))
  }

  /** The heartbeat UPDATE: it renews whatever run the worker is still recorded for. */
  function Renewed(r: RunRow, worker: nat, now: int): RunRow {
    if r.holder == Some(worker) then r.(heartbeat := Some(now), lease := Some(now + LEASE)) else r
  }

  function LastSeen(r: RunRow): int {
    if r.heartbeat == None then r.updated else r.heartbeat.value
  }

  /** Recovery's test of a row it has read, in a pass that began at start. */
  predicate Stuck(seen: RunRow, start: int, now: int) {
    seen.status == Executing &&
    (LastSeen(seen) < start - STUCK_AFTER || (seen.lease != None && seen.lease.value < now))
  }

  /** Delay before the k-th retry is published, in seconds. */
  function Backoff(k: nat): nat {
    if k <= 1 then 30 else 2 * Backoff(k - 1)
  }

  datatype Outboxed = Outboxed(run: nat, notBefore: int)

  /** The clock readings spent on one row: for the test, for the failed row, for its successor. */
  datatype Clock = Clock(tested: int, marked: int, published: int)

  /** A recovery pass under way: when it began and the rows it has read and not yet tested. */
  datatype Pass = Pass(start: int, rows: map<nat, RunRow>)

  /** The run table with the outbox and dead letters recovery writes to, and the passes of the
      scheduler processes. */
  datatype Table = Table(runs: seq<RunRow>, outbox: seq<Outboxed>, deadLetters: seq<nat>, passes: map<nat, Pass>)

  const EMPTY_TABLE := Table([], [], [], map[])

  /** The rows a pass reads: all executing runs, without locking them. */
  function ReadRows(runs: seq<RunRow>): map<nat, RunRow> {
    map i: nat | i < |runs| && runs[i].status == Executing :: runs[i]
  }

  function Begun(t: Table, s: nat, start: int): Table {
    t.(passes := t.passes[s := Pass(start, ReadRows(t.runs))])
  }

  /** The write by id: only the changed columns, with the retry count of the row as read. */
  function Buried(r: RunRow, seen: RunRow, clock: Clock): RunRow {
    r.(status := Failed, heartbeat := Some(clock.marked), updated := clock.marked, retries := seen.retries + 1)
  }

  /** A fresh queued run that retries run i. */
  function Successor(i: nat, retries: nat, clock: Clock): RunRow {
    RunRow(Queued, None, None, None, clock.published, retries, Some(i), retries)
  }

  /** Run i fails; within the limit a successor is queued, beyond it the run is dead-lettered. */
  function Failing(t: Table, i: nat, seen: RunRow, clock: Clock): (t': Table)
    requires i < |t.runs|
    ensures |t'.runs| >= |t.runs|
  {
    var runs, retry := t.runs[i := Buried(t.runs[i], seen, clock)], seen.retries + 1;
    if retry > MAX_RETRIES then t.(runs := runs, deadLetters := t.deadLetters + [i])
    else t.(runs := runs + [Successor(i, retry, clock)],
            outbox := t.outbox + [Outboxed(|runs|, clock.published + 1000 * Backoff(retry))])
  }

  predicate Pending(t: Table, s: nat, i: nat) {
    s in t.passes && i in t.passes[s].rows && i < |t.runs|
  }

  function Ticked(t: Table, s: nat, i: nat): Table
    requires Pending(t, s, i)
  {
    t.(passes := t.passes[s := Pass(t.passes[s].start, t.passes[s].rows - {i})])
  }

  /** The pass of scheduler s comes to run i: it tests the row it read, whatever the row is now. */
  function Tested(t: Table, s: nat, i: nat, clock: Clock): (t': Table)
    ensures |t'.runs| >= |t.runs|
  {
    if !Pending(t, s, i) then t
    else
      var seen := t.passes[s].rows[i];
      var u := Ticked(t, s, i);
      if Stuck(seen, t.passes[s].start, clock.tested) then Failing(u, i, seen, clock) else u
  }

  /** A pass over the first n runs with nothing in between. */
  function PassOver(t: Table, s: nat, n: nat, clocks: seq<Clock>): (t': Table)
    requires n <= |clocks|
    ensures |t'.runs| >= |t.runs|
  {
    if n == 0 then t else Tested(PassOver(t, s, n - 1, clocks), s, n - 1, clocks[n - 1])
  }

  class RunTable {
    var runs: seq<RunRow>
    var outbox: seq<Outboxed>
    var deadLetters: seq<nat>
    var passes: map<nat, Pass>

    function Snapshot(): Table
      reads this
    {
      Table(runs, outbox, deadLetters, passes)
    }

    /** The atomic claim of `_process_run`; unknown and finished runs are left alone. */
    method Claim(run: nat, worker: nat, now: int) returns (claimed: bool)
      modifies this`runs
      ensures claimed <==> run < |old(runs)| && Claimable(old(runs)[run], now)
      ensures runs == if claimed then old(runs)[run := Claimed(old(runs)[run], worker, now)] else old(runs)
    {
      claimed := false;
      if run < |runs| && !Finished(runs[run].status) {
        if Claimable(runs[run], now) {
          runs := runs[run := Claimed(runs[run], worker, now)];
          claimed := true;
        }
      }
    }

    /** One turn of the heartbeat loop. */
    method Heartbeat(run: nat, worker: nat, now: int)
      requires run < |runs|
      modifies this`runs
      ensures runs == old(runs)[run := Renewed(old(runs)[run], worker, now)]
    {
      if runs[run].holder == Some(worker) {
        runs := runs[run := runs[run].(heartbeat := Some(now), lease := Some(now + LEASE))];
      }
    }

    /** The SELECT a pass begins with. */
    method BeginPass(s: nat, start: int)
      modifies this`passes
      ensures Snapshot() == Begun(old(Snapshot()), s, start)
    {
      passes := passes[s := Pass(start, ReadRows(runs))];
    }

    /** The body of the pass's loop, for one row it has read. */
    method TestRow(s: nat, i: nat, clock: Clock)
      modifies this
      ensures Snapshot() == Tested(old(Snapshot()), s, i, clock)
    {
      if s !in passes || i !in passes[s].rows || i >= |runs| {
        return;
      }
      var start, seen := passes[s].start, passes[s].rows[i];
      passes := passes[s := Pass(start, passes[s].rows - {i})];
      var heartbeat := if seen.heartbeat == None then seen.updated else seen.heartbeat.value;
      var leaseExpired := seen.lease != None && seen.lease.value < clock.tested;
      if seen.status != Executing || (heartbeat >= start - STUCK_AFTER && !leaseExpired) {
        return;
      }
      var retry := seen.retries + 1;
      runs := runs[i := runs[i].(status := Failed, heartbeat := Some(clock.marked), updated := clock.marked,
                                 retries := retry)];
      if retry > MAX_RETRIES {
        deadLetters := deadLetters + [i];
      } else {
        outbox := outbox + [Outboxed(|runs|, clock.published + 1000 * Backoff(retry))];
        runs := runs + [RunRow(Queued, None, None, None, clock.published, retry, Some(i), retry)];
      }
    }

    /** `recover_stuck_runs` when nothing else happens during the pass. */
    method RecoverStuckRuns(s: nat, start: int, clocks: seq<Clock>)
      requires |clocks| >= |runs|
      modifies this
      ensures Snapshot() == PassOver(Begun(old(Snapshot()), s, start), s, |old(runs)|, clocks)
    {
      hide Tested;
      var n := |runs|;
      BeginPass(s, start);
      for i := 0 to n
        invariant Snapshot() == PassOver(Begun(old(Snapshot()), s, start), s, i, clocks)
      {
        TestRow(s, i, clocks[i]);
      }
    }
  }

  /** A pass fails a run exactly when the run as read was executing and its lease as read is
      below the instant of the test or its heartbeat as read fifteen minutes before the pass.
      What the row holds by then makes no difference. */
  lemma SeizesExactly(t: Table, s: nat, i: nat, clock: Clock)
    requires Pending(t, s, i)
    ensures var seen := t.passes[s].rows[i]; var u := Tested(t, s, i, clock);
      var seizes := seen.status == Executing &&
        ((seen.lease.Some? && seen.lease.value < clock.tested) ||
         (if seen.heartbeat.Some? then seen.heartbeat.value else seen.updated) < t.passes[s].start - 900_000);
      (seizes <==> |u.outbox| + |u.deadLetters| == |t.outbox| + |t.deadLetters| + 1) &&
      (seizes ==> u.runs[i] == Buried(t.runs[i], seen, clock)) && (!seizes ==> u.runs == t.runs)
  {
  }

  // --- Lease exclusion ---

  /** What a scheduler's pass has read of one run. */
  datatype Reading = Reading(row: RunRow, start: int)

  /** One run and the readings of it that wait for their test. */
  datatype Watched = Watched(row: RunRow, readings: map<nat, Reading>)

  datatype Event =
    | ClaimTry(worker: nat, now: int)
    | Beat(worker: nat, now: int)
    | Read(scheduler: nat, start: int, now: int)
    | Test(scheduler: nat, now: int)

  /** Whether the event takes the run away from its holder. */
  predicate Seizes(v: Watched, e: Event) {
    match e
    case ClaimTry(_, now) => Claimable(v.row, now)
    case Beat(_, _) => false
    case Read(_, _, _) => false
    case Test(s, now) => s in v.readings && Stuck(v.readings[s].row, v.readings[s].start, now)
  }

  function After(v: Watched, e: Event): Watched {
    match e
    case ClaimTry(w, now) => if Claimable(v.row, now) then v.(row := Claimed(v.row, w, now)) else v
    case Beat(w, now) => v.(row := Renewed(v.row, w, now))
    case Read(s, start, _) =>
      v.(readings := if v.row.status == Executing then v.readings[s := Reading(v.row, start)] else v.readings - {s})
    case Test(s, now) =>
      var u := v.(readings := v.readings - {s});
      if Seizes(v, e) then u.(row := Buried(v.row, v.readings[s].row, Clock(now, now, now))) else u
  }

  /** Clocks do not run backwards, a pass reads after it began, and worker w renews within every
      lease: no event is later than the end of the lease of its latest claim or beat. */
  predicate Timely(events: seq<Event>, w: nat, since: int, renewed: int)
    decreases |events|
  {
    events == [] ||
    (since <= events[0].now <= renewed + LEASE && (events[0].Read? ==> events[0].start <= events[0].now) &&
     Timely(events[1..], w, events[0].now, RenewedAt(events[0], w, renewed)))
  }

  function RenewedAt(e: Event, w: nat, renewed: int): int {
    if e.Beat? && e.worker == w then e.now else renewed
  }

  /** For each waiting reading, when the lease it saw had last been renewed. */
  function ReadAt(e: Event, renewed: int, read: map<nat, int>): map<nat, int> {
    match e
    case Read(s, _, _) => read[s := renewed]
    case Test(s, _) => read - {s}
    case _ => read
  }

  /** Every test comes within the lease its pass had read. */
  predicate TestsInTime(events: seq<Event>, w: nat, renewed: int, read: map<nat, int>)
    decreases |events|
  {
    events == [] ||
    ((events[0].Test? && events[0].scheduler in read ==> events[0].now <= read[events[0].scheduler] + LEASE) &&
     TestsInTime(events[1..], w, RenewedAt(events[0], w, renewed), ReadAt(events[0], renewed, read)))
  }

  function Applied(v: Watched, events: seq<Event>): Watched
    decreases |events|
  {
    if events == [] then v else Applied(After(v, events[0]), events[1..])
  }

  ghost predicate NoSeizure(v: Watched, events: seq<Event>)
    decreases |events|
  {
    events == [] || (!Seizes(v, events[0]) && NoSeizure(After(v, events[0]), events[1..]))
  }

  ghost predicate HeldSince(r: RunRow, w: nat, renewed: int) {
    r.status == Executing && r.holder == Some(w) && r.lease == Some(renewed + LEASE) && r.heartbeat == Some(renewed)
  }

  /** The waiting readings saw the run held, each by a pass that began within the lease it saw. */
  ghost predicate ReadingsHeld(v: Watched, w: nat, read: map<nat, int>) {
    v.readings.Keys == read.Keys &&
    forall s :: s in read ==> HeldSince(v.readings[s].row, w, read[s]) && v.readings[s].start <= read[s] + LEASE
  }

  lemma EventHolds(v: Watched, w: nat, since: int, renewed: int, read: map<nat, int>, e: Event)
    requires HeldSince(v.row, w, renewed) && ReadingsHeld(v, w, read)
    requires since <= e.now <= renewed + LEASE && (e.Read? ==> e.start <= e.now)
    ensures Seizes(v, e) <==> e.Test? && e.scheduler in read && e.now > read[e.scheduler] + LEASE
    ensures !Seizes(v, e) ==>
      HeldSince(After(v, e).row, w, RenewedAt(e, w, renewed)) && ReadingsHeld(After(v, e), w, ReadAt(e, renewed, read))
  {
  }

  /** While the holder renews in time, the run is taken from it exactly when some pass tests it
      after the lease that pass had read. */
  lemma {:induction false} LeaseExactly(v: Watched, w: nat, since: int, renewed: int, read: map<nat, int>, events: seq<Event>)
    requires HeldSince(v.row, w, renewed) && ReadingsHeld(v, w, read) && Timely(events, w, since, renewed)
    ensures NoSeizure(v, events) <==> TestsInTime(events, w, renewed, read)
    ensures NoSeizure(v, events) ==> Applied(v, events).row.status == Executing && Applied(v, events).row.holder == Some(w)
    decreases |events|
  {
    if events != [] {
      var e := events[0];
      EventHolds(v, w, since, renewed, read, e);
      hide ReadingsHeld, After, Seizes;
      if !Seizes(v, e) {
        LeaseExactly(After(v, e), w, e.now, RenewedAt(e, w, renewed), ReadAt(e, renewed, read), events[1..]);
      }
    }
  }

  /** Hence, with renewals in time and every pass testing within the lease it read, no claim
      succeeds, recovery does not touch the run, and the holder keeps it. */
  lemma LeaseExcludes(r: RunRow, w: nat, renewed: int, events: seq<Event>)
    requires HeldSince(r, w, renewed) && Timely(events, w, renewed, renewed) && TestsInTime(events, w, renewed, map[])
    ensures NoSeizure(Watched(r, map[]), events)
    ensures var last := Applied(Watched(r, map[]), events).row; last.status == Executing && last.holder == Some(w)
  {
    LeaseExactly(Watched(r, map[]), w, renewed, renewed, map[], events);
  }

  /** Renewing in time is not enough: a pass reads at 10 s a lease that ends at 30 s, the holder
      renews at 20 s, and the test at 31 s fails the run although its lease runs to 50 s. */
  lemma StaleReadSeizes(r: RunRow)
    requires HeldSince(r, 7, 0)
    ensures var events := [Read(1, 10000, 10000), Beat(7, 20000), Test(1, 31000)];
      Timely(events, 7, 0, 0) && !NoSeizure(Watched(r, map[]), events) &&
      Applied(Watched(r, map[]), events).row.status == Failed &&
      Applied(Watched(r, map[]), events).row.lease == Some(50000)
  {
    var v := Watched(r, map[]);
    var events := [Read(1, 10000, 10000), Beat(7, 20000), Test(1, 31000)];
    var a := After(v, events[0]);
    var b := After(a, events[1]);
    assert events[1..] == [Beat(7, 20000), Test(1, 31000)] && events[1..][1..] == [Test(1, 31000)];
    assert events[1..][1..][1..] == [];
    assert Seizes(b, Test(1, 31000));
    assert Applied(b, [Test(1, 31000)]) == Applied(After(b, Test(1, 31000)), []);
  }

  /** A queued run can be claimed by anyone at any time, a finished, waiting or paused one never;
      the successor recovery queues can be claimed at once, the run it failed no more. */
  lemma ClaimOpens(r: RunRow, seen: RunRow, i: nat, retries: nat, clock: Clock, now: int)
    ensures r.status == Queued ==> Claimable(r, now)
    ensures Finished(r.status) <==> r.status == Completed || r.status == Failed || r.status == CancelledRun
    ensures Finished(r.status) || r.status == WaitingApproval || r.status == Paused ==> !Claimable(r, now)
    ensures Claimable(Successor(i, retries, clock), now) && !Claimable(Buried(r, seen, clock), now)
  {
  }

  /** Without renewal the claim becomes possible exactly when the lease is over, and whoever claims
      then holds the run. */
  lemma LeaseEnds(r: RunRow, w: nat, renewed: int, now: int, other: nat)
    requires HeldSince(r, w, renewed)
    ensures Claimable(r, now) <==> now > renewed + 30_000
    ensures var after := After(Watched(r, map[]), ClaimTry(other, now)).row;
      if now > renewed + 30_000 then HeldSince(after, other, now) else after == r
  {
  }
}
