/** Approved actions across many workers: claim, continuation, external call, finalization,
    with a crash possible between any two steps and messages delivered any number of times. */
module Approvals {
  import opened Text
  import opened Sets
  import opened Runs

  datatype ApprovalStatus = Pending | Approved | Rejected | Expired | Consumed

  datatype Approval = Approval(run: nat, status: ApprovalStatus, created: int, expires: Option<int>)

  datatype Execution = InFlight | Succeeded | Errored | Ambiguous

  /** Tables: an execution row is keyed by its approval, as the unique constraint demands. */
  datatype Tables = Tables(runs: map<nat, RunRow>, approvals: map<nat, Approval>, executions: map<nat, Execution>)

  /** What a continuation transaction decides: plan the run afresh, stop, call the tool of an
      approval, or give up because the unique constraint refused the execution row. */
  datatype Decision = Plan | Stop | Call(approval: nat) | Abort

  predicate Matches(t: Tables, run: nat, status: ApprovalStatus, a: nat) {
    a in t.approvals && t.approvals[a].run == run && t.approvals[a].status == status
  }

  function Matching(t: Tables, run: nat, status: ApprovalStatus): set<nat> {
    set a | a in t.approvals && Matches(t, run, status, a)
  }

  /** The most recent approval of a run in the given status. */
  predicate Newest(t: Tables, run: nat, status: ApprovalStatus, a: nat) {
    a in Matching(t, run, status) &&
    forall b :: b in Matching(t, run, status) ==> t.approvals[b].created <= t.approvals[a].created
  }

  /** The run closed by a continuation, if it is still executing. */
  function Closed(t: Tables, run: nat, status: RunStatus): map<nat, RunRow> {
    if run in t.runs && t.runs[run].status == Executing then t.runs[run := t.runs[run].(status := status)] else t.runs
  }

  /** A consumed approval found again: its action is not repeated, whatever became of it. */
  function Reconciled(t: Tables, run: nat, a: nat): Tables {
    if a in t.executions && t.executions[a] == Succeeded then t.(runs := Closed(t, run, Completed))
    else if a in t.executions && t.executions[a] != InFlight then t.(runs := Closed(t, run, Failed))
    else t.(runs := Closed(t, run, Failed), executions := t.executions[a := Ambiguous])
  }

  function ConsumedWith(t: Tables, a: nat): Tables
    requires a in t.approvals
  {
    t.(approvals := t.approvals[a := t.approvals[a].(status := Consumed)], executions := t.executions[a := InFlight])
  }

  /** `_try_continuation` up to its commit. An approved approval past its expiry is left
      as it is and nothing is called. */
  ghost predicate Continuation(t: Tables, run: nat, now: int, t': Tables, d: Decision) {
    if Matching(t, run, Approved) != {} then
      exists a :: Newest(t, run, Approved, a) && ConsumedFrom(t, a, now, t', d)
    else if Matching(t, run, Consumed) != {} then
      exists a :: Newest(t, run, Consumed, a) && t' == Reconciled(t, run, a) && d == Stop
    else t' == t && d == Plan
  }

  /** `consume_and_record` on an approved approval. */
  ghost predicate ConsumedFrom(t: Tables, a: nat, now: int, t': Tables, d: Decision)
    requires a in t.approvals
  {
    if t.approvals[a].expires != None && t.approvals[a].expires.value < now then t' == t && d == Stop
    else if a in t.executions then t' == t && d == Abort
    else t' == ConsumedWith(t, a) && d == Call(a)
  }

  lemma {:induction false} SomeNewest(t: Tables, s: set<nat>) returns (a: nat)
    requires s != {} && s <= t.approvals.Keys
    ensures a in s && forall b :: b in s ==> t.approvals[b].created <= t.approvals[a].created
    decreases s
  {
    a := Pick(s);
    var rest := s - {a};
    if rest == {} {
      assert s == {a};
    } else {
      var c := SomeNewest(t, rest);
      if t.approvals[c].created > t.approvals[a].created {
        a := c;
      }
    }
  }

  class Store {
    var runs: map<nat, RunRow>
    var approvals: map<nat, Approval>
    var executions: map<nat, Execution>

    function Snapshot(): Tables
      reads this
    {
      Tables(runs, approvals, executions)
    }

    method Close(run: nat, status: RunStatus)
      modifies this`runs
      ensures runs == Closed(old(Snapshot()), run, status)
    {
      if run in runs && runs[run].status == Executing {
        runs := runs[run := runs[run].(status := status)];
      }
    }

    /** The continuation transaction. */
    method Continue(run: nat, now: int) returns (d: Decision)
      modifies this
      ensures Continuation(old(Snapshot()), run, now, Snapshot(), d)
    {
      var t := Snapshot();
      if Matching(t, run, Approved) != {} {
        ghost var newest := SomeNewest(t, Matching(t, run, Approved));
        var a :| a in Matching(t, run, Approved) && Newest(t, run, Approved, a);
        var expires := approvals[a].expires;
        if expires != None && expires.value < now {
          d := Stop;
        } else if a in executions {
          d := Abort;
        } else {
          approvals := approvals[a := approvals[a].(status := Consumed)];
          executions := executions[a := InFlight];
          d := Call(a);
        }
        assert ConsumedFrom(t, a, now, Snapshot(), d);
      } else if Matching(t, run, Consumed) != {} {
        ghost var newest := SomeNewest(t, Matching(t, run, Consumed));
        var a :| a in Matching(t, run, Consumed) && Newest(t, run, Consumed, a);
        if a in executions && executions[a] == Succeeded {
          Close(run, Completed);
        } else {
          if a !in executions || executions[a] == InFlight {
            executions := executions[a := Ambiguous];
          }
          Close(run, Failed);
        }
        assert Snapshot() == Reconciled(t, run, a);
        d := Stop;
      } else {
        d := Plan;
      }
    }

    /** Finalization after the call: both writes are unconditional, except that there must be
        an execution row to mark. */
    method Finalize(run: nat, a: nat, succeeded: bool)
      modifies this
      ensures Snapshot() == Finalized(old(Snapshot()), run, a, succeeded)
    {
      if a in executions {
        executions := executions[a := if succeeded then Succeeded else Ambiguous];
      }
      if run in runs {
        runs := runs[run := runs[run].(status := if succeeded then Completed else Failed)];
      }
    }
  }

  function Finalized(t: Tables, run: nat, a: nat, succeeded: bool): Tables {
    t.(executions := if a in t.executions then t.executions[a := if succeeded then Succeeded else Ambiguous] else t.executions,
       runs := if run in t.runs then t.runs[run := t.runs[run].(status := if succeeded then Completed else Failed)] else t.runs)
  }

  // --- The system ---

  /** Where a worker stands between two transactions. */
  datatype Local =
    | Idle
    | Owning(run: nat)                       // claimed, continuation not yet tried
    | Calling(run: nat, approval: nat)       // consumption committed, tool not yet called
    | Called(run: nat, approval: nat)        // the tool returned
    | Erring(run: nat, approval: nat)        // the call or what followed it raised
    | Planning(run: nat)

  /** The tables, every worker's position, how often each approval's tool was called, and for
      which approvals a call has returned. */
  datatype World = World(t: Tables, workers: map<nat, Local>, calls: multiset<nat>, returned: set<nat>)

  function At(w: World, x: nat): Local {
    if x in w.workers then w.workers[x] else Idle
  }

  predicate Holds(l: Local, a: nat) {
    (l.Calling? || l.Called? || l.Erring?) && l.approval == a
  }

  datatype Step =
    | CreateApproval(a: nat, approval: Approval)
    | Decide(a: nat, verdict: ApprovalStatus)
    | ConsumeOnly(a: nat)
    | ClaimRun(worker: nat, run: nat, now: int)
    | TryContinuation(worker: nat, now: int)
    | CallTool(worker: nat, returned: bool)
    | FinalizeSuccess(worker: nat, reported: bool)
    | FinalizeError(worker: nat)
    | FinishPlanning(worker: nat)
    | Crash(worker: nat)
    | RunsChange(runs: map<nat, RunRow>)

  /** One atomic step. Run rows may change in any way at any time: leases expire, recovery
      and heartbeats act, late writes land; messages are redelivered by claiming again. */
  ghost predicate Next(w: World, s: Step, w': World) {
    match s
    case CreateApproval(a, approval) =>
      a !in w.t.approvals && approval.status == Pending &&
      w' == w.(t := w.t.(approvals := w.t.approvals[a := approval]))
    case Decide(a, verdict) =>
      a in w.t.approvals && w.t.approvals[a].status == Pending && verdict in {Approved, Rejected, Expired} &&
      w' == w.(t := w.t.(approvals := w.t.approvals[a := w.t.approvals[a].(status := verdict)]))
    case ConsumeOnly(a) =>
      a in w.t.approvals && w.t.approvals[a].status == Approved &&
      w' == w.(t := w.t.(approvals := w.t.approvals[a := w.t.approvals[a].(status := Consumed)]))
    case ClaimRun(x, run, now) =>
      At(w, x) == Idle && run in w.t.runs && Claimable(w.t.runs[run], now) &&
      w' == w.(t := w.t.(runs := w.t.runs[run := Claimed(w.t.runs[run], x, now)]), workers := w.workers[x := Owning(run)])
    case TryContinuation(x, now) =>
      At(w, x).Owning? &&
      exists d :: Continuation(w.t, At(w, x).run, now, w'.t, d) && w'.calls == w.calls && w'.returned == w.returned &&
        w'.workers == w.workers[x := Position(d, At(w, x).run)]
    case CallTool(x, returned) =>
      At(w, x).Calling? &&
      var Calling(run, a) := At(w, x);
      w' == w.(calls := w.calls + multiset{a}, returned := if returned then w.returned + {a} else w.returned,
               workers := w.workers[x := if returned then Called(run, a) else Erring(run, a)])
    case FinalizeSuccess(x, reported) =>
      At(w, x).Called? &&
      var Called(run, a) := At(w, x);
      w' == w.(t := Finalized(w.t, run, a, true), workers := w.workers[x := if reported then Idle else Erring(run, a)])
    case FinalizeError(x) =>
      (At(w, x).Erring? || At(w, x).Called?) &&
      w' == w.(t := Finalized(w.t, At(w, x).run, At(w, x).approval, false), workers := w.workers[x := Idle])
    case FinishPlanning(x) =>
      At(w, x).Planning? && w' == w.(workers := w.workers[x := Idle])
    case Crash(x) =>
      w' == w.(workers := w.workers[x := Idle])
    case RunsChange(runs) =>
      w' == w.(t := w.t.(runs := runs))
  }

  function Position(d: Decision, run: nat): Local {
    match d
    case Plan => Planning(run)
    case Call(a) => Calling(run, a)
    case _ => Idle
  }

  // --- Safety ---

  predicate IsConsumed(t: Tables, a: nat) {
    a in t.approvals && t.approvals[a].status == Consumed
  }

  ghost predicate Safe(w: World) {
    (forall a :: a in w.t.executions ==> IsConsumed(w.t, a)) &&
    (forall a :: a in w.calls ==> a in w.t.executions && w.calls[a] == 1) &&
    (forall a :: a in w.t.executions && w.t.executions[a] == Succeeded ==> a in w.calls) &&
    (forall x, a :: Holds(At(w, x), a) ==> a in w.t.executions) &&
    (forall x, a :: Holds(At(w, x), a) ==> (At(w, x).Calling? <==> a !in w.calls)) &&
    (forall x, y, a :: Holds(At(w, x), a) && Holds(At(w, y), a) ==> x == y)
  }

  /** Steps that change neither executions nor positions nor calls, and no consumed approval. */
  lemma QuietStepSafe(w: World, w': World)
    requires Safe(w) && w'.t.executions == w.t.executions && w'.calls == w.calls
    requires forall x :: At(w', x) == At(w, x) || (forall a :: !Holds(At(w', x), a))
    requires forall a :: IsConsumed(w.t, a) ==> IsConsumed(w'.t, a)
    ensures Safe(w')
  {
  }

  /** One consumed approval of the run, with no outcome yet, is recorded as ambiguous. */
  ghost predicate MarkedAmbiguous(t: Tables, run: nat, t': Tables) {
    exists a :: Matches(t, run, Consumed, a) && (a in t.executions ==> t.executions[a] == InFlight) &&
      t'.executions == t.executions[a := Ambiguous]
  }

  /** A continuation consumes a fresh approval, or only marks executions as ambiguous. */
  lemma ContinuationEffect(t: Tables, run: nat, now: int, t': Tables, d: Decision)
    requires Continuation(t, run, now, t', d)
    ensures d.Call? ==> Matches(t, run, Approved, d.approval) && d.approval !in t.executions && t' == ConsumedWith(t, d.approval)
    ensures !d.Call? ==> t'.approvals == t.approvals
    ensures !d.Call? ==> t'.executions == t.executions || MarkedAmbiguous(t, run, t')
    ensures d == Plan ==> t' == t && Matching(t, run, Approved) == {} && Matching(t, run, Consumed) == {}
  {
    hide Closed;
  }

  lemma ConsumptionSafe(w: World, x: nat, a: nat, w': World)
    requires Safe(w) && a in w.t.approvals && w.t.approvals[a].status == Approved && a !in w.t.executions
    requires At(w, x).Owning? && w' == w.(t := ConsumedWith(w.t, a), workers := w.workers[x := Calling(At(w, x).run, a)])
    ensures Safe(w')
  {
    assert forall y :: y != x ==> At(w', y) == At(w, y);
    assert forall y :: !Holds(At(w, y), a);
    assert a !in w.calls;
  }

  lemma MarkingSafe(w: World, x: nat, a: nat, w': World)
    requires Safe(w) && IsConsumed(w.t, a) && w'.t.approvals == w.t.approvals && w'.calls == w.calls
    requires w'.t.executions == w.t.executions[a := Ambiguous]
    requires w'.workers == w.workers[x := Idle]
    ensures Safe(w')
  {
    assert forall y :: y != x ==> At(w', y) == At(w, y);
  }

  lemma CallSafe(w: World, x: nat, returned: bool, w': World)
    requires Safe(w) && Next(w, CallTool(x, returned), w')
    ensures Safe(w')
  {
    var a := At(w, x).approval;
    assert Holds(At(w, x), a);
    assert forall y :: y != x ==> At(w', y) == At(w, y);
    assert forall b :: b != a ==> w'.calls[b] == w.calls[b];
  }

  lemma FinalizeSafe(w: World, x: nat, succeeded: bool, w': World)
    requires Safe(w) && (At(w, x).Called? || At(w, x).Erring?)
    requires var l := At(w, x);
      w'.t == Finalized(w.t, l.run, l.approval, succeeded) && w'.calls == w.calls &&
      (w'.workers == w.workers[x := Idle] || w'.workers == w.workers[x := Erring(l.run, l.approval)])
    ensures Safe(w')
  {
    var a := At(w, x).approval;
    assert Holds(At(w, x), a);
    assert forall y :: y != x ==> At(w', y) == At(w, y);
  }

  lemma ContinuationSafe(w: World, x: nat, now: int, w': World)
    requires Safe(w) && Next(w, TryContinuation(x, now), w')
    ensures Safe(w')
  {
    var run := At(w, x).run;
    var d :| Continuation(w.t, run, now, w'.t, d) && w'.workers == w.workers[x := Position(d, run)];
    ContinuationEffect(w.t, run, now, w'.t, d);
    hide Continuation, Safe;
    if d.Call? {
      ConsumptionSafe(w, x, d.approval, w');
    } else if w'.t.executions == w.t.executions {
      QuietStepSafe(w, w');
    } else {
      var a :| Matches(w.t, run, Consumed, a) && w'.t.executions == w.t.executions[a := Ambiguous];
      MarkingSafe(w, x, a, w');
    }
  }

  /** Every step keeps the system safe. */
  lemma StepSafe(w: World, s: Step, w': World)
    requires Safe(w) && Next(w, s, w')
    ensures Safe(w')
  {
    match s
    case TryContinuation(x, now) => ContinuationSafe(w, x, now, w');
    case CallTool(x, returned) => CallSafe(w, x, returned, w');
    case FinalizeSuccess(x, reported) => FinalizeSafe(w, x, true, w');
    case FinalizeError(x) => FinalizeSafe(w, x, false, w');
    case _ => QuietStepSafe(w, w');
  }

  /** A run of the system: worlds[i] becomes worlds[i + 1] by steps[i]. */
  ghost predicate History(worlds: seq<World>, steps: seq<Step>) {
    |worlds| == |steps| + 1 && forall i :: 0 <= i < |steps| ==> Next(worlds[i], steps[i], worlds[i + 1])
  }

  /** Any tables without executions, no worker busy, nothing called. */
  ghost predicate Initial(w: World) {
    w.t.executions == map[] && w.workers == map[] && w.calls == multiset{} && w.returned == {}
  }

  lemma {:induction false} AlwaysSafe(worlds: seq<World>, steps: seq<Step>, i: nat)
    requires History(worlds, steps) && Initial(worlds[0]) && i < |worlds|
    ensures Safe(worlds[i])
  {
    if i > 0 {
      AlwaysSafe(worlds, steps, i - 1);
      StepSafe(worlds[i - 1], steps[i - 1], worlds[i]);
    }
  }

  /** Over any interleaving of workers, crashes, redeliveries and run changes, the tool of an
      approval is called at most once, only after its consumption was committed, and an
      execution marked as succeeded was called exactly once. */
  lemma CalledAtMostOnce(worlds: seq<World>, steps: seq<Step>, i: nat, a: nat)
    requires History(worlds, steps) && Initial(worlds[0]) && i < |worlds|
    ensures worlds[i].calls[a] <= 1
    ensures a in worlds[i].calls ==> IsConsumed(worlds[i].t, a) && a in worlds[i].t.executions
    ensures a in worlds[i].t.executions && worlds[i].t.executions[a] == Succeeded ==> worlds[i].calls[a] == 1
  {
    AlwaysSafe(worlds, steps, i);
  }

  /** A step that starts planning a run finds no approved and no consumed approval of it. */
  lemma PlannedWithoutApproval(w: World, s: Step, w': World, x: nat)
    requires Next(w, s, w') && At(w', x).Planning? && !At(w, x).Planning?
    ensures At(w, x) == Owning(At(w', x).run) && s.TryContinuation?
    ensures forall a :: a in w.t.approvals && w.t.approvals[a].run == At(w', x).run ==>
      w.t.approvals[a].status != Approved && w.t.approvals[a].status != Consumed
  {
    hide Continuation, Finalized;
    assert s.TryContinuation? && s.worker == x;
    var run := At(w, x).run;
    var d :| Continuation(w.t, run, s.now, w'.t, d) && w'.workers == w.workers[x := Position(d, run)];
    ContinuationEffect(w.t, run, s.now, w'.t, d);
    assert d == Plan;
    forall a | a in w.t.approvals && w.t.approvals[a].run == run
      ensures w.t.approvals[a].status != Approved && w.t.approvals[a].status != Consumed
    {
      assert a !in Matching(w.t, run, Approved) && a !in Matching(w.t, run, Consumed);
    }
  }

  /** Once consumed and in nobody's hands, for instance after a crash, an approval is settled:
      its tool will not be called any more. */
  ghost predicate Settled(w: World, a: nat) {
    IsConsumed(w.t, a) && forall x :: !Holds(At(w, x), a)
  }

  lemma StepKeepsSettled(w: World, s: Step, w': World, a: nat)
    requires Settled(w, a) && Next(w, s, w')
    ensures Settled(w', a) && w'.calls[a] == w.calls[a]
  {
    if s.TryContinuation? {
      var x := s.worker;
      var run := At(w, x).run;
      var d :| Continuation(w.t, run, s.now, w'.t, d) && w'.workers == w.workers[x := Position(d, run)];
      ContinuationEffect(w.t, run, s.now, w'.t, d);
      hide Continuation;
      assert forall y :: y != x ==> At(w', y) == At(w, y);
    } else {
      hide Continuation;
      SettledElsewhere(w, s, w', a);
    }
  }

  lemma SettledElsewhere(w: World, s: Step, w': World, a: nat)
    requires Settled(w, a) && Next(w, s, w') && !s.TryContinuation?
    ensures Settled(w', a) && w'.calls[a] == w.calls[a]
  {
    hide Continuation;
    forall x ensures !Holds(At(w', x), a) {
      assert !Holds(At(w, x), a);
    }
    if s.CallTool? {
      assert !Holds(At(w, s.worker), a);
    }
  }

  lemma {:induction false} SettledForGood(worlds: seq<World>, steps: seq<Step>, i: nat, j: nat, a: nat)
    requires History(worlds, steps) && i <= j < |worlds| && Settled(worlds[i], a)
    ensures Settled(worlds[j], a) && worlds[j].calls[a] == worlds[i].calls[a]
    decreases j
  {
    hide Next, Settled;
    if i < j {
      SettledForGood(worlds, steps, i, j - 1, a);
      StepKeepsSettled(worlds[j - 1], steps[j - 1], worlds[j], a);
    }
  }

  // --- What the tables say about the call ---

  /** The execution rows and the workers' positions agree with which calls returned. */
  ghost predicate Honest(w: World) {
    (forall a :: a in w.returned ==> a in w.calls) &&
    (forall a :: a in w.t.executions ==> w.t.executions[a] != Errored) &&
    (forall a :: a in w.t.executions && w.t.executions[a] == Succeeded ==> a in w.returned) &&
    (forall x :: At(w, x).Called? ==> At(w, x).approval in w.returned) &&
    (forall x, a :: Holds(At(w, x), a) ==> a in w.t.approvals && w.t.approvals[a].run == At(w, x).run)
  }

  lemma QuietStepHonest(w: World, w': World)
    requires Honest(w) && w'.t.executions == w.t.executions && w'.calls == w.calls && w'.returned == w.returned
    requires forall x :: At(w', x) == At(w, x) || (forall a :: !Holds(At(w', x), a))
    requires forall a :: a in w.t.approvals ==> a in w'.t.approvals && w'.t.approvals[a].run == w.t.approvals[a].run
    ensures Honest(w')
  {
    forall x | At(w', x).Called? ensures At(w', x).approval in w'.returned {
      assert Holds(At(w', x), At(w', x).approval);
    }
  }

  lemma ContinuationHonest(w: World, x: nat, now: int, w': World)
    requires Honest(w) && Next(w, TryContinuation(x, now), w')
    ensures Honest(w')
  {
    var run := At(w, x).run;
    var d :| Continuation(w.t, run, now, w'.t, d) && w'.workers == w.workers[x := Position(d, run)];
    ContinuationEffect(w.t, run, now, w'.t, d);
    hide Continuation;
    assert forall y :: y != x ==> At(w', y) == At(w, y);
    assert At(w', x) == Position(d, run);
  }

  lemma CallHonest(w: World, x: nat, returned: bool, w': World)
    requires Honest(w) && Next(w, CallTool(x, returned), w')
    ensures Honest(w')
  {
    assert Holds(At(w, x), At(w, x).approval);
    assert forall y :: y != x ==> At(w', y) == At(w, y);
  }

  lemma FinalizeHonest(w: World, x: nat, succeeded: bool, w': World)
    requires Honest(w) && (At(w, x).Called? || (At(w, x).Erring? && !succeeded))
    requires var l := At(w, x);
      w'.t == Finalized(w.t, l.run, l.approval, succeeded) && w'.calls == w.calls && w'.returned == w.returned &&
      (w'.workers == w.workers[x := Idle] || w'.workers == w.workers[x := Erring(l.run, l.approval)])
    ensures Honest(w')
  {
    assert Holds(At(w, x), At(w, x).approval);
    assert forall y :: y != x ==> At(w', y) == At(w, y);
  }

  lemma StepHonest(w: World, s: Step, w': World)
    requires Honest(w) && Next(w, s, w')
    ensures Honest(w')
  {
    match s
    case TryContinuation(x, now) => ContinuationHonest(w, x, now, w');
    case CallTool(x, returned) => CallHonest(w, x, returned, w');
    case FinalizeSuccess(x, reported) => FinalizeHonest(w, x, true, w');
    case FinalizeError(x) => FinalizeHonest(w, x, false, w');
    case _ =>
      hide Honest;
      QuietStepHonest(w, w');
  }

  lemma {:induction false} AlwaysHonest(worlds: seq<World>, steps: seq<Step>, i: nat)
    requires History(worlds, steps) && Initial(worlds[0]) && i < |worlds|
    ensures Honest(worlds[i])
  {
    if i > 0 {
      AlwaysHonest(worlds, steps, i - 1);
      StepHonest(worlds[i - 1], steps[i - 1], worlds[i]);
    }
  }

  /** Over any history: an execution marked succeeded had its tool called once and the call
      returned; a call that raised, or that nobody lived to report, is in flight or ambiguous;
      and no execution is ever marked as a plain error. */
  lemma OutcomesTold(worlds: seq<World>, steps: seq<Step>, i: nat, a: nat)
    requires History(worlds, steps) && Initial(worlds[0]) && i < |worlds| && a in worlds[i].t.executions
    ensures worlds[i].t.executions[a] == Succeeded ==> a in worlds[i].returned && worlds[i].calls[a] == 1
    ensures a !in worlds[i].returned ==> worlds[i].t.executions[a] == InFlight || worlds[i].t.executions[a] == Ambiguous
  {
    AlwaysHonest(worlds, steps, i);
    CalledAtMostOnce(worlds, steps, i, a);
  }

  /** Reporting a call that returned marks its execution succeeded and completes the run;
      reporting an error, of the call or of what followed it, marks it ambiguous and fails the run. */
  lemma FinalizationTells(w: World, s: Step, w': World)
    requires Safe(w) && Honest(w) && Next(w, s, w') && (s.FinalizeSuccess? || s.FinalizeError?)
    ensures var l := At(w, s.worker);
      l.approval in w'.t.executions && w'.t.approvals == w.t.approvals && w.t.approvals[l.approval].run == l.run &&
      w'.t.executions[l.approval] == (if s.FinalizeSuccess? then Succeeded else Ambiguous) &&
      (s.FinalizeSuccess? ==> l.approval in w.returned) &&
      (l.run in w.t.runs ==> l.run in w'.t.runs && w'.t.runs[l.run].status == (if s.FinalizeSuccess? then Completed else Failed)) &&
      (forall b :: b in w.t.executions && b != l.approval ==> b in w'.t.executions && w'.t.executions[b] == w.t.executions[b]) &&
      (forall r :: r in w.t.runs && r != l.run ==> r in w'.t.runs && w'.t.runs[r] == w.t.runs[r])
  {
    assert Holds(At(w, s.worker), At(w, s.worker).approval);
  }

  /** The latest of a run's approvals in some status. */
  ghost predicate Latest(t: Tables, run: nat, status: ApprovalStatus, a: nat) {
    a in t.approvals && t.approvals[a].run == run && t.approvals[a].status == status &&
    forall b :: b in t.approvals && t.approvals[b].run == run && t.approvals[b].status == status ==>
      t.approvals[b].created <= t.approvals[a].created
  }

  ghost predicate HasAny(t: Tables, run: nat, status: ApprovalStatus) {
    exists a :: a in t.approvals && t.approvals[a].run == run && t.approvals[a].status == status
  }

  /** What a continuation decides. The latest approved approval is called unless it is past its
      expiry or an execution of it is on record. Failing one, the latest consumed approval closes
      the run if it is still executing: completed when its execution succeeded, otherwise failed
      with the execution recorded as ambiguous. With neither, the run is planned. */
  lemma ContinuationTells(t: Tables, run: nat, now: int, t': Tables, d: Decision)
    requires Continuation(t, run, now, t', d)
    ensures d == Plan <==> !HasAny(t, run, Approved) && !HasAny(t, run, Consumed)
    ensures d == Plan ==> t' == t
    ensures HasAny(t, run, Approved) ==> exists a :: Latest(t, run, Approved, a) && CalledOrNot(t, a, now, t', d)
    ensures !HasAny(t, run, Approved) && HasAny(t, run, Consumed) ==>
      d == Stop && exists a :: Latest(t, run, Consumed, a) && ClosedBy(t, run, a, t')
  {
    HasMatching(t, run, Approved);
    HasMatching(t, run, Consumed);
    if HasAny(t, run, Approved) {
      var a :| Newest(t, run, Approved, a) && ConsumedFrom(t, a, now, t', d);
      NewestIsLatest(t, run, Approved, a);
      assert CalledOrNot(t, a, now, t', d);
    } else if HasAny(t, run, Consumed) {
      var a :| Newest(t, run, Consumed, a) && t' == Reconciled(t, run, a);
      NewestIsLatest(t, run, Consumed, a);
      assert ClosedBy(t, run, a, t');
    }
  }

  ghost predicate CalledOrNot(t: Tables, a: nat, now: int, t': Tables, d: Decision)
    requires a in t.approvals
  {
    var expired := t.approvals[a].expires.Some? && t.approvals[a].expires.value < now;
    (d == Call(a) <==> !expired && a !in t.executions) &&
    (d != Call(a) ==> t' == t && d == (if expired then Stop else Abort)) &&
    (d == Call(a) ==>
      t'.runs == t.runs && t'.executions == t.executions[a := InFlight] &&
      t'.approvals == t.approvals[a := t.approvals[a].(status := Consumed)])
  }

  ghost predicate ClosedBy(t: Tables, run: nat, a: nat, t': Tables) {
    var succeeded := a in t.executions && t.executions[a] == Succeeded;
    t'.approvals == t.approvals &&
    (if succeeded then t'.executions == t.executions
     else a in t'.executions && t'.executions == t.executions[a := t'.executions[a]] &&
          (t'.executions[a] == Ambiguous || (a in t.executions && t.executions[a] == Errored == t'.executions[a]))) &&
    (if run in t.runs && t.runs[run].status == Executing
     then t'.runs == t.runs[run := t.runs[run].(status := if succeeded then Completed else Failed)] else t'.runs == t.runs)
  }

  lemma HasMatching(t: Tables, run: nat, status: ApprovalStatus)
    ensures HasAny(t, run, status) <==> Matching(t, run, status) != {}
  {
    if a :| a in t.approvals && t.approvals[a].run == run && t.approvals[a].status == status {
      assert a in Matching(t, run, status);
    }
    if Matching(t, run, status) != {} {
      var a := Pick(Matching(t, run, status));
    }
  }

  lemma NewestIsLatest(t: Tables, run: nat, status: ApprovalStatus, a: nat)
    requires Newest(t, run, status, a)
    ensures Latest(t, run, status, a)
  {
    forall b | b in t.approvals && t.approvals[b].run == run && t.approvals[b].status == status
      ensures t.approvals[b].created <= t.approvals[a].created
    {
      assert b in Matching(t, run, status);
    }
  }

  /** Some approval of the run has an execution with this outcome. */
  ghost predicate ToldBy(w: World, run: nat, outcome: Execution) {
    exists a :: a in w.t.approvals && w.t.approvals[a].run == run && a in w.t.executions && w.t.executions[a] == outcome &&
      (outcome == Succeeded ==> a in w.returned)
  }

  /** A worker's step that ends a run completes it only on an execution of one of its approvals
      that succeeded, by a call that returned, and fails it only on an ambiguous one. */
  lemma RunEnds(w: World, s: Step, w': World, run: nat)
    requires Safe(w) && Honest(w) && Next(w, s, w') && !s.RunsChange? && !s.ClaimRun?
    requires run in w.t.runs && run in w'.t.runs && w'.t.runs[run].status != w.t.runs[run].status
    ensures w'.t.runs[run].status == Completed || w'.t.runs[run].status == Failed
    ensures ToldBy(w', run, if w'.t.runs[run].status == Completed then Succeeded else Ambiguous)
  {
    hide Safe;
    StepHonest(w, s, w');
    if s.FinalizeSuccess? || s.FinalizeError? {
      FinalizationTells(w, s, w');
      assert At(w, s.worker).run == run;
      assert At(w, s.worker).approval in w'.t.executions;
    } else {
      assert s.TryContinuation?;
      var r := At(w, s.worker).run;
      var d :| Continuation(w.t, r, s.now, w'.t, d);
      ContinuationTells(w.t, r, s.now, w'.t, d);
      ContinuationEnds(w, r, s.now, w', d, run);
    }
  }

  lemma ContinuationEnds(w: World, r: nat, now: int, w': World, d: Decision, run: nat)
    requires Honest(w') && Continuation(w.t, r, now, w'.t, d)
    requires run in w.t.runs && run in w'.t.runs && w'.t.runs[run].status != w.t.runs[run].status
    ensures w'.t.runs[run].status == Completed || w'.t.runs[run].status == Failed
    ensures ToldBy(w', run, if w'.t.runs[run].status == Completed then Succeeded else Ambiguous)
  {
    ContinuationTells(w.t, r, now, w'.t, d);
    hide Continuation;
    if !HasAny(w.t, r, Approved) && HasAny(w.t, r, Consumed) {
      var a :| Latest(w.t, r, Consumed, a) && ClosedBy(w.t, r, a, w'.t);
      assert run == r && a in w'.t.executions;
    }
  }

  // --- An approved action is carried out ---

  ghost predicate Ready(w: World, x: nat, run: nat, a: nat, now: int) {
    At(w, x) == Idle && run in w.t.runs && w.t.runs[run].status == Queued && a !in w.t.executions && a !in w.calls &&
    Latest(w.t, run, Approved, a) && (w.t.approvals[a].expires == None || now <= w.t.approvals[a].expires.value)
  }

  /** A worker that meets no crash carries a queued run with an approval in force through: its four
      steps call the tool of that approval once and complete the run. */
  lemma ApprovedRunCompletes(w: World, x: nat, run: nat, a: nat, now: int) returns (worlds: seq<World>, steps: seq<Step>)
    requires Ready(w, x, run, a, now)
    ensures History(worlds, steps) && |steps| == 4 && worlds[0] == w
    ensures worlds[4].t.executions == w.t.executions[a := Succeeded] && worlds[4].calls == w.calls + multiset{a}
    ensures worlds[4].t.approvals == w.t.approvals[a := w.t.approvals[a].(status := Consumed)]
    ensures run in worlds[4].t.runs && worlds[4].t.runs[run].status == Completed && At(worlds[4], x) == Idle
  {
    var w1 := w.(t := w.t.(runs := w.t.runs[run := Claimed(w.t.runs[run], x, now)]), workers := w.workers[x := Owning(run)]);
    var w2 := w1.(t := ConsumedWith(w1.t, a), workers := w1.workers[x := Calling(run, a)]);
    var w3 := w2.(calls := w2.calls + multiset{a}, returned := w2.returned + {a}, workers := w2.workers[x := Called(run, a)]);
    var w4 := w3.(t := Finalized(w3.t, run, a, true), workers := w3.workers[x := Idle]);
    worlds := [w, w1, w2, w3, w4];
    steps := [ClaimRun(x, run, now), TryContinuation(x, now), CallTool(x, true), FinalizeSuccess(x, true)];
    assert Next(w, steps[0], w1);
    ContinuationCalls(w1, x, run, a, now, w2);
    assert Next(w2, steps[2], w3);
    assert Next(w3, steps[3], w4);
  }

  lemma ContinuationCalls(w: World, x: nat, run: nat, a: nat, now: int, w': World)
    requires At(w, x) == Owning(run) && a !in w.t.executions && Latest(w.t, run, Approved, a)
    requires w.t.approvals[a].expires == None || now <= w.t.approvals[a].expires.value
    requires w' == w.(t := ConsumedWith(w.t, a), workers := w.workers[x := Calling(run, a)])
    ensures Next(w, TryContinuation(x, now), w')
  {
    assert a in Matching(w.t, run, Approved);
    assert Newest(w.t, run, Approved, a) && ConsumedFrom(w.t, a, now, w'.t, Call(a));
    assert Continuation(w.t, run, now, w'.t, Call(a));
    assert Position(Call(a), run) == Calling(run, a);
  }
}
