/** How a coordinator's run ends, told from its plan alone: where the loop first halts and why. */
module RunEndings {
  import opened Text
  import opened Windows
  import opened Coordinator

  /** Everything that decides a run: the budget, what the planner used, the turns, the last flags. */
  datatype Plan = Plan(b: Budget, tokens: int, cost: real, turns: seq<Turn>, final: Flags)

  function ActionsBefore(turns: seq<Turn>, n: nat): nat
    requires n <= |turns|
  {
    if n == 0 then 0 else ActionsBefore(turns, n - 1) + (if turns[n - 1].action then 1 else 0)
  }

  /** Calls that succeeded, recorded or not. */
  function CallsBefore(turns: seq<Turn>, n: nat): nat
    requires n <= |turns|
  {
    if n == 0 then 0 else CallsBefore(turns, n - 1) + (if turns[n - 1].action && turns[n - 1].outcome != Errored then 1 else 0)
  }

  /** When a tool's calls have failed since its last success. */
  function FailuresBefore(turns: seq<Turn>, n: nat, tool: string): seq<int>
    requires n <= |turns|
  {
    if n == 0 then []
    else if !turns[n - 1].action || turns[n - 1].tool != tool then FailuresBefore(turns, n - 1, tool)
    else if turns[n - 1].outcome == Succeeded then []
    else FailuresBefore(turns, n - 1, tool) + [turns[n - 1].at]
  }

  /** The call fails and is the fifth of its tool to do so within the cooldown. */
  predicate Breaks(turns: seq<Turn>, i: nat)
    requires i < |turns|
  {
    turns[i].outcome != Succeeded && |Recorded(FailuresBefore(turns, i, turns[i].tool) + [turns[i].at])| >= 5
  }

  predicate MayAct(p: Plan, i: nat)
    requires i < |p.turns|
  {
    var t := p.turns[i];
    !t.pauseAsked && !t.stopAsked && !t.flags.kill && !t.flags.pause && t.elapsed <= p.b.maxWall &&
    ActionsBefore(p.turns, i) < p.b.maxIterations && CallsBefore(p.turns, i) < p.b.maxToolCalls &&
    p.tokens <= p.b.maxTokens && p.cost <= p.b.maxCost
  }

  /** The loop goes on after turn i: it is no action, or one that is allowed and does not break the circuit. */
  predicate GoesOn(p: Plan, i: nat)
    requires i < |p.turns|
  {
    p.turns[i].action ==> MayAct(p, i) && p.turns[i].decision == Allow && !Breaks(p.turns, i)
  }

  datatype Halt = PauseAsked | StopAsked | Guarded | Denied | NeedsApproval | Broken

  predicate HaltsBy(p: Plan, i: nat, h: Halt)
    requires i < |p.turns|
  {
    var t := p.turns[i];
    t.action &&
    match h
    case PauseAsked => t.pauseAsked
    case StopAsked => t.stopAsked && !t.pauseAsked
    case Guarded => !t.pauseAsked && !t.stopAsked && !MayAct(p, i)
    case Denied => MayAct(p, i) && t.decision == Deny
    case NeedsApproval => MayAct(p, i) && t.decision == RequireApproval
    case Broken => MayAct(p, i) && t.decision == Allow && Breaks(p.turns, i)
  }

  /** The loop first halts at turn i, for this reason. */
  ghost predicate HaltsAt(p: Plan, i: nat, h: Halt) {
    i < |p.turns| && HaltsBy(p, i, h) && forall k :: 0 <= k < i ==> GoesOn(p, k)
  }

  ghost predicate Halts(p: Plan, h: Halt) {
    exists i: nat :: HaltsAt(p, i, h)
  }

  ghost predicate NeverHalts(p: Plan) {
    forall k :: 0 <= k < |p.turns| ==> GoesOn(p, k)
  }

  function EndOf(p: Plan): Status {
    Ended(p.b, p.tokens, p.cost, p.turns, p.final)
  }

  // --- The loop as far as it goes on ---

  function EntriesOf(turns: seq<Turn>, n: nat): seq<Entry>
    requires n <= |turns|
  {
    if n == 0 then []
    else EntriesOf(turns, n - 1) + (if turns[n - 1].action then EntriesOfCall(turns[n - 1]) else [])
  }

  /** What a call leaves behind: a success, an error, or both when its event could not be stored. */
  function EntriesOfCall(t: Turn): seq<Entry> {
    match t.outcome
    case Succeeded => [Entry(t.tool, true)]
    case Errored => [Entry(t.tool, false)]
    case Unrecorded => [Entry(t.tool, true), Entry(t.tool, false)]
  }

  ghost predicate AnyFailed(turns: seq<Turn>, n: nat)
    requires n <= |turns|
  {
    exists k :: 0 <= k < n && turns[k].action && turns[k].outcome != Succeeded
  }

  /** The loop's progress when it comes to turn i. */
  ghost predicate Reached(q: Progress, turns: seq<Turn>, i: nat)
    requires i <= |turns|
  {
    q.iteration == ActionsBefore(turns, i) && q.calls == CallsBefore(turns, i) && q.executed == EntriesOf(turns, i) &&
    q.attempts == Positions(turns, i) && (q.hadError <==> AnyFailed(turns, i)) && q.halted == None &&
    q.status == (if ActionsBefore(turns, i) == 0 then Planning else Executing) &&
    forall tool :: FailuresOf(q.failures, tool) == Recorded(FailuresBefore(turns, i, tool))
  }

  lemma RecordedOneMore(times: seq<int>, at: int)
    ensures Recorded(times + [at]) == Within(Recorded(times), at, COOLDOWN) + [at]
  {
    assert (times + [at])[..|times|] == times;
    hide Within;
  }

  lemma FailuresOneMore(turns: seq<Turn>, i: nat, failures: map<string, seq<int>>, failures': map<string, seq<int>>)
    requires i < |turns| && turns[i].action
    requires forall tool :: FailuresOf(failures, tool) == Recorded(FailuresBefore(turns, i, tool))
    requires var t := turns[i];
      failures' == if t.outcome == Succeeded then failures - {t.tool}
                   else failures[t.tool := Within(FailuresOf(failures, t.tool), t.at, COOLDOWN) + [t.at]]
    ensures forall tool :: FailuresOf(failures', tool) == Recorded(FailuresBefore(turns, i + 1, tool))
    ensures turns[i].outcome != Succeeded ==>
      failures'[turns[i].tool] == Recorded(FailuresBefore(turns, i, turns[i].tool) + [turns[i].at])
  {
    hide Within;
    RecordedOneMore(FailuresBefore(turns, i, turns[i].tool), turns[i].at);
    forall tool ensures FailuresOf(failures', tool) == Recorded(FailuresBefore(turns, i + 1, tool)) {
      assert FailuresOf(failures, tool) == Recorded(FailuresBefore(turns, i, tool));
    }
  }

  lemma AnyFailedOneMore(turns: seq<Turn>, i: nat)
    requires i < |turns|
    ensures AnyFailed(turns, i + 1) <==> AnyFailed(turns, i) || (turns[i].action && turns[i].outcome != Succeeded)
  {
  }

  lemma CountsOneMore(turns: seq<Turn>, i: nat)
    requires i < |turns|
    ensures ActionsBefore(turns, i + 1) == ActionsBefore(turns, i) + (if turns[i].action then 1 else 0)
    ensures CallsBefore(turns, i + 1) == CallsBefore(turns, i) + (if turns[i].action && turns[i].outcome != Errored then 1 else 0)
    ensures Positions(turns, i + 1) == Positions(turns, i) + (if turns[i].action then [i] else [])
    ensures EntriesOf(turns, i + 1) == EntriesOf(turns, i) + (if turns[i].action then EntriesOfCall(turns[i]) else [])
  {
  }

  /** An allowed action within limits, before the circuit is looked at. */
  lemma StepCalls(p: Plan, q: Progress, i: nat)
    requires i < |p.turns| && p.turns[i].action && MayAct(p, i) && p.turns[i].decision == Allow
    requires q.iteration == ActionsBefore(p.turns, i) && q.calls == CallsBefore(p.turns, i)
    ensures var (r, stop) := Step(p.b, p.tokens, p.cost, q, p.turns[i], i);
      var t := p.turns[i];
      r.iteration == q.iteration + 1 && r.calls == q.calls + (if t.outcome != Errored then 1 else 0) &&
      r.executed == q.executed + EntriesOfCall(t) && r.attempts == q.attempts + [i] && r.halted == q.halted &&
      r.hadError == (q.hadError || t.outcome != Succeeded) &&
      r.failures == (if t.outcome == Succeeded then q.failures - {t.tool}
                     else q.failures[t.tool := Within(FailuresOf(q.failures, t.tool), t.at, COOLDOWN) + [t.at]]) &&
      (stop <==> t.outcome != Succeeded && |r.failures[t.tool]| >= 5) && r.status == (if stop then Failed else Executing)
  {
    hide Within, ActionsBefore, CallsBefore;
  }

  lemma StepGoesOn(p: Plan, q: Progress, i: nat)
    requires i < |p.turns| && Reached(q, p.turns, i) && GoesOn(p, i)
    ensures var (r, stop) := Step(p.b, p.tokens, p.cost, q, p.turns[i], i);
      !stop && Reached(r, p.turns, i + 1)
  {
    AnyFailedOneMore(p.turns, i);
    CountsOneMore(p.turns, i);
    hide Within, Recorded, FailuresBefore, AnyFailed, ActionsBefore, CallsBefore, Positions, EntriesOf, EntriesOfCall, MayAct;
    if p.turns[i].action {
      StepCalls(p, q, i);
      hide Step;
      FailuresOneMore(p.turns, i, q.failures, Step(p.b, p.tokens, p.cost, q, p.turns[i], i).0.failures);
    } else {
      SameFailures(p.turns, i);
    }
  }

  lemma SameFailures(turns: seq<Turn>, i: nat)
    requires i < |turns| && !turns[i].action
    ensures forall tool :: FailuresBefore(turns, i + 1, tool) == FailuresBefore(turns, i, tool)
  {
  }

  /** What the step that halts the loop leaves. */
  ghost predicate Left(p: Plan, r: Progress, i: nat, h: Halt)
    requires i < |p.turns|
  {
    r.halted == (if h == Guarded then Some(p.turns[i].flags) else None) &&
    (h == Guarded && !p.turns[i].flags.pause && !p.turns[i].flags.kill ==> r.status == Failed) &&
    (h == PauseAsked ==> r.status == Paused) && (h == StopAsked ==> r.status == Cancelled) &&
    (h == Denied || h == Broken ==> r.status == Failed) && (h == NeedsApproval ==> r.status == WaitingApproval) &&
    r.attempts == Positions(p.turns, if h == Broken then i + 1 else i) &&
    r.executed == EntriesOf(p.turns, if h == Broken then i + 1 else i)
  }

  lemma StepHalts(p: Plan, q: Progress, i: nat, h: Halt)
    requires i < |p.turns| && Reached(q, p.turns, i) && HaltsBy(p, i, h)
    ensures var (r, stop) := Step(p.b, p.tokens, p.cost, q, p.turns[i], i); stop && Left(p, r, i, h)
  {
    if h == Broken {
      StepBreaks(p, q, i);
    } else {
      hide Within, Recorded, FailuresBefore, AnyFailed, Breaks, EntriesOf, Positions;
    }
  }

  lemma StepBreaks(p: Plan, q: Progress, i: nat)
    requires i < |p.turns| && Reached(q, p.turns, i) && HaltsBy(p, i, Broken)
    ensures var (r, stop) := Step(p.b, p.tokens, p.cost, q, p.turns[i], i); stop && Left(p, r, i, Broken)
  {
    CountsOneMore(p.turns, i);
    hide Within, Recorded, FailuresBefore, AnyFailed, ActionsBefore, CallsBefore, Positions, EntriesOf, EntriesOfCall, MayAct;
    StepCalls(p, q, i);
    hide Step;
    FailuresOneMore(p.turns, i, q.failures, Step(p.b, p.tokens, p.cost, q, p.turns[i], i).0.failures);
  }

  /** The loop from the beginning is the loop from turn i, as long as it goes on until there. */
  lemma {:induction false} LoopReaches(p: Plan, i: nat) returns (q: Progress)
    requires i <= |p.turns| && forall k :: 0 <= k < i ==> GoesOn(p, k)
    ensures Reached(q, p.turns, i)
    ensures Result(p.b, p.tokens, p.cost, p.turns) == Loop(p.b, p.tokens, p.cost, q, p.turns, i)
  {
    hide Step, Reached, GoesOn;
    if i == 0 {
      q := BEGUN;
      BegunReached(p.turns);
    } else {
      var o := LoopReaches(p, i - 1);
      assert GoesOn(p, i - 1);
      StepGoesOn(p, o, i - 1);
      q := Step(p.b, p.tokens, p.cost, o, p.turns[i - 1], i - 1).0;
    }
  }

  lemma BegunReached(turns: seq<Turn>)
    ensures Reached(BEGUN, turns, 0)
  {
  }

  /** Where the loop halts, if it does, and why. */
  lemma {:induction false} FirstHalt(p: Plan, i: nat) returns (at: nat, h: Halt)
    requires i <= |p.turns| && forall k :: 0 <= k < i ==> GoesOn(p, k)
    ensures at <= |p.turns|
    ensures at == |p.turns| ==> NeverHalts(p)
    ensures at != |p.turns| ==> HaltsAt(p, at, h)
    decreases |p.turns| - i
  {
    hide MayAct, Breaks;
    if i == |p.turns| {
      at, h := i, Denied;
    } else if GoesOn(p, i) {
      at, h := FirstHalt(p, i + 1);
    } else {
      var t := p.turns[i];
      at := i;
      h := if t.pauseAsked then PauseAsked else if t.stopAsked then StopAsked else if !MayAct(p, i) then Guarded
           else if t.decision == Deny then Denied else if t.decision == RequireApproval then NeedsApproval else Broken;
    }
  }

  /** A run halts at one turn, for one reason. */
  lemma HaltsOnce(p: Plan, i: nat, h: Halt)
    requires HaltsAt(p, i, h)
    ensures !NeverHalts(p) && forall j: nat, g :: HaltsAt(p, j, g) ==> j == i && g == h
  {
    hide ActionsBefore, CallsBefore, Recorded, FailuresBefore;
    MayNot(p, i);
    assert !GoesOn(p, i);
    forall j: nat, g | HaltsAt(p, j, g) ensures j == i && g == h {
      MayNot(p, j);
      assert !GoesOn(p, j);
    }
  }

  lemma MayNot(p: Plan, i: nat)
    requires i < |p.turns|
    ensures p.turns[i].pauseAsked || p.turns[i].stopAsked ==> !MayAct(p, i)
  {
  }

  /** What the whole loop leaves, where it halts or at its end. */
  lemma LoopLeaves(p: Plan) returns (at: nat, h: Halt)
    ensures at <= |p.turns|
    ensures at == |p.turns| ==> NeverHalts(p) && Reached(Result(p.b, p.tokens, p.cost, p.turns), p.turns, |p.turns|)
    ensures at != |p.turns| ==> HaltsAt(p, at, h) && Left(p, Result(p.b, p.tokens, p.cost, p.turns), at, h)
  {
    hide Step, Reached, Left, GoesOn, HaltsBy;
    at, h := FirstHalt(p, 0);
    var q := LoopReaches(p, at);
    if at != |p.turns| {
      StepHalts(p, q, at, h);
    }
  }

  /** Whether the guard halted the loop, and with which flags; otherwise the last look at them. */
  ghost predicate GuardedWith(p: Plan, flags: Flags) {
    exists i: nat :: HaltsAt(p, i, Guarded) && p.turns[i].flags == flags
  }

  ghost predicate PauseInForce(p: Plan) {
    (p.final.pause && !Halts(p, Guarded)) || exists i: nat :: HaltsAt(p, i, Guarded) && p.turns[i].flags.pause
  }

  ghost predicate KillInForce(p: Plan) {
    (p.final.kill && !Halts(p, Guarded)) || exists i: nat :: HaltsAt(p, i, Guarded) && p.turns[i].flags.kill
  }

  ghost predicate EverySucceeded(p: Plan) {
    (exists k :: 0 <= k < |p.turns| && p.turns[k].action) &&
    forall k :: 0 <= k < |p.turns| && p.turns[k].action ==> p.turns[k].outcome == Succeeded
  }

  /** Each ending of a run, by the first halt of its loop and the flags in force: a pause in
      force outranks a kill, and both outrank whatever the loop met. */
  lemma EndsExactly(p: Plan)
    ensures EndOf(p) == Paused <==> p.turns != [] && (PauseInForce(p) || (!KillInForce(p) && Halts(p, PauseAsked)))
    ensures EndOf(p) == Cancelled <==> p.turns != [] && !PauseInForce(p) && (KillInForce(p) || Halts(p, StopAsked))
    ensures EndOf(p) == WaitingApproval <==> p.turns != [] && !PauseInForce(p) && !KillInForce(p) && Halts(p, NeedsApproval)
    ensures EndOf(p) == Completed <==>
      p.turns != [] && !PauseInForce(p) && !KillInForce(p) && NeverHalts(p) && EverySucceeded(p)
    ensures EndOf(p) == Failed <==>
      p.turns == [] ||
      (!PauseInForce(p) && !KillInForce(p) &&
       (Halts(p, Guarded) || Halts(p, Denied) || Halts(p, Broken) || (NeverHalts(p) && !EverySucceeded(p))))
  {
    var at, h := LoopLeaves(p);
    hide HaltsAt, NeverHalts, Loop, Step, Positions, EntriesOf, Verified, Reached, Left, AnyFailed;
    if p.turns == [] {
    } else if at == |p.turns| {
      NoHalt(p);
      EndOfLoop(p);
    } else {
      HaltsOnce(p, at, h);
      EndAtHalt(p, at, h);
    }
  }

  lemma NoHalt(p: Plan)
    requires NeverHalts(p)
    ensures forall i: nat, h :: !HaltsAt(p, i, h)
  {
    forall i: nat, h ensures !HaltsAt(p, i, h) {
      if HaltsAt(p, i, h) {
        HaltsOnce(p, i, h);
      }
    }
  }

  lemma EndAtHalt(p: Plan, i: nat, h: Halt)
    requires p.turns != [] && i < |p.turns| && Left(p, Result(p.b, p.tokens, p.cost, p.turns), i, h)
    ensures var flags := if h == Guarded then p.turns[i].flags else p.final;
      EndOf(p) ==
        if flags.pause then Paused else if flags.kill then Cancelled
        else match h
             case PauseAsked => Paused
             case StopAsked => Cancelled
             case NeedsApproval => WaitingApproval
             case _ => Failed
  {
    hide Result, EntriesOf, Positions;
  }

  lemma EndOfLoop(p: Plan)
    requires p.turns != [] && Reached(Result(p.b, p.tokens, p.cost, p.turns), p.turns, |p.turns|)
    ensures EndOf(p) ==
      if p.final.pause then Paused else if p.final.kill then Cancelled else if EverySucceeded(p) then Completed else Failed
  {
    EntriesTell(p.turns, |p.turns|);
    hide Result, EntriesOf, Positions, FailuresBefore, ActionsBefore, CallsBefore, Recorded;
    var q := Result(p.b, p.tokens, p.cost, p.turns);
    if !AnyFailed(p.turns, |p.turns|) && q.executed != [] {
      assert q.executed[0].ok;
      assert Verified(q.executed);
    }
  }

  /** The verifier's verdict on the entries, when nothing failed. */
  lemma {:induction false} EntriesTell(turns: seq<Turn>, n: nat)
    requires n <= |turns|
    ensures EntriesOf(turns, n) != [] <==> exists k :: 0 <= k < n && turns[k].action
    ensures !AnyFailed(turns, n) ==> forall i :: 0 <= i < |EntriesOf(turns, n)| ==> EntriesOf(turns, n)[i].ok
  {
    if n > 0 {
      EntriesTell(turns, n - 1);
      AnyFailedOneMore(turns, n - 1);
      hide AnyFailed;
    }
  }

  /** The tools are called for the actions up to the first halt, the one that breaks the circuit
      included, and the entries are those their calls leave, in order. */
  lemma CallsExactly(p: Plan)
    ensures var r := Result(p.b, p.tokens, p.cost, p.turns);
      (NeverHalts(p) ==> r.attempts == Positions(p.turns, |p.turns|) && r.executed == EntriesOf(p.turns, |p.turns|)) &&
      forall i: nat, h :: HaltsAt(p, i, h) ==>
        var n := if h == Broken then i + 1 else i;
        r.attempts == Positions(p.turns, n) && r.executed == EntriesOf(p.turns, n)
  {
    var at, h := LoopLeaves(p);
    if at == |p.turns| {
      NoHalt(p);
    } else {
      HaltsOnce(p, at, h);
    }
    hide HaltsAt, NeverHalts, Loop, Step, Positions, EntriesOf;
  }
}
