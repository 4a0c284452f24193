/** The coordinator's budgeted action loop, its guard, its circuit breaker and its verdict. */
module Coordinator {
  import opened Text
  import opened Windows

  datatype Status =
    | ContextBuilding | Planning | WaitingApproval | Executing | Verifying | Persisting
    | Completed | Failed | Cancelled | Paused

  datatype Decision = Allow | Deny | RequireApproval

  /** How a tool call went; Unrecorded is a call that succeeded and whose event then failed. */
  datatype Outcome = Succeeded | Errored | Unrecorded

  datatype Flags = Flags(kill: bool, pause: bool)

  /** One action of the plan with everything its surroundings answer while it is handled:
      whether it is a well-formed action, the two status checks, the control flags and the
      seconds elapsed when the guard looks, the policy decision, and the call's outcome and time. */
  datatype Turn = Turn(action: bool, tool: string, pauseAsked: bool, stopAsked: bool, flags: Flags, elapsed: int,
                       decision: Decision, outcome: Outcome, at: int)

  datatype Budget = Budget(maxIterations: int, maxToolCalls: int, maxWall: int, maxTokens: int, maxCost: real)

  datatype Entry = Entry(tool: string, ok: bool)

  // ----- the circuit breaker

  const THRESHOLD := 5
  const COOLDOWN := 30

  function FailuresOf(failures: map<string, seq<int>>, key: string): seq<int> {
    if key in failures then failures[key] else []
  }

  class CircuitBreaker {
    var failures: map<string, seq<int>>

    constructor ()
      ensures failures == map[]
    {
      failures := map[];
    }

    method RecordFailure(key: string, now: int) returns (open: bool)
      modifies this
      ensures failures == old(failures)[key := Within(FailuresOf(old(failures), key), now, COOLDOWN) + [now]]
      ensures open <==> |failures[key]| >= THRESHOLD
    {
      var lst := if key in failures then failures[key] else [];
      lst := Within(lst, now, COOLDOWN) + [now];
      failures := failures[key := lst];
      open := |lst| >= THRESHOLD;
    }

    method Reset(key: string)
      modifies this
      ensures failures == old(failures) - {key}
    {
      failures := failures - {key};
    }
  }

  /** What the breaker holds for a tool after failures at the given times and no success. */
  function Recorded(times: seq<int>): seq<int> {
    if times == [] then []
    else
      var n := |times| - 1;
      Within(Recorded(times[..n]), times[n], COOLDOWN) + [times[n]]
  }

  /** Dropping old stamps now or later makes no difference. */
  lemma {:induction false} WithinTwice(times: seq<int>, earlier: int, now: int)
    requires earlier <= now
    ensures Within(Within(times, earlier, COOLDOWN), now, COOLDOWN) == Within(times, now, COOLDOWN)
  {
    if times != [] {
      var n := |times| - 1;
      WithinTwice(times[..n], earlier, now);
      var kept := Within(times[..n], earlier, COOLDOWN);
      if earlier - times[n] < COOLDOWN {
        assert (kept + [times[n]])[..|kept|] == kept;
      } else {
        assert Within(times, earlier, COOLDOWN) == kept;
      }
    }
  }

  lemma {:induction false} RecordedIsWindow(times: seq<int>)
    requires SortedTimes(times) && times != []
    ensures Recorded(times) == Within(times, times[|times| - 1], COOLDOWN)
  {
    var n := |times| - 1;
    var init := times[..n];
    if n > 0 {
      SortedInit(times);
      RecordedIsWindow(init);
      WithinTwice(init, init[n - 1], times[n]);
    }
  }

  /** The circuit opens exactly when the last five failures in a row fall within the cooldown. */
  lemma OpensExactly(times: seq<int>)
    requires SortedTimes(times) && times != []
    ensures |Recorded(times)| >= THRESHOLD <==>
      |times| >= 5 && times[|times| - 1] - times[|times| - 5] < 30
  {
    hide Recorded, Within;
    RecordedIsWindow(times);
    var m := WithinSuffix(times, times[|times| - 1], COOLDOWN);
  }

  // ----- what a run does

  /** The loop so far; attempts are the positions of the actions whose tool was called, halted
      holds the flags when the guard itself ended the loop. */
  datatype Progress = Progress(status: Status, iteration: nat, calls: nat, executed: seq<Entry>, attempts: seq<nat>,
                               hadError: bool, failures: map<string, seq<int>>, halted: Option<Flags>)

  predicate WithinLimits(b: Budget, flags: Flags, elapsed: int, iteration: nat, calls: nat, tokens: int, cost: real) {
    !flags.kill && !flags.pause && elapsed <= b.maxWall && iteration < b.maxIterations &&
    calls < b.maxToolCalls && tokens <= b.maxTokens && cost <= b.maxCost
  }

  /** One action: the progress after it, and whether the loop ends there. */
  function Step(b: Budget, tokens: int, cost: real, p: Progress, t: Turn, i: nat): (Progress, bool) {
    if !t.action then (p, false)
    else if t.pauseAsked then (p.(status := Paused), true)
    else if t.stopAsked then (p.(status := Cancelled), true)
    else if !WithinLimits(b, t.flags, t.elapsed, p.iteration, p.calls, tokens, cost) then
      (p.(status := if !t.flags.pause && !t.flags.kill then Failed else p.status, halted := Some(t.flags)), true)
    else
      var q := p.(iteration := p.iteration + 1, status := Executing);
      match t.decision
      case Deny => (q.(status := Failed), true)
      case RequireApproval => (q.(status := WaitingApproval), true)
      case Allow =>
        if t.outcome == Succeeded then
          (q.(calls := q.calls + 1, executed := q.executed + [Entry(t.tool, true)], attempts := q.attempts + [i],
              failures := q.failures - {t.tool}), false)
        else
          var ok := if t.outcome == Unrecorded then [Entry(t.tool, true)] else [];
          var failures := q.failures[t.tool := Within(FailuresOf(q.failures, t.tool), t.at, COOLDOWN) + [t.at]];
          var open := |failures[t.tool]| >= THRESHOLD;
          (q.(calls := q.calls + |ok|, executed := q.executed + ok + [Entry(t.tool, false)], attempts := q.attempts + [i],
              hadError := true, failures := failures, status := if open then Failed else Executing), open)
  }

  /** The actions from position i on. */
  function Loop(b: Budget, tokens: int, cost: real, p: Progress, turns: seq<Turn>, i: nat): Progress
    requires i <= |turns|
    decreases |turns| - i
  {
    if i == |turns| then p
    else
      var (q, stop) := Step(b, tokens, cost, p, turns[i], i);
      if stop then q else Loop(b, tokens, cost, q, turns, i + 1)
  }

  /** `DefaultVerifier`: some tool succeeded and none failed. */
  predicate Verified(executed: seq<Entry>) {
    executed != [] && (exists i :: 0 <= i < |executed| && executed[i].ok) &&
    !(exists i :: 0 <= i < |executed| && !executed[i].ok)
  }

  function Finished(p: Progress, final: Flags): Status {
    var flags := if p.halted == None then final else p.halted.value;
    if flags.pause then Paused
    else if flags.kill then Cancelled
    else if p.status == Executing || p.status == Planning then
      (if p.hadError then Failed else if Verified(p.executed) then Completed else Failed)
    else p.status
  }

  const BEGUN := Progress(Planning, 0, 0, [], [], false, map[], None)

  function Result(b: Budget, tokens: int, cost: real, turns: seq<Turn>): Progress {
    Loop(b, tokens, cost, BEGUN, turns, 0)
  }

  /** How a run ends; a plan without actions fails at once, whatever was asked of the run. */
  function Ended(b: Budget, tokens: int, cost: real, turns: seq<Turn>, final: Flags): Status {
    if turns == [] then Failed else Finished(Result(b, tokens, cost, turns), final)
  }

  class RunCoordinator {
    const budget: Budget
    var status: Status
    var iteration: nat
    var toolCalls: nat
    var tokensUsed: int
    var costUsed: real
    var kill: bool
    var pause: bool
    const breaker: CircuitBreaker

    constructor (b: Budget)
      ensures budget == b && iteration == 0 && toolCalls == 0 && tokensUsed == 0 && costUsed == 0.0
      ensures fresh(breaker) && breaker.failures == map[]
    {
      budget := b;
      status, iteration, toolCalls, tokensUsed, costUsed, kill, pause := ContextBuilding, 0, 0, 0, 0.0, false, false;
      breaker := new CircuitBreaker();
    }

    /** The guard, looking at the flags and the seconds elapsed. */
    method CheckGuard(elapsed: int) returns (ok: bool)
      ensures ok <==> WithinLimits(budget, Flags(kill, pause), elapsed, iteration, toolCalls, tokensUsed, costUsed)
    {
      if kill {
        return false;
      }
      if pause {
        return false;
      }
      if elapsed > budget.maxWall {
        return false;
      }
      if iteration >= budget.maxIterations {
        return false;
      }
      if toolCalls >= budget.maxToolCalls {
        return false;
      }
      if tokensUsed > budget.maxTokens {
        return false;
      }
      return costUsed <= budget.maxCost;
    }

    function Snapshot(executed: seq<Entry>, attempts: seq<nat>, hadError: bool, halted: bool): Progress
      reads this, breaker
    {
      Progress(status, iteration, toolCalls, executed, attempts, hadError, breaker.failures,
               if halted then Some(Flags(kill, pause)) else None)
    }

    /** The tool call of an allowed action. */
    method CallTool(t: Turn, executed: seq<Entry>) returns (entries: seq<Entry>, failed: bool, open: bool)
      modifies this`status, this`toolCalls, breaker
      ensures failed <==> t.outcome != Succeeded
      ensures toolCalls == old(toolCalls) + (if t.outcome == Errored then 0 else 1)
      ensures t.outcome == Succeeded ==> entries == executed + [Entry(t.tool, true)]
      ensures t.outcome == Errored ==> entries == executed + [] + [Entry(t.tool, false)]
      ensures t.outcome == Unrecorded ==> entries == executed + [Entry(t.tool, true)] + [Entry(t.tool, false)]
      ensures !failed ==> breaker.failures == old(breaker.failures) - {t.tool} && !open
      ensures var f := old(breaker.failures);
        failed ==> breaker.failures == f[t.tool := Within(FailuresOf(f, t.tool), t.at, COOLDOWN) + [t.at]]
      ensures failed ==> (open <==> |breaker.failures[t.tool]| >= THRESHOLD)
      ensures status == if open then Failed else old(status)
    {
      entries, failed, open := executed, false, false;
      if t.outcome != Errored {
        toolCalls := toolCalls + 1;
        entries := entries + [Entry(t.tool, true)];
      }
      if t.outcome == Succeeded {
        breaker.Reset(t.tool);
      } else {
        failed := true;
        entries := entries + [Entry(t.tool, false)];
        open := breaker.RecordFailure(t.tool, t.at);
        if open {
          status := Failed;
        }
      }
    }

    /** One pass of the action loop. */
    method TakeTurn(t: Turn, i: nat, executed: seq<Entry>, ghost attempts: seq<nat>, hadError: bool)
      returns (entries: seq<Entry>, ghost tried: seq<nat>, error: bool, halted: bool, stop: bool)
      modifies this`status, this`iteration, this`toolCalls, this`kill, this`pause, breaker
      ensures (Snapshot(entries, tried, error, halted), stop) ==
        Step(budget, tokensUsed, costUsed, old(Snapshot(executed, attempts, hadError, false)), t, i)
      ensures halted ==> stop
    {
      hide Within;
      entries, tried, error, halted, stop := executed, attempts, hadError, false, false;
      if !t.action {
        return;
      }
      if t.pauseAsked {
        status, stop := Paused, true;
        return;
      }
      if t.stopAsked {
        status, stop := Cancelled, true;
        return;
      }
      kill, pause := t.flags.kill, t.flags.pause;
      var ok := CheckGuard(t.elapsed);
      if !ok {
        if !pause && !kill {
          status := Failed;
        }
        halted, stop := true, true;
        return;
      }
      iteration := iteration + 1;
      status := Executing;
      if t.decision == Deny {
        status, stop := Failed, true;
        return;
      }
      if t.decision == RequireApproval {
        status, stop := WaitingApproval, true;
        return;
      }
      tried := attempts + [i];
      var failed;
      entries, failed, stop := CallTool(t, executed);
      error := hadError || failed;
    }

    /** `run`, after the planner reported its usage. */
    method Run(turns: seq<Turn>, final: Flags) returns (executed: seq<Entry>, ghost attempts: seq<nat>)
      requires iteration == 0 && toolCalls == 0 && breaker.failures == map[]
      modifies this, breaker
      ensures status == Ended(budget, tokensUsed, costUsed, turns, final)
      ensures executed == Result(budget, tokensUsed, costUsed, turns).executed
      ensures attempts == Result(budget, tokensUsed, costUsed, turns).attempts
      ensures tokensUsed == old(tokensUsed) && costUsed == old(costUsed)
    {
      hide Step, Verified;
      status := Planning;
      executed, attempts := [], [];
      if turns == [] {
        status := Failed;
        return;
      }
      var hadError, halted, i, stop := false, false, 0, false;
      while i < |turns| && !stop
        invariant 0 <= i <= |turns|
        invariant tokensUsed == old(tokensUsed) && costUsed == old(costUsed)
        invariant Result(budget, tokensUsed, costUsed, turns) ==
          var p := Snapshot(executed, attempts, hadError, halted);
          if stop then p else Loop(budget, tokensUsed, costUsed, p, turns, i)
        invariant halted ==> stop
      {
        executed, attempts, hadError, halted, stop := TakeTurn(turns[i], i, executed, attempts, hadError);
        i := i + 1;
      }
      if !halted {
        kill, pause := final.kill, final.pause;
      }
      if pause {
        status := Paused;
      } else if kill {
        status := Cancelled;
      } else if status == Executing || status == Planning {
        if hadError {
          status := Failed;
        } else {
          status := if Verified(executed) then Completed else Failed;
        }
      }
    }
  }

  // ----- what every run guarantees

  /** Every run ends in a status the worker knows how to store. */
  lemma {:induction false} EndsKnown(b: Budget, tokens: int, cost: real, p: Progress, turns: seq<Turn>, i: nat, final: Flags)
    requires i <= |turns| && p.status in {Planning, Executing, Failed, WaitingApproval, Paused, Cancelled}
    ensures Finished(Loop(b, tokens, cost, p, turns, i), final) in {Completed, Failed, Cancelled, Paused, WaitingApproval}
    decreases |turns| - i
  {
    if i < |turns| {
      var (q, stop) := Step(b, tokens, cost, p, turns[i], i);
      if !stop {
        EndsKnown(b, tokens, cost, q, turns, i + 1, final);
      }
    }
  }

  /** Attempts so far: rising positions of allowed actions, one per counted iteration at most. */
  ghost predicate Disciplined(b: Budget, p: Progress, turns: seq<Turn>, i: nat) {
    |p.attempts| <= p.iteration && p.iteration <= (if b.maxIterations > 0 then b.maxIterations else 0) &&
    p.calls <= |p.attempts| && p.calls <= (if b.maxToolCalls > 0 then b.maxToolCalls else 0) &&
    (forall k :: 0 <= k < |p.attempts| ==>
      p.attempts[k] < i && p.attempts[k] < |turns| && turns[p.attempts[k]].action && turns[p.attempts[k]].decision == Allow) &&
    (forall k, m :: 0 <= k < m < |p.attempts| ==> p.attempts[k] < p.attempts[m])
  }

  lemma StepDisciplined(b: Budget, tokens: int, cost: real, p: Progress, turns: seq<Turn>, i: nat)
    requires i < |turns| && Disciplined(b, p, turns, i)
    ensures Disciplined(b, Step(b, tokens, cost, p, turns[i], i).0, turns, i + 1)
  {
    hide Within;
  }

  lemma {:induction false} LoopDisciplined(b: Budget, tokens: int, cost: real, p: Progress, turns: seq<Turn>, i: nat)
    requires i <= |turns| && Disciplined(b, p, turns, i)
    ensures Disciplined(b, Loop(b, tokens, cost, p, turns, i), turns, |turns|)
    decreases |turns| - i
  {
    hide Disciplined, Step;
    if i < |turns| {
      var (q, stop) := Step(b, tokens, cost, p, turns[i], i);
      StepDisciplined(b, tokens, cost, p, turns, i);
      if stop {
        DisciplinedLater(b, q, turns, i + 1);
      } else {
        LoopDisciplined(b, tokens, cost, q, turns, i + 1);
      }
    }
  }

  lemma DisciplinedLater(b: Budget, p: Progress, turns: seq<Turn>, i: nat)
    requires i <= |turns| && Disciplined(b, p, turns, i)
    ensures Disciplined(b, p, turns, |turns|)
  {
  }

  /** The positions of the well-formed actions among the first n. */
  function Positions(turns: seq<Turn>, n: nat): seq<nat>
    requires n <= |turns|
  {
    if n == 0 then [] else Positions(turns, n - 1) + (if turns[n - 1].action then [n - 1] else [])
  }

  lemma {:induction false} PositionsGrow(turns: seq<Turn>, i: nat, n: nat)
    requires i <= n <= |turns|
    ensures Positions(turns, i) <= Positions(turns, n)
    decreases n
  {
    if i < n {
      PositionsGrow(turns, i, n - 1);
    }
  }

  lemma {:induction false} LoopPrefix(b: Budget, tokens: int, cost: real, p: Progress, turns: seq<Turn>, i: nat)
    requires i <= |turns| && p.attempts == Positions(turns, i)
    ensures Loop(b, tokens, cost, p, turns, i).attempts <= Positions(turns, |turns|)
    decreases |turns| - i
  {
    hide Within;
    PositionsGrow(turns, i, |turns|);
    if i < |turns| {
      PositionsGrow(turns, i + 1, |turns|);
      var (q, stop) := Step(b, tokens, cost, p, turns[i], i);
      assert q.attempts == p.attempts || q.attempts == Positions(turns, i + 1);
      if !stop {
        LoopPrefix(b, tokens, cost, q, turns, i + 1);
      }
    }
  }

  /** Tools are called for the first actions of the plan, in order and each once, never one that
      is denied or awaits approval. All of them stay within the iteration budget, and those that
      succeeded within the budget of calls, which counts only these. */
  lemma AttemptsDisciplined(b: Budget, tokens: int, cost: real, turns: seq<Turn>, final: Flags)
    ensures Disciplined(b, Result(b, tokens, cost, turns), turns, |turns|)
    ensures Result(b, tokens, cost, turns).attempts <= Positions(turns, |turns|)
    ensures Ended(b, tokens, cost, turns, final) in {Completed, Failed, Cancelled, Paused, WaitingApproval}
  {
    hide Disciplined, Loop, Positions;
    NothingDisciplined(b, turns);
    LoopDisciplined(b, tokens, cost, BEGUN, turns, 0);
    LoopPrefix(b, tokens, cost, BEGUN, turns, 0);
    EndsKnown(b, tokens, cost, BEGUN, turns, 0, final);
  }

  lemma NothingDisciplined(b: Budget, turns: seq<Turn>)
    ensures Disciplined(b, BEGUN, turns, 0) && Positions(turns, 0) == []
  {
  }

  // ----- exactly when a run completes

  function Actions(turns: seq<Turn>, i: nat): nat
    requires i <= |turns|
    decreases |turns| - i
  {
    if i == |turns| then 0 else (if turns[i].action then 1 else 0) + Actions(turns, i + 1)
  }

  predicate Clean(b: Budget, t: Turn) {
    t.action ==>
      !t.pauseAsked && !t.stopAsked && !t.flags.kill && !t.flags.pause && t.elapsed <= b.maxWall &&
      t.decision == Allow && t.outcome == Succeeded
  }

  ghost predicate AllClean(b: Budget, turns: seq<Turn>, i: nat) {
    forall k :: i <= k < |turns| ==> Clean(b, turns[k])
  }

  /** Whether the rest of the plan goes through without a stop or an error. */
  predicate Smooth(p: Progress) {
    (p.status == Planning || p.status == Executing) && !p.hadError && p.halted == None
  }

  /** A loop that has met a stop or an error never becomes smooth again. */
  lemma {:induction false} RoughStays(b: Budget, tokens: int, cost: real, p: Progress, turns: seq<Turn>, i: nat)
    requires i <= |turns| && p.hadError
    ensures Loop(b, tokens, cost, p, turns, i).hadError
    decreases |turns| - i
  {
    if i < |turns| {
      var (q, stop) := Step(b, tokens, cost, p, turns[i], i);
      if !stop {
        RoughStays(b, tokens, cost, q, turns, i + 1);
      }
    }
  }

  lemma {:induction false} SmoothExactly(b: Budget, tokens: int, cost: real, p: Progress, turns: seq<Turn>, i: nat)
    requires i <= |turns| && Smooth(p) && p.calls == p.iteration
    ensures var n := Actions(turns, i);
      Smooth(Loop(b, tokens, cost, p, turns, i)) <==>
        AllClean(b, turns, i) &&
        (n > 0 ==> p.iteration + n <= b.maxIterations && p.calls + n <= b.maxToolCalls && tokens <= b.maxTokens && cost <= b.maxCost)
    decreases |turns| - i
  {
    hide Within;
    if i < |turns| {
      var (q, stop) := Step(b, tokens, cost, p, turns[i], i);
      assert AllClean(b, turns, i) <==> Clean(b, turns[i]) && AllClean(b, turns, i + 1);
      if !stop {
        if q.hadError {
          RoughStays(b, tokens, cost, q, turns, i + 1);
        } else {
          SmoothExactly(b, tokens, cost, q, turns, i + 1);
        }
      }
    }
  }

  lemma {:induction false} SmoothEntries(b: Budget, tokens: int, cost: real, p: Progress, turns: seq<Turn>, i: nat)
    requires i <= |turns| && Smooth(p)
    requires forall k :: 0 <= k < |p.executed| ==> p.executed[k].ok
    ensures var q := Loop(b, tokens, cost, p, turns, i);
      Smooth(q) ==> |q.executed| == |p.executed| + Actions(turns, i) && forall k :: 0 <= k < |q.executed| ==> q.executed[k].ok
    decreases |turns| - i
  {
    hide Within;
    if i < |turns| {
      var (q, stop) := Step(b, tokens, cost, p, turns[i], i);
      if !stop {
        if q.hadError {
          RoughStays(b, tokens, cost, q, turns, i + 1);
        } else {
          SmoothEntries(b, tokens, cost, q, turns, i + 1);
        }
      }
    }
  }

  /** A run completes exactly when its plan has an action, every action was allowed, in time and
      successful, nobody asked it to pause or stop, and the plan fits both budgets. */
  lemma CompletesExactly(b: Budget, tokens: int, cost: real, turns: seq<Turn>, final: Flags)
    ensures var n := Actions(turns, 0);
      Ended(b, tokens, cost, turns, final) == Completed <==>
        n > 0 && AllClean(b, turns, 0) && !final.pause && !final.kill &&
        n <= b.maxIterations && n <= b.maxToolCalls && tokens <= b.maxTokens && cost <= b.maxCost
  {
    hide Loop, AllClean, Step;
    SmoothExactly(b, tokens, cost, BEGUN, turns, 0);
    SmoothEntries(b, tokens, cost, BEGUN, turns, 0);
    NeverCompletedInside(b, tokens, cost, BEGUN, turns, 0);
    var r := Result(b, tokens, cost, turns);
    if Smooth(r) && r.executed != [] {
      assert r.executed[0].ok;
    }
  }

  lemma {:induction false} NeverCompletedInside(b: Budget, tokens: int, cost: real, p: Progress, turns: seq<Turn>, i: nat)
    requires i <= |turns| && p.status != Completed && p.halted == None
    ensures var q := Loop(b, tokens, cost, p, turns, i);
      q.status != Completed && (q.halted == None || q.halted.value.kill || q.halted.value.pause || q.status == Failed)
    decreases |turns| - i
  {
    if i < |turns| {
      var (q, stop) := Step(b, tokens, cost, p, turns[i], i);
      if !stop {
        NeverCompletedInside(b, tokens, cost, q, turns, i + 1);
      }
    }
  }
}
