/** Automatic retries end: how many runs recovery can make of one, and what becomes of each. */
module Retries {
  import opened Text
  import opened Runs

  // --- Families of runs ---

  predicate Linked(runs: seq<RunRow>) {
    forall i :: 0 <= i < |runs| && runs[i].retryOf != None ==> runs[i].retryOf.value < i
  }

  /** Distance to the run a chain of retries began with. */
  function Generation(runs: seq<RunRow>, i: nat): nat
    requires Linked(runs) && i < |runs|
    decreases i
  {
    if runs[i].retryOf == None then 0 else 1 + Generation(runs, runs[i].retryOf.value)
  }

  /** The run a chain of retries began with. */
  function RootOf(runs: seq<RunRow>, i: nat): (k: nat)
    requires Linked(runs) && i < |runs|
    ensures k <= i
    decreases i
  {
    if runs[i].retryOf == None then i else RootOf(runs, runs[i].retryOf.value)
  }

  /** The weights of those of the first n runs that descend from run k. */
  function Weight(runs: seq<RunRow>, n: nat, k: nat, w: RunRow -> nat): nat
    requires Linked(runs) && n <= |runs|
  {
    if n == 0 then 0
    else Weight(runs, n - 1, k, w) + (if RootOf(runs, n - 1) == k then w(runs[n - 1]) else 0)
  }

  const ONE: RunRow -> nat := (r: RunRow) => 1

  /** How many runs descend from run k, itself included. */
  function FamilySize(runs: seq<RunRow>, k: nat): nat
    requires Linked(runs)
  {
    Weight(runs, |runs|, k, ONE)
  }

  ghost predicate SameLinks(runs: seq<RunRow>, runs': seq<RunRow>) {
    |runs| <= |runs'| && forall j :: 0 <= j < |runs| ==> runs'[j].retryOf == runs[j].retryOf
  }

  lemma {:induction false} LinksDecide(runs: seq<RunRow>, runs': seq<RunRow>, i: nat)
    requires Linked(runs) && Linked(runs') && SameLinks(runs, runs') && i < |runs|
    ensures Generation(runs', i) == Generation(runs, i) && RootOf(runs', i) == RootOf(runs, i)
    decreases i
  {
    if runs[i].retryOf != None {
      LinksDecide(runs, runs', runs[i].retryOf.value);
    }
  }

  lemma {:induction false} WeightKept(runs: seq<RunRow>, runs': seq<RunRow>, n: nat, k: nat, w: RunRow -> nat)
    requires Linked(runs) && Linked(runs') && SameLinks(runs, runs') && n <= |runs|
    requires forall j :: 0 <= j < n ==> w(runs'[j]) == w(runs[j])
    ensures Weight(runs', n, k, w) == Weight(runs, n, k, w)
  {
    if n > 0 {
      WeightKept(runs, runs', n - 1, k, w);
      LinksDecide(runs, runs', n - 1);
    }
  }

  lemma {:induction false} WeightUpdated(runs: seq<RunRow>, i: nat, r: RunRow, n: nat, k: nat, w: RunRow -> nat)
    requires i < n <= |runs| && Linked(runs) && Linked(runs[i := r]) && r.retryOf == runs[i].retryOf
    ensures Weight(runs[i := r], n, k, w) + (if RootOf(runs, i) == k then w(runs[i]) else 0) ==
            Weight(runs, n, k, w) + (if RootOf(runs, i) == k then w(r) else 0)
  {
    var runs' := runs[i := r];
    LinksDecide(runs, runs', n - 1);
    if i == n - 1 {
      WeightKept(runs, runs', n - 1, k, w);
    } else {
      WeightUpdated(runs, i, r, n - 1, k, w);
    }
  }

  lemma WeightAppended(runs: seq<RunRow>, r: RunRow, k: nat, w: RunRow -> nat)
    requires Linked(runs) && Linked(runs + [r])
    ensures Weight(runs + [r], |runs| + 1, k, w) ==
            Weight(runs, |runs|, k, w) + (if RootOf(runs + [r], |runs|) == k then w(r) else 0)
  {
    WeightKept(runs, runs + [r], |runs|, k, w);
  }

  lemma {:induction false} WeightLeq(runs: seq<RunRow>, n: nat, k: nat, v: RunRow -> nat, w: RunRow -> nat)
    requires Linked(runs) && n <= |runs| && forall r :: v(r) <= w(r)
    ensures Weight(runs, n, k, v) <= Weight(runs, n, k, w)
  {
    if n > 0 {
      WeightLeq(runs, n - 1, k, v, w);
    }
  }

  lemma {:induction false} RootsExist(runs: seq<RunRow>, i: nat)
    requires Linked(runs) && i < |runs|
    ensures RootOf(runs, i) <= i && runs[RootOf(runs, i)].retryOf == None
    decreases i
  {
    if runs[i].retryOf != None {
      RootsExist(runs, runs[i].retryOf.value);
    }
  }

  /** No run descends from an index that is no run's yet. */
  lemma {:induction false} NoneYet(runs: seq<RunRow>, n: nat, k: nat, w: RunRow -> nat)
    requires Linked(runs) && n <= |runs| && k >= n
    ensures Weight(runs, n, k, w) == 0
  {
    if n > 0 {
      NoneYet(runs, n - 1, k, w);
      RootsExist(runs, n - 1);
    }
  }

  // --- Histories of the run table ---

  /** One change: a run is created, by a person also with a retry count of its own; any other
      column of a run is rewritten; a scheduler begins a pass or tests one row it has read. */
  datatype Change =
    | NewRun(row: RunRow)
    | Rewrite(i: nat, row: RunRow)
    | Begin(s: nat, start: int)
    | Check(s: nat, i: nat, clock: Clock)

  /** A worker, an operator or an approval may rewrite any column but the retry count. */
  predicate Rewritten(runs: seq<RunRow>, i: nat, r: RunRow) {
    i < |runs| && r.retries == runs[i].retries && r.retryOf == runs[i].retryOf && r.born == runs[i].born
  }

  function Next(t: Table, c: Change): Table {
    match c
    case NewRun(row) => t.(runs := t.runs + [row.(retryOf := None, born := row.retries)])
    case Rewrite(i, row) => if Rewritten(t.runs, i, row) then t.(runs := t.runs[i := row]) else t
    case Begin(s, start) => Begun(t, s, start)
    case Check(s, i, clock) => Tested(t, s, i, clock)
  }

  function Changed(changes: seq<Change>): Table {
    if changes == [] then EMPTY_TABLE else Next(Changed(changes[..|changes| - 1]), changes[|changes| - 1])
  }

  // --- No chain is longer than three ---

  ghost predicate ReadingsOfRuns(t: Table) {
    forall s, i :: s in t.passes && i in t.passes[s].rows ==> i < |t.runs|
  }

  ghost predicate Chained(t: Table) {
    Linked(t.runs) && ReadingsOfRuns(t) &&
    (forall i :: 0 <= i < |t.runs| ==> Generation(t.runs, i) <= MAX_RETRIES && Generation(t.runs, i) <= t.runs[i].retries) &&
    (forall s: nat, i: nat :: Pending(t, s, i) ==> Generation(t.runs, i) <= t.passes[s].rows[i].retries)
  }

  lemma UpdateLinked(runs: seq<RunRow>, i: nat, r: RunRow)
    requires Linked(runs) && i < |runs| && r.retryOf == runs[i].retryOf
    ensures Linked(runs[i := r]) && SameLinks(runs, runs[i := r])
    ensures forall j :: 0 <= j < |runs| ==> Generation(runs[i := r], j) == Generation(runs, j)
    ensures forall j :: 0 <= j < |runs| ==> RootOf(runs[i := r], j) == RootOf(runs, j)
  {
    forall j | 0 <= j < |runs|
      ensures Generation(runs[i := r], j) == Generation(runs, j) && RootOf(runs[i := r], j) == RootOf(runs, j)
    {
      LinksDecide(runs, runs[i := r], j);
    }
  }

  lemma AppendLinked(runs: seq<RunRow>, r: RunRow)
    requires Linked(runs) && (r.retryOf != None ==> r.retryOf.value < |runs|)
    ensures Linked(runs + [r]) && SameLinks(runs, runs + [r])
    ensures forall j :: 0 <= j < |runs| ==> Generation(runs + [r], j) == Generation(runs, j)
    ensures forall j :: 0 <= j < |runs| ==> RootOf(runs + [r], j) == RootOf(runs, j)
    ensures Generation(runs + [r], |runs|) == if r.retryOf == None then 0 else 1 + Generation(runs, r.retryOf.value)
    ensures RootOf(runs + [r], |runs|) == if r.retryOf == None then |runs| else RootOf(runs, r.retryOf.value)
  {
    forall j | 0 <= j < |runs|
      ensures Generation(runs + [r], j) == Generation(runs, j) && RootOf(runs + [r], j) == RootOf(runs, j)
    {
      LinksDecide(runs, runs + [r], j);
    }
  }

  lemma FailingChained(t: Table, i: nat, seen: RunRow, clock: Clock)
    requires Chained(t) && i < |t.runs| && Generation(t.runs, i) <= seen.retries
    ensures Chained(Failing(t, i, seen, clock))
  {
    hide Generation, Linked, Backoff;
    var u := Failing(t, i, seen, clock);
    var r := Buried(t.runs[i], seen, clock);
    UpdateLinked(t.runs, i, r);
    if seen.retries + 1 <= MAX_RETRIES {
      AppendLinked(t.runs[i := r], Successor(i, seen.retries + 1, clock));
    }
    forall j | 0 <= j < |u.runs| ensures Generation(u.runs, j) <= MAX_RETRIES && Generation(u.runs, j) <= u.runs[j].retries {
      if j < |t.runs| {
        assert Generation(t.runs, j) <= t.runs[j].retries;
      }
    }
    forall z: nat, x: nat | Pending(u, z, x) ensures Generation(u.runs, x) <= u.passes[z].rows[x].retries {
      assert Pending(t, z, x);
    }
  }

  lemma RewriteChained(t: Table, i: nat, row: RunRow)
    requires Chained(t) && Rewritten(t.runs, i, row)
    ensures Chained(t.(runs := t.runs[i := row]))
  {
    hide Generation, Linked;
    UpdateLinked(t.runs, i, row);
    var u := t.(runs := t.runs[i := row]);
    forall j | 0 <= j < |u.runs| ensures Generation(u.runs, j) <= MAX_RETRIES && Generation(u.runs, j) <= u.runs[j].retries {
      if j < |t.runs| {
        assert Generation(t.runs, j) <= t.runs[j].retries;
      }
    }
    forall z: nat, x: nat | Pending(u, z, x) ensures Generation(u.runs, x) <= u.passes[z].rows[x].retries {
      assert Pending(t, z, x);
    }
  }

  lemma NextChained(t: Table, c: Change)
    requires Chained(t)
    ensures Chained(Next(t, c))
  {
    hide Generation, Linked, Failing, Stuck;
    match c
    case NewRun(row) => AppendLinked(t.runs, row.(retryOf := None, born := row.retries));
    case Rewrite(i, row) => if Rewritten(t.runs, i, row) { RewriteChained(t, i, row); }
    case Begin(s, start) =>
    case Check(s, i, clock) =>
      if Pending(t, s, i) {
        FailingChained(Ticked(t, s, i), i, t.passes[s].rows[i], clock);
      }
  }

  /** Over any history, with any number of schedulers and however stale their readings, no chain
      of automatic retries is longer than three. */
  lemma {:induction false} ChainsEnd(changes: seq<Change>)
    ensures Chained(Changed(changes)) && Linked(Changed(changes).runs)
    ensures forall i :: 0 <= i < |Changed(changes).runs| ==> Generation(Changed(changes).runs, i) <= 3
    decreases |changes|
  {
    hide Chained, Next;
    if changes == [] {
      EmptyChained();
    } else {
      ChainsEnd(changes[..|changes| - 1]);
      NextChained(Changed(changes[..|changes| - 1]), changes[|changes| - 1]);
    }
    ChainedShort(Changed(changes));
  }

  lemma ChainedShort(t: Table)
    requires Chained(t)
    ensures Linked(t.runs) && forall i :: 0 <= i < |t.runs| ==> Generation(t.runs, i) <= 3
  {
  }

  lemma EmptyChained()
    ensures Chained(EMPTY_TABLE)
  {
  }

  // --- Tests on current readings ---

  /** A scheduler tests a row it has read and finds the run stuck. */
  predicate Fails(t: Table, c: Change) {
    c.Check? && Pending(t, c.s, c.i) && Stuck(t.passes[c.s].rows[c.i], t.passes[c.s].start, c.clock.tested)
  }

  /** A test that fails a run has read the retry count the run still has. */
  predicate Current(t: Table, c: Change) {
    Fails(t, c) ==> t.passes[c.s].rows[c.i].retries == t.runs[c.i].retries
  }

  ghost predicate InStep(changes: seq<Change>) {
    changes == [] ||
    (InStep(changes[..|changes| - 1]) && Current(Changed(changes[..|changes| - 1]), changes[|changes| - 1]))
  }

  predicate OnlyScheduler(s: nat, changes: seq<Change>) {
    forall c :: c in changes ==> (c.Begin? ==> c.s == s) && (c.Check? ==> c.s == s)
  }

  ghost predicate ReadingsCurrent(s: nat, t: Table) {
    (forall x :: x in t.passes ==> x == s) &&
    (forall i: nat :: Pending(t, s, i) ==> t.passes[s].rows[i].retries == t.runs[i].retries) && ReadingsOfRuns(t)
  }

  lemma NextCurrent(s: nat, t: Table, c: Change)
    requires ReadingsCurrent(s, t) && (c.Begin? ==> c.s == s) && (c.Check? ==> c.s == s)
    ensures Current(t, c) && ReadingsCurrent(s, Next(t, c))
  {
    hide Backoff, Stuck;
  }

  /** With a single scheduler process every reading is current when it is tested. */
  lemma {:induction false} SingleInStep(s: nat, changes: seq<Change>)
    requires OnlyScheduler(s, changes)
    ensures InStep(changes) && ReadingsCurrent(s, Changed(changes))
    decreases |changes|
  {
    hide Next, Current;
    if changes != [] {
      var fewer, c := changes[..|changes| - 1], changes[|changes| - 1];
      assert c in changes && forall d :: d in fewer ==> d in changes;
      SingleInStep(s, fewer);
      NextCurrent(s, Changed(fewer), c);
    }
  }

  // --- At most eight runs to a root ---

  /** How many automatic successors a run with this retry count can still give rise to,
      directly and through its successors, when it is revived after each recovery. */
  function Allowance(retries: nat): nat
    decreases MAX_RETRIES - retries
  {
    if retries >= MAX_RETRIES then 0 else 1 + 2 * Allowance(retries + 1)
  }

  const EIGHT: RunRow -> nat := (r: RunRow) => 1 + Allowance(r.retries)

  lemma AllowanceStep(retries: nat)
    ensures Allowance(retries) == if retries < MAX_RETRIES then 1 + 2 * Allowance(retries + 1) else 0
    ensures Allowance(retries) <= 7
    ensures retries >= MAX_RETRIES ==> Allowance(retries + 1) == 0
  {
    assert Allowance(3) == 0 && Allowance(2) == 1 && Allowance(1) == 3 && Allowance(0) == 7;
  }

  /** What a failing test does to the weight of a family: the allowance of the retry count that
      was read takes the place of the allowance of the run's own. */
  lemma TestWeight(t: Table, i: nat, seen: RunRow, clock: Clock, k: nat)
    requires Linked(t.runs) && i < |t.runs|
    ensures var u := Failing(t, i, seen, clock).runs;
      Linked(u) &&
      Weight(u, |u|, k, EIGHT) == Weight(t.runs, |t.runs|, k, EIGHT) +
        (if RootOf(t.runs, i) == k then Allowance(seen.retries) - Allowance(t.runs[i].retries) else 0)
  {
    hide Linked, Weight, RootOf, Allowance, Backoff;
    var r := Buried(t.runs[i], seen, clock);
    var runs := t.runs[i := r];
    UpdateLinked(t.runs, i, r);
    WeightUpdated(t.runs, i, r, |t.runs|, k, EIGHT);
    AllowanceStep(seen.retries);
    if seen.retries + 1 <= MAX_RETRIES {
      var succ := Successor(i, seen.retries + 1, clock);
      AppendLinked(runs, succ);
      WeightAppended(runs, succ, k, EIGHT);
    }
  }

  /** What one change adds to the family of run k beyond what it could give rise to: the
      allowance of a stale count less that of the run's own. */
  function Shift(t: Table, c: Change, k: nat): int {
    if Fails(t, c) && Linked(t.runs) && RootOf(t.runs, c.i) == k
    then Allowance(t.passes[c.s].rows[c.i].retries) - Allowance(t.runs[c.i].retries)
    else 0
  }

  function Drift(changes: seq<Change>, k: nat): int {
    if changes == [] then 0
    else Drift(changes[..|changes| - 1], k) + Shift(Changed(changes[..|changes| - 1]), changes[|changes| - 1], k)
  }

  lemma NextWeight(t: Table, c: Change, k: nat)
    requires Linked(t.runs) && Linked(Next(t, c).runs) && k < |t.runs|
    ensures var u := Next(t, c);
      Weight(u.runs, |u.runs|, k, EIGHT) == Weight(t.runs, |t.runs|, k, EIGHT) + Shift(t, c, k)
  {
    hide Linked, Weight, RootOf, Generation, Allowance, Failing, Stuck, Buried;
    match c
    case NewRun(row) =>
      AppendLinked(t.runs, row.(retryOf := None, born := row.retries));
      WeightAppended(t.runs, row.(retryOf := None, born := row.retries), k, EIGHT);
    case Rewrite(i, row) =>
      if Rewritten(t.runs, i, row) {
        UpdateLinked(t.runs, i, row);
        WeightUpdated(t.runs, i, row, |t.runs|, k, EIGHT);
      }
    case Begin(s, start) =>
    case Check(s, i, clock) =>
      if Fails(t, c) {
        TestWeight(Ticked(t, s, i), i, t.passes[s].rows[i], clock, k);
      }
  }

  /** No change removes a run or makes it the retry of another. */
  lemma NextLinks(t: Table, c: Change)
    ensures SameLinks(t.runs, Next(t, c).runs) && t.deadLetters <= Next(t, c).deadLetters
    ensures forall j :: 0 <= j < |t.runs| ==> Next(t, c).runs[j].born == t.runs[j].born
    ensures var u := Next(t, c);
      |u.runs| <= |t.runs| + 1 &&
      (|u.runs| > |t.runs| && u.runs[|t.runs|].retryOf == None ==>
        c.NewRun? && u.runs == t.runs + [c.row.(retryOf := None, born := c.row.retries)])
  {
    hide Backoff, Stuck;
  }

  lemma {:induction false} DriftLater(changes: seq<Change>, k: nat)
    requires k >= |Changed(changes).runs|
    ensures Drift(changes, k) == 0
    decreases |changes|
  {
    hide Next, Fails, Allowance;
    if changes != [] {
      var fewer := changes[..|changes| - 1];
      NextLinks(Changed(fewer), changes[|changes| - 1]);
      DriftLater(fewer, k);
      ShiftLater(Changed(fewer), changes[|changes| - 1], k);
    }
  }

  lemma ShiftLater(t: Table, c: Change, k: nat)
    requires k >= |t.runs|
    ensures Shift(t, c, k) == 0
  {
  }

  /** Over any history, with revivals and any number of schedulers: the runs that descend from a
      root, with those they may still give rise to, are what the root could give rise to when it
      was created, itself included, and what stale tests have added. */
  lemma {:induction false} FamilyBalance(changes: seq<Change>, k: nat)
    requires k < |Changed(changes).runs| && Changed(changes).runs[k].retryOf == None
    ensures var runs := Changed(changes).runs;
      Linked(runs) && Weight(runs, |runs|, k, EIGHT) == 1 + Allowance(runs[k].born) + Drift(changes, k)
    decreases |changes|
  {
    hide Next, Linked, Weight, Shift, Allowance, RootOf;
    ChainsEnd(changes);
    if changes != [] {
      var fewer, c := changes[..|changes| - 1], changes[|changes| - 1];
      var t := Changed(fewer);
      ChainsEnd(fewer);
      NextLinks(t, c);
      if k < |t.runs| {
        FamilyBalance(fewer, k);
        NextWeight(t, c, k);
      } else {
        DriftLater(fewer, k);
        ShiftLater(t, c, k);
        var r := c.row.(retryOf := None, born := c.row.retries);
        NoneYet(t.runs, k, k, EIGHT);
        AppendLinked(t.runs, r);
        WeightAppended(t.runs, r, k, EIGHT);
      }
    }
  }

  lemma {:induction false} NoDrift(changes: seq<Change>, k: nat)
    requires InStep(changes)
    ensures Drift(changes, k) == 0
    decreases |changes|
  {
    hide Changed, Fails, Allowance, RootOf, Linked;
    if changes != [] {
      NoDrift(changes[..|changes| - 1], k);
    }
  }

  lemma {:induction false} OnlyRoots(runs: seq<RunRow>, n: nat, k: nat, w: RunRow -> nat)
    requires Linked(runs) && n <= |runs| && k < |runs| && runs[k].retryOf != None
    ensures Weight(runs, n, k, w) == 0
  {
    if n > 0 {
      OnlyRoots(runs, n - 1, k, w);
      RootsExist(runs, n - 1);
    }
  }

  /** So every run not created by recovery is the root of at most eight, itself included, even if
      a late write or an approval revives runs that recovery had already failed, and of no more
      than stale tests have added to that. */
  lemma FamiliesEnd(changes: seq<Change>, k: nat)
    requires k < |Changed(changes).runs|
    ensures var runs := Changed(changes).runs;
      Linked(runs) && FamilySize(runs, k) <= (if runs[k].retryOf == None then 8 + Drift(changes, k) else 0) &&
      (InStep(changes) ==> FamilySize(runs, k) <= 8)
  {
    hide Weight, Changed, InStep, Drift, Linked, Allowance;
    ChainsEnd(changes);
    var runs := Changed(changes).runs;
    if runs[k].retryOf == None {
      FamilyBalance(changes, k);
      assert forall r :: ONE(r) <= EIGHT(r);
      WeightLeq(runs, |runs|, k, ONE, EIGHT);
      AllowanceStep(runs[k].born);
      if InStep(changes) {
        NoDrift(changes, k);
      }
    } else {
      OnlyRoots(runs, |runs|, k, ONE);
    }
  }

  // --- Without revivals ---

  /** Nobody takes a finished run back into circulation. */
  predicate Ordinary(t: Table, c: Change) {
    c.Rewrite? && c.i < |t.runs| && Finished(t.runs[c.i].status) ==> Finished(c.row.status)
  }

  ghost predicate NoRevival(changes: seq<Change>) {
    changes == [] ||
    (NoRevival(changes[..|changes| - 1]) && Ordinary(Changed(changes[..|changes| - 1]), changes[|changes| - 1]))
  }

  /** Recovery has failed the run. */
  predicate Recovered(r: RunRow) {
    r.retries == r.born + 1
  }

  ghost predicate SucceededBy(runs: seq<RunRow>, i: nat, j: nat) {
    j < |runs| && runs[j].retryOf == Some(i)
  }

  /** Nothing has been made of run i, or recovery failed it once and made one thing of it: a
      successor within the limit, a dead letter beyond it. */
  ghost predicate Fate(t: Table, i: nat)
    requires i < |t.runs|
  {
    var r := t.runs[i];
    (r.retries == r.born || (Recovered(r) && Finished(r.status))) &&
    (Recovered(r) && r.born < MAX_RETRIES <==> exists j: nat :: SucceededBy(t.runs, i, j)) &&
    (Recovered(r) && r.born >= MAX_RETRIES <==> i in t.deadLetters)
  }

  ghost predicate OneSuccessor(runs: seq<RunRow>) {
    (forall i: nat, j: nat, m: nat :: SucceededBy(runs, i, j) && SucceededBy(runs, i, m) ==> j == m) &&
    (forall i: nat, j: nat :: SucceededBy(runs, i, j) ==> i < j && i < |runs| && runs[j].born == runs[i].born + 1 <= MAX_RETRIES)
  }

  ghost predicate Fresh(t: Table) {
    forall s: nat, i: nat :: Pending(t, s, i) ==> t.passes[s].rows[i].retries == t.runs[i].born
  }

  ghost predicate EachOnce(letters: seq<nat>) {
    forall a, b :: 0 <= a < b < |letters| ==> letters[a] != letters[b]
  }

  ghost predicate LettersOfRuns(t: Table) {
    forall i :: i in t.deadLetters ==> i < |t.runs|
  }

  ghost predicate Plain(t: Table) {
    (forall i :: 0 <= i < |t.runs| ==> Fate(t, i)) && OneSuccessor(t.runs) && Fresh(t) && EachOnce(t.deadLetters) &&
    LettersOfRuns(t) && ReadingsOfRuns(t)
  }

  lemma FailingPlain(t: Table, i: nat, seen: RunRow, clock: Clock)
    requires Plain(t) && i < |t.runs| && seen.retries == t.runs[i].retries == t.runs[i].born
    ensures Plain(Failing(t, i, seen, clock))
  {
    hide Backoff;
    var u := Failing(t, i, seen, clock);
    forall x | 0 <= x < |u.runs| ensures Fate(u, x) {
      FateAfter(t, i, seen, clock, x);
    }
    assert Fate(t, i);
    SuccessorsAfter(t, i, seen, clock);
  }

  lemma SuccessorsAfter(t: Table, i: nat, seen: RunRow, clock: Clock)
    requires OneSuccessor(t.runs) && i < |t.runs| && Fate(t, i) && seen.retries == t.runs[i].retries == t.runs[i].born
    ensures OneSuccessor(Failing(t, i, seen, clock).runs)
  {
    hide Backoff;
    var runs := Failing(t, i, seen, clock).runs;
    forall x: nat, j: nat | SucceededBy(runs, x, j)
      ensures SucceededBy(t.runs, x, j) || (x == i && j == |t.runs|)
    {
      assert j < |t.runs| ==> runs[j].retryOf == t.runs[j].retryOf;
    }
  }

  lemma FateAfter(t: Table, i: nat, seen: RunRow, clock: Clock, x: nat)
    requires Plain(t) && i < |t.runs| && seen.retries == t.runs[i].retries == t.runs[i].born
    requires x < |Failing(t, i, seen, clock).runs|
    ensures Fate(Failing(t, i, seen, clock), x)
  {
    hide Backoff;
    var u := Failing(t, i, seen, clock);
    assert forall j: nat :: j < |t.runs| ==> (SucceededBy(u.runs, x, j) <==> SucceededBy(t.runs, x, j));
    if |u.runs| > |t.runs| {
      assert SucceededBy(u.runs, x, |t.runs|) <==> x == i;
    }
    if x < |t.runs| {
      assert Fate(t, x);
    }
  }

  lemma NextPlain(t: Table, c: Change)
    requires Plain(t) && Current(t, c) && Ordinary(t, c)
    ensures Plain(Next(t, c))
  {
    hide Failing, Stuck;
    match c
    case NewRun(row) => NewPlain(t, row.(retryOf := None, born := row.retries));
    case Rewrite(i, row) => if Rewritten(t.runs, i, row) { RewritePlain(t, i, row); }
    case Begin(s, start) => BeginPlain(t, s, start);
    case Check(s, i, clock) =>
      if Pending(t, s, i) {
        var seen := t.passes[s].rows[i];
        TickPlain(t, s, i);
        if Fails(t, c) {
          FailingPlain(Ticked(t, s, i), i, seen, clock);
        }
      }
  }

  lemma NewPlain(t: Table, r: RunRow)
    requires Plain(t) && r.retryOf == None && r.born == r.retries
    ensures Plain(t.(runs := t.runs + [r]))
  {
    var u := t.(runs := t.runs + [r]);
    assert forall x: nat, j: nat :: SucceededBy(u.runs, x, j) <==> SucceededBy(t.runs, x, j);
    forall x | 0 <= x < |u.runs| ensures Fate(u, x) {
      assert forall j: nat :: SucceededBy(u.runs, x, j) <==> SucceededBy(t.runs, x, j);
      if x < |t.runs| {
        assert Fate(t, x);
      }
    }
  }

  lemma RewritePlain(t: Table, i: nat, r: RunRow)
    requires Plain(t) && Rewritten(t.runs, i, r) && (Finished(t.runs[i].status) ==> Finished(r.status))
    ensures Plain(t.(runs := t.runs[i := r]))
  {
    var u := t.(runs := t.runs[i := r]);
    assert forall x: nat, j: nat :: SucceededBy(u.runs, x, j) <==> SucceededBy(t.runs, x, j);
    forall x | 0 <= x < |u.runs| ensures Fate(u, x) {
      assert Fate(t, x);
    }
  }

  lemma BeginPlain(t: Table, s: nat, start: int)
    requires Plain(t)
    ensures Plain(Begun(t, s, start))
  {
    var u := Begun(t, s, start);
    forall x | 0 <= x < |u.runs| ensures Fate(u, x) {
      assert Fate(t, x);
    }
    forall z: nat, i: nat | Pending(u, z, i) ensures u.passes[z].rows[i].retries == u.runs[i].born {
      assert Fate(t, i);
      assert z != s ==> Pending(t, z, i);
    }
  }

  lemma TickPlain(t: Table, s: nat, i: nat)
    requires Plain(t) && Pending(t, s, i)
    ensures Plain(Ticked(t, s, i))
  {
    var u := Ticked(t, s, i);
    forall x | 0 <= x < |u.runs| ensures Fate(u, x) {
      assert Fate(t, x);
    }
    forall z: nat, x: nat | Pending(u, z, x) ensures u.passes[z].rows[x].retries == u.runs[x].born {
      assert Pending(t, z, x);
    }
  }

  /** Over any history whose failing tests are current, in which nobody revives a finished run,
      recovery fails each run at most once and makes exactly one thing of it: a single successor
      with the next retry count, or from the third retry on a single dead letter. */
  lemma {:induction false} RecoveredOnce(changes: seq<Change>)
    requires InStep(changes) && NoRevival(changes)
    ensures Plain(Changed(changes))
    decreases |changes|
  {
    hide Plain, Next, Current, Ordinary;
    if changes == [] {
      EmptyPlain();
    } else {
      RecoveredOnce(changes[..|changes| - 1]);
      NextPlain(Changed(changes[..|changes| - 1]), changes[|changes| - 1]);
    }
  }

  lemma EmptyPlain()
    ensures Plain(EMPTY_TABLE)
  {
  }

  // --- Exactly when a run is recovered once ---

  /** Recovery made two things of one run. */
  ghost predicate TwoSuccessors(runs: seq<RunRow>, i: nat) {
    exists j: nat, m: nat :: j < m && SucceededBy(runs, i, j) && SucceededBy(runs, i, m)
  }

  /** No run has two successors, and no dead letter occurs twice. */
  ghost predicate Single(t: Table) {
    (forall i: nat :: !TwoSuccessors(t.runs, i)) && EachOnce(t.deadLetters)
  }

  lemma PlainSingle(t: Table)
    requires Plain(t)
    ensures Single(t)
  {
    hide Fate;
  }

  /** A test that fails a run on a retry count it has no longer makes a second successor or a
      second dead letter of it. */
  lemma StaleSplits(t: Table, c: Change)
    requires Plain(t) && !Current(t, c)
    ensures !Single(Next(t, c))
  {
    hide Backoff, Stuck, OneSuccessor;
    var i, u := c.i, Next(t, c);
    assert Fate(t, i) && t.passes[c.s].rows[i].retries == t.runs[i].born;
    if t.runs[i].born < MAX_RETRIES {
      var j: nat :| SucceededBy(t.runs, i, j);
      assert SucceededBy(u.runs, i, j) && SucceededBy(u.runs, i, |t.runs|);
      assert TwoSuccessors(u.runs, i);
    } else {
      var a :| 0 <= a < |t.deadLetters| && t.deadLetters[a] == i;
      assert u.deadLetters == t.deadLetters + [i];
      assert u.deadLetters[a] == u.deadLetters[|t.deadLetters|];
    }
  }

  /** Nothing undoes it. */
  lemma StaysSplit(t: Table, c: Change)
    requires !Single(t)
    ensures !Single(Next(t, c))
  {
    hide Next;
    NextLinks(t, c);
    var u := Next(t, c);
    if i: nat :| TwoSuccessors(t.runs, i) {
      var j: nat, m: nat :| j < m && SucceededBy(t.runs, i, j) && SucceededBy(t.runs, i, m);
      assert SucceededBy(u.runs, i, j) && SucceededBy(u.runs, i, m);
      assert TwoSuccessors(u.runs, i);
    } else {
      var a, b :| 0 <= a < b < |t.deadLetters| && t.deadLetters[a] == t.deadLetters[b];
      assert u.deadLetters[a] == t.deadLetters[a] && u.deadLetters[b] == t.deadLetters[b];
    }
  }

  /** Over any history in which nobody revives a finished run, no run gets two successors and no
      dead letter is written twice exactly when every test that failed a run had read the retry
      count the run still had. */
  lemma {:induction false} SingleExactly(changes: seq<Change>)
    requires NoRevival(changes)
    ensures Single(Changed(changes)) <==> InStep(changes)
    decreases |changes|
  {
    hide Plain, Next, Current, Ordinary, Single;
    if InStep(changes) {
      RecoveredOnce(changes);
      PlainSingle(Changed(changes));
    } else {
      var fewer, c := changes[..|changes| - 1], changes[|changes| - 1];
      SingleExactly(fewer);
      if InStep(fewer) {
        RecoveredOnce(fewer);
        StaleSplits(Changed(fewer), c);
      } else {
        StaysSplit(Changed(fewer), c);
      }
    }
  }

  /** The retry count a run is created with is its root's plus its generation. */
  lemma {:induction false} BornByGeneration(t: Table, i: nat)
    requires Plain(t) && Linked(t.runs) && i < |t.runs|
    ensures t.runs[i].born == t.runs[RootOf(t.runs, i)].born + Generation(t.runs, i)
    ensures Generation(t.runs, i) > 0 ==> t.runs[i].born <= MAX_RETRIES
    decreases i
  {
    if t.runs[i].retryOf != None {
      assert SucceededBy(t.runs, t.runs[i].retryOf.value, i);
      BornByGeneration(t, t.runs[i].retryOf.value);
    }
  }

  /** So a run that started with no retries is dead-lettered exactly three successors later. */
  lemma DeadLetterLast(changes: seq<Change>, i: nat)
    requires InStep(changes) && NoRevival(changes) && i in Changed(changes).deadLetters
    ensures Linked(Changed(changes).runs) && i < |Changed(changes).runs|
    ensures var runs := Changed(changes).runs; var b := runs[RootOf(runs, i)].born;
      Generation(runs, i) == if b < 3 then 3 - b else 0
  {
    hide Next, InStep, NoRevival, Changed;
    RecoveredOnce(changes);
    ChainsEnd(changes);
    var t := Changed(changes);
    assert Fate(t, i);
    BornByGeneration(t, i);
  }

  /** Successors a run can still get, without revivals. */
  function Left(r: RunRow): nat {
    if r.retries == r.born && r.born < MAX_RETRIES then MAX_RETRIES - r.born else 0
  }

  const FOUR: RunRow -> nat := (r: RunRow) => 1 + Left(r)

  ghost predicate Fourfold(t: Table) {
    Linked(t.runs) && forall k :: 0 <= k < |t.runs| ==> Weight(t.runs, |t.runs|, k, FOUR) <= 4
  }

  lemma PlainWeight(t: Table, i: nat, seen: RunRow, clock: Clock, k: nat)
    requires Linked(t.runs) && i < |t.runs| && seen.retries == t.runs[i].retries == t.runs[i].born
    ensures var u := Failing(t, i, seen, clock).runs;
      Linked(u) && Weight(u, |u|, k, FOUR) == Weight(t.runs, |t.runs|, k, FOUR)
  {
    hide Linked, Weight, RootOf, Backoff;
    var r := Buried(t.runs[i], seen, clock);
    var runs := t.runs[i := r];
    UpdateLinked(t.runs, i, r);
    WeightUpdated(t.runs, i, r, |t.runs|, k, FOUR);
    if seen.retries + 1 <= MAX_RETRIES {
      var succ := Successor(i, seen.retries + 1, clock);
      AppendLinked(runs, succ);
      WeightAppended(runs, succ, k, FOUR);
    }
  }

  lemma TestFourfold(t: Table, v: Table, i: nat, seen: RunRow, clock: Clock)
    requires Fourfold(t) && v.runs == t.runs && i < |t.runs| && seen.retries == t.runs[i].retries == t.runs[i].born
    ensures Fourfold(Failing(v, i, seen, clock))
  {
    hide Linked, Weight, RootOf;
    var u := Failing(v, i, seen, clock).runs;
    PlainWeight(v, i, seen, clock, 0);
    forall k | 0 <= k < |u| ensures Weight(u, |u|, k, FOUR) <= 4 {
      PlainWeight(v, i, seen, clock, k);
      if k >= |t.runs| {
        NoneYet(t.runs, |t.runs|, k, FOUR);
      }
    }
  }

  lemma NextFourfold(t: Table, c: Change)
    requires Fourfold(t) && Plain(t) && Current(t, c)
    ensures Fourfold(Next(t, c))
  {
    hide Linked, Weight, RootOf, Generation, Failing, Stuck, Buried, Fate, OneSuccessor;
    var u := Next(t, c);
    match c
    case NewRun(row) =>
      var r := row.(retryOf := None, born := row.retries);
      AppendLinked(t.runs, r);
      forall k | 0 <= k < |u.runs| ensures Weight(u.runs, |u.runs|, k, FOUR) <= 4 {
        WeightAppended(t.runs, r, k, FOUR);
        if k == |t.runs| {
          NoneYet(t.runs, |t.runs|, k, FOUR);
        }
      }
    case Rewrite(i, row) =>
      if Rewritten(t.runs, i, row) {
        UpdateLinked(t.runs, i, row);
        forall k | 0 <= k < |u.runs| ensures Weight(u.runs, |u.runs|, k, FOUR) <= 4 {
          WeightUpdated(t.runs, i, row, |t.runs|, k, FOUR);
        }
      }
    case Begin(s, start) =>
    case Check(s, i, clock) =>
      if Pending(t, s, i) && Stuck(t.passes[s].rows[i], t.passes[s].start, clock.tested) {
        TestFourfold(t, Ticked(t, s, i), i, t.passes[s].rows[i], clock);
      }
  }

  lemma {:induction false} AlwaysFourfold(changes: seq<Change>)
    requires InStep(changes) && NoRevival(changes)
    ensures Fourfold(Changed(changes))
    decreases |changes|
  {
    hide Fourfold, Next, Current, Plain, Ordinary;
    if changes == [] {
      EmptyFourfold();
    } else {
      AlwaysFourfold(changes[..|changes| - 1]);
      RecoveredOnce(changes[..|changes| - 1]);
      NextFourfold(Changed(changes[..|changes| - 1]), changes[|changes| - 1]);
    }
  }

  lemma EmptyFourfold()
    ensures Fourfold(EMPTY_TABLE)
  {
  }

  /** Without revivals a run and its automatic successors are at most four. */
  lemma RetriesEnd(changes: seq<Change>, k: nat)
    requires InStep(changes) && NoRevival(changes) && k < |Changed(changes).runs|
    ensures Linked(Changed(changes).runs) && FamilySize(Changed(changes).runs, k) <= 4
  {
    hide Weight, Changed, InStep, NoRevival;
    AlwaysFourfold(changes);
    var runs := Changed(changes).runs;
    assert forall r :: ONE(r) <= FOUR(r);
    WeightLeq(runs, |runs|, k, ONE, FOUR);
  }

  lemma Snoc(changes: seq<Change>, c: Change)
    ensures Changed(changes + [c]) == Next(Changed(changes), c)
    ensures InStep(changes + [c]) <==> InStep(changes) && Current(Changed(changes), c)
    ensures NoRevival(changes + [c]) <==> NoRevival(changes) && Ordinary(Changed(changes), c)
  {
    assert (changes + [c])[..|changes|] == changes;
    hide Next, Current, Ordinary;
  }

  /** Two passes that both read a run before either tests it both fail it, and it gets two
      successors although nobody revived it. */
  lemma OverlapSplits(row: RunRow)
    requires row.status == Executing && row.retries == 0 && row.lease == Some(30000) && row.heartbeat == Some(0)
    ensures var late := Clock(31000, 31000, 31000);
      var changes := [NewRun(row)] + [Begin(1, 30000)] + [Begin(2, 30000)] + [Check(1, 0, late)] + [Check(2, 0, late)];
      !InStep(changes) && NoRevival(changes) &&
      SucceededBy(Changed(changes).runs, 0, 1) && SucceededBy(Changed(changes).runs, 0, 2)
  {
    hide Changed, InStep, NoRevival, Next, ReadRows;
    var late := Clock(31000, 31000, 31000);
    var c1 := [NewRun(row)];
    var c2 := c1 + [Begin(1, 30000)];
    var c3 := c2 + [Begin(2, 30000)];
    var c4 := c3 + [Check(1, 0, late)];
    var r := row.(retryOf := None, born := 0);
    NoChanges();
    assert [] + c1 == c1;
    Snoc([], NewRun(row));
    Snoc(c1, Begin(1, 30000));
    Snoc(c2, Begin(2, 30000));
    Snoc(c3, Check(1, 0, late));
    Snoc(c4, Check(2, 0, late));
    OverlapBegins(row, r);
    OverlapRows(Changed(c3), r, late);
    OverlapSteps(Changed(c3), row, late);
  }

  lemma OverlapSteps(t: Table, row: RunRow, late: Clock)
    ensures Next(t, Check(1, 0, late)) == Tested(t, 1, 0, late)
    ensures Next(Next(t, Check(1, 0, late)), Check(2, 0, late)) == Tested(Tested(t, 1, 0, late), 2, 0, late)
  {
    hide Tested;
  }

  lemma OverlapBegins(row: RunRow, r: RunRow)
    requires row.status == Executing && row.retries == 0 && r == row.(retryOf := None, born := 0)
    ensures var t := Next(Next(Next(EMPTY_TABLE, NewRun(row)), Begin(1, 30000)), Begin(2, 30000));
      var read := Pass(30000, map[0 := r]);
      t == Table([r], [], [], map[1 := read, 2 := read])
  {
    assert ReadRows([r]) == map[0 := r];
    assert Next(EMPTY_TABLE, NewRun(row)) == Table([r], [], [], map[]);
  }

  lemma NoChanges()
    ensures Changed([]) == EMPTY_TABLE && NoRevival([]) && InStep([])
  {
  }

  lemma OverlapRows(t: Table, r: RunRow, late: Clock)
    requires r.status == Executing && r.retries == 0 && r.lease == Some(30000) && late == Clock(31000, 31000, 31000)
    requires var read := Pass(30000, map[0 := r]); t == Table([r], [], [], map[1 := read, 2 := read])
    ensures var u := Tested(t, 1, 0, late); var v := Tested(u, 2, 0, late); var succ := Successor(0, 1, late);
      !Current(u, Check(2, 0, late)) && v.runs == [Buried(Buried(r, r, late), r, late), succ, succ]
  {
    hide Backoff;
    var u, succ := Tested(t, 1, 0, late), Successor(0, 1, late);
    assert u.runs == [Buried(r, r, late), succ];
    assert u.passes[2] == t.passes[2];
  }
}
