/** The capped compute-spend ledger and its roll-up. The cap ratio is a real number. */
module Ledger {
  import opened Text
  import opened Windows
  import opened Sets

  const CALLS := {"agent_transfer", "open_channel", "top_up_escrow", "force_open", "compute_completion"}

  datatype Row =
    | Blocked(call: string, amount: int, reason: string)
    | DryRun(call: string, amount: int)
    | Spend(call: string, amount: int)
    | Settlement(final: bool, closed: bool, upheld: bool, kLocked: int)
    | Other

  /** `spend_cap`; None is its ValueError. */
  function SpendCap(principal: int, ratio: real): (cap: Option<int>)
    ensures cap.Some? <==> principal >= 0 && 0.0 <= ratio <= 1.0
    ensures cap.Some? ==> 0 <= cap.value <= principal
    ensures cap.Some? ==> cap.value as real <= principal as real * ratio < (cap.value + 1) as real
  {
    if principal < 0 || !(0.0 <= ratio <= 1.0) then None
    else
      CapRange(principal, ratio);
      Some((principal as real * ratio).Floor)
  }

  lemma CapRange(principal: int, ratio: real)
    requires principal >= 0 && 0.0 <= ratio <= 1.0
    ensures 0.0 <= principal as real * ratio <= principal as real
  {
  }

  /** What the client reports when called: it confirms, refuses, or an exception escapes it. */
  datatype Report = Confirms | Refuses(reason: string) | Raises

  /** A request with its surroundings: the enabling flag, the availability test, what the client
      reports, and whether money moves when it is called. The last two are independent: a
      payment whose answer is lost or unreadable is reported as a refusal or raises. */
  datatype Request = Request(call: string, amount: int, dryRun: bool, enabled: bool, clientOk: bool, report: Report,
                             moved: bool)

  /** The row to record, None when an exception escapes, and whether money moved. */
  datatype Result = Result(row: Option<Row>, paid: bool)

  /** The checks that come before the client is called. */
  predicate Reaches(q: Request, principal: int, ratio: real, spent: int) {
    q.call in CALLS && q.amount > 0 && SpendCap(principal, ratio).Some? &&
    q.amount <= Max(0, SpendCap(principal, ratio).value - Max(0, spent)) && !q.dryRun && q.enabled
  }

  /** `attempt_spend`. When the client is unavailable it is called all the same, for the words
      of its refusal; an answer that is no refusal has none. */
  function Attempt(q: Request, principal: int, ratio: real, spent: int): (r: Result)
    ensures r.row.Some? && r.row.value.Spend? ==>
      Reaches(q, principal, ratio, spent) && q.clientOk && q.report == Confirms &&
      0 < q.amount <= SpendCap(principal, ratio).value - Max(0, spent) && r.row.value == Spend(q.call, q.amount)
  {
    if q.call !in CALLS then Result(Some(Blocked(q.call, q.amount, "unknown_call")), false)
    else if q.amount <= 0 then Result(Some(Blocked(q.call, q.amount, "invalid_amount")), false)
    else
      match SpendCap(principal, ratio)
      case None => Result(None, false)
      case Some(cap) =>
        if q.amount > Max(0, cap - Max(0, spent)) then Result(Some(Blocked(q.call, q.amount, "cap_exceeded")), false)
        else if q.dryRun then Result(Some(DryRun(q.call, q.amount)), false)
        else if !q.enabled then Result(Some(Blocked(q.call, q.amount, "disabled")), false)
        else
          match q.report
          case Raises => Result(None, q.moved)
          case Refuses(reason) =>
            Result(Some(Blocked(q.call, q.amount, if q.clientOk then reason else "client_unavailable")), q.moved)
          case Confirms => Result(if q.clientOk then Some(Spend(q.call, q.amount)) else None, q.moved)
  }

  /** What each refusal means, in the order of the checks: none of them reaches the client or moves
      money before the last three. */
  lemma RefusalsExactly(q: Request, principal: int, ratio: real, spent: int)
    ensures var r := Attempt(q, principal, ratio, spent);
      var known := q.call == "agent_transfer" || q.call == "open_channel" || q.call == "top_up_escrow" || q.call == "force_open" ||
                   q.call == "compute_completion";
      var inDomain := principal >= 0 && 0.0 <= ratio <= 1.0;
      var left := (principal as real * ratio).Floor - (if spent > 0 then spent else 0);
      (!known ==> r == Result(Some(Blocked(q.call, q.amount, "unknown_call")), false)) &&
      (known && q.amount < 1 ==> r == Result(Some(Blocked(q.call, q.amount, "invalid_amount")), false)) &&
      (known && q.amount >= 1 && !inDomain ==> r == Result(None, false)) &&
      (known && q.amount >= 1 && inDomain && q.amount > left ==> r == Result(Some(Blocked(q.call, q.amount, "cap_exceeded")), false)) &&
      (Affordable(q, known, inDomain, left) ==>
        (q.dryRun ==> r == Result(Some(DryRun(q.call, q.amount)), false)) &&
        (!q.dryRun && !q.enabled ==> r == Result(Some(Blocked(q.call, q.amount, "disabled")), false)) &&
        (!q.dryRun && q.enabled ==> r.paid == q.moved) &&
        (!q.dryRun && q.enabled && q.report.Raises? ==> r.row == None) &&
        (!q.dryRun && q.enabled && q.report.Confirms? ==> r.row == if q.clientOk then Some(Spend(q.call, q.amount)) else None) &&
        (!q.dryRun && q.enabled && q.report.Refuses? ==>
          r.row == Some(Blocked(q.call, q.amount, if q.clientOk then q.report.reason else "client_unavailable"))))
  {
  }

  predicate Affordable(q: Request, known: bool, inDomain: bool, left: int) {
    known && inDomain && 1 <= q.amount <= left
  }

  // ----- the roll-up

  datatype Summary = Summary(rows: nat, spent: int, spentByCall: map<string, int>, blockedByReason: map<string, int>,
                             dryRuns: nat, credited: int, unlocked: int, pending: nat)

  const NOTHING := Summary(0, 0, map[], map[], 0, 0, 0, 0)

  function Get(m: map<string, int>, k: string): int {
    if k in m then m[k] else 0
  }

  function Bump(m: map<string, int>, k: string, n: int): map<string, int> {
    m[k := Get(m, k) + n]
  }

  predicate Credited(row: Row) {
    row.Settlement? && row.final && row.closed && !row.upheld
  }

  /** One row more; a credited settlement with a negative locked part raises. */
  function Tally(s: Summary, row: Row): Option<Summary> {
    var t := s.(rows := s.rows + 1);
    match row
    case Spend(call, amount) => Some(t.(spent := t.spent + amount, spentByCall := Bump(t.spentByCall, call, amount)))
    case Blocked(_, _, reason) => Some(t.(blockedByReason := Bump(t.blockedByReason, reason, 1)))
    case DryRun(_, _) => Some(t.(dryRuns := t.dryRuns + 1))
    case Settlement(_, _, _, kLocked) =>
      if !Credited(row) then Some(t.(pending := t.pending + 1))
      else if kLocked < 0 then None
      else Some(t.(credited := t.credited + kLocked, unlocked := t.unlocked + kLocked / 3))
    case Other => Some(t)
  }

  function SummaryOf(rows: seq<Row>): Option<Summary> {
    if rows == [] then Some(NOTHING)
    else
      match SummaryOf(rows[..|rows| - 1])
      case None => None
      case Some(s) => Tally(s, rows[|rows| - 1])
  }

  function Joined(a: map<string, int>, b: map<string, int>): map<string, int> {
    map k | k in a.Keys + b.Keys :: Get(a, k) + Get(b, k)
  }

  function Merge(a: Summary, b: Summary): Summary {
    Summary(a.rows + b.rows, a.spent + b.spent, Joined(a.spentByCall, b.spentByCall),
            Joined(a.blockedByReason, b.blockedByReason), a.dryRuns + b.dryRuns, a.credited + b.credited,
            a.unlocked + b.unlocked, a.pending + b.pending)
  }

  lemma JoinedBump(a: map<string, int>, b: map<string, int>, k: string, n: int)
    ensures Joined(a, Bump(b, k, n)) == Bump(Joined(a, b), k, n)
  {
  }

  lemma JoinedNothing(a: map<string, int>)
    ensures Joined(a, map[]) == a
  {
  }

  lemma MergeTally(a: Summary, b: Summary, row: Row)
    ensures Tally(Merge(a, b), row) ==
            (match Tally(b, row) case None => None case Some(c) => Some(Merge(a, c)))
  {
    match row
    case Spend(call, amount) => JoinedBump(a.spentByCall, b.spentByCall, call, amount);
    case Blocked(_, _, reason) => JoinedBump(a.blockedByReason, b.blockedByReason, reason, 1);
    case _ =>
  }

  /** Summarizing two ledgers end to end is merging their summaries. */
  lemma {:induction false} SummaryConcat(a: seq<Row>, b: seq<Row>)
    ensures SummaryOf(a + b) ==
            if SummaryOf(a) == None || SummaryOf(b) == None then None
            else Some(Merge(SummaryOf(a).value, SummaryOf(b).value))
  {
    hide Merge, Tally;
    if b == [] {
      assert a + b == a;
      if SummaryOf(a).Some? {
        MergeNothing(SummaryOf(a).value);
      }
    } else {
      var n := |b| - 1;
      assert (a + b)[..|a + b| - 1] == a + b[..n];
      SummaryConcat(a, b[..n]);
      if SummaryOf(a).Some? && SummaryOf(b[..n]).Some? {
        MergeTally(SummaryOf(a).value, SummaryOf(b[..n]).value, b[n]);
      }
    }
  }

  lemma MergeNothing(a: Summary)
    ensures Merge(a, NOTHING) == a
  {
    JoinedNothing(a.spentByCall);
    JoinedNothing(a.blockedByReason);
  }

  function Count(rows: seq<Row>, which: Row -> bool): nat {
    if rows == [] then 0 else Count(rows[..|rows| - 1], which) + (if which(rows[|rows| - 1]) then 1 else 0)
  }

  function Spent(rows: seq<Row>): int {
    if rows == [] then 0
    else
      var row := rows[|rows| - 1];
      Spent(rows[..|rows| - 1]) + (if row.Spend? then row.amount else 0)
  }

  /** Three locked FLOP unlock one, with less than one lost to rounding at each settlement. */
  lemma {:induction false} CreditBound(rows: seq<Row>)
    requires SummaryOf(rows).Some?
    ensures var s := SummaryOf(rows).value;
      3 * s.unlocked <= s.credited <= 3 * s.unlocked + 2 * Count(rows, Credited)
  {
    if rows != [] {
      CreditBound(rows[..|rows| - 1]);
    }
  }

  // ----- the roll-up is a sum over the rows

  function Sum(rows: seq<Row>, part: Row -> int): int {
    if rows == [] then 0 else Sum(rows[..|rows| - 1], part) + part(rows[|rows| - 1])
  }

  /** A final settlement, its dispute window closed and no dispute upheld, with a negative locked part. */
  predicate Spoils(row: Row) {
    row.Settlement? && row.final && row.closed && !row.upheld && row.kLocked < 0
  }

  ghost function AmountUnder(call: string): Row -> int {
    (r: Row) => if r.Spend? && r.call == call then r.amount else 0
  }

  ghost function RefusedFor(reason: string): Row -> int {
    (r: Row) => if r.Blocked? && r.reason == reason then 1 else 0
  }

  const LOCKED_PART: Row -> int := (r: Row) => if r.Settlement? && r.final && r.closed && !r.upheld then r.kLocked else 0
  const UNLOCKED_PART: Row -> int := (r: Row) => if r.Settlement? && r.final && r.closed && !r.upheld then r.kLocked / 3 else 0
  const IS_PENDING: Row -> int := (r: Row) => if r.Settlement? && !(r.final && r.closed && !r.upheld) then 1 else 0
  const IS_DRY: Row -> int := (r: Row) => if r.DryRun? then 1 else 0

  lemma TallyAdds(s: Summary, row: Row, call: string, reason: string)
    ensures Tally(s, row) == None <==> Spoils(row)
    ensures Tally(s, row).Some? ==>
      var t := Tally(s, row).value;
      Get(t.spentByCall, call) == Get(s.spentByCall, call) + AmountUnder(call)(row) &&
      Get(t.blockedByReason, reason) == Get(s.blockedByReason, reason) + RefusedFor(reason)(row) &&
      t.credited == s.credited + LOCKED_PART(row) && t.unlocked == s.unlocked + UNLOCKED_PART(row) &&
      t.pending == s.pending + IS_PENDING(row) && t.dryRuns == s.dryRuns + IS_DRY(row)
  {
  }

  lemma SpoiledMore(rows: seq<Row>)
    requires rows != []
    ensures var n := |rows| - 1;
      (exists i :: 0 <= i < |rows| && Spoils(rows[i])) <==> (exists i :: 0 <= i < n && Spoils(rows[..n][i])) || Spoils(rows[n])
  {
    hide Spoils;
    var n := |rows| - 1;
    if i :| 0 <= i < |rows| && Spoils(rows[i]) {
      assert i < n ==> rows[..n][i] == rows[i];
    }
    if i :| 0 <= i < n && Spoils(rows[..n][i]) {
      assert rows[i] == rows[..n][i];
    }
  }

  /** The roll-up exists unless some row spoils it, and each of its entries is a sum over the rows. */
  lemma {:induction false} SummaryExactly(rows: seq<Row>, call: string, reason: string)
    ensures SummaryOf(rows) == None <==> exists i :: 0 <= i < |rows| && Spoils(rows[i])
    ensures SummaryOf(rows).Some? ==>
      var s := SummaryOf(rows).value;
      Get(s.spentByCall, call) == Sum(rows, AmountUnder(call)) && Get(s.blockedByReason, reason) == Sum(rows, RefusedFor(reason)) &&
      s.credited == Sum(rows, LOCKED_PART) && s.unlocked == Sum(rows, UNLOCKED_PART) &&
      s.pending == Sum(rows, IS_PENDING) && s.dryRuns == Sum(rows, IS_DRY)
  {
    hide Tally, Spoils, AmountUnder, RefusedFor, LOCKED_PART, UNLOCKED_PART, IS_PENDING, IS_DRY;
    if rows != [] {
      var n := |rows| - 1;
      SummaryExactly(rows[..n], call, reason);
      SpoiledMore(rows);
      if SummaryOf(rows[..n]).Some? {
        TallyAdds(SummaryOf(rows[..n]).value, rows[n], call, reason);
      }
    }
  }

  // ----- the two breakdowns add up

  ghost function SumOf(m: map<string, int>): int
    decreases |m|
  {
    if m == map[] then 0
    else
      var k := Pick(m.Keys);
      m[k] + SumOf(m - {k})
  }

  lemma {:induction false} SumWithout(m: map<string, int>, k: string)
    requires k in m
    ensures SumOf(m) == m[k] + SumOf(m - {k})
    decreases |m|
  {
    var p := Pick(m.Keys);
    if p != k {
      var a, b := m - {p}, m - {k};
      SumWithout(a, k);
      SumWithout(b, p);
      assert a - {k} == b - {p};
    }
  }

  lemma SumBump(m: map<string, int>, k: string, n: int)
    ensures SumOf(Bump(m, k, n)) == SumOf(m) + n
  {
    var after := Bump(m, k, n);
    SumWithout(after, k);
    if k in m {
      SumWithout(m, k);
      assert after - {k} == m - {k};
    } else {
      assert after - {k} == m;
    }
  }

  lemma {:induction false} BreakdownsAdd(rows: seq<Row>)
    requires SummaryOf(rows).Some?
    ensures var s := SummaryOf(rows).value;
      s.spent == Spent(rows) == SumOf(s.spentByCall) &&
      SumOf(s.blockedByReason) == Count(rows, (r: Row) => r.Blocked?) &&
      s.rows == |rows|
  {
    hide SumOf, Bump;
    if rows == [] {
      SumNothing();
    } else {
      var n := |rows| - 1;
      BreakdownsAdd(rows[..n]);
      var s := SummaryOf(rows[..n]).value;
      match rows[n]
      case Spend(call, amount) => SumBump(s.spentByCall, call, amount);
      case Blocked(_, _, reason) => SumBump(s.blockedByReason, reason, 1);
      case _ =>
    }
  }

  lemma SumNothing()
    ensures SumOf(map[]) == 0
  {
  }

  method SumValues(m: map<string, int>) returns (total: int)
    ensures total == SumOf(m)
  {
    total := 0;
    var rest := m;
    while rest != map[]
      invariant total + SumOf(rest) == SumOf(m)
      decreases |rest|
    {
      NonEmpty(rest.Keys);
      var k :| k in rest.Keys;
      SumWithout(rest, k);
      total := total + rest[k];
      rest := rest - {k};
    }
  }

  method Summarize(rows: seq<Row>) returns (s: Option<Summary>, blockedTotal: int)
    ensures s == SummaryOf(rows)
    ensures s.Some? ==> blockedTotal == Count(rows, (r: Row) => r.Blocked?)
  {
    hide Tally;
    blockedTotal := 0;
    var t, i := NOTHING, 0;
    while i < |rows|
      invariant 0 <= i <= |rows|
      invariant SummaryOf(rows[..i]) == Some(t)
    {
      assert rows[..i + 1][..i] == rows[..i];
      var next := Tally(t, rows[i]);
      if next == None {
        SummaryStops(rows, i + 1);
        return None, 0;
      }
      t := next.value;
      i := i + 1;
    }
    assert rows[..i] == rows;
    BreakdownsAdd(rows);
    blockedTotal := SumValues(t.blockedByReason);
    s := Some(t);
  }

  lemma SummaryStops(rows: seq<Row>, i: nat)
    requires i <= |rows| && SummaryOf(rows[..i]) == None
    ensures SummaryOf(rows) == None
  {
    SummaryConcat(rows[..i], rows[i..]);
    assert rows[..i] + rows[i..] == rows;
  }

  // ----- the cap over any sequence of attempts

  /** One process after another: each reads the ledger, attempts, and records what it got. */
  function After(rows: seq<Row>, requests: seq<Request>, principal: int, ratio: real): seq<Row> {
    if requests == [] then rows
    else
      var n := |requests| - 1;
      var before := After(rows, requests[..n], principal, ratio);
      match SummaryOf(before)
      case None => before
      case Some(s) =>
        match Attempt(requests[n], principal, ratio, s.spent).row
        case None => before
        case Some(row) => before + [row]
  }

  lemma SpentMore(rows: seq<Row>, row: Row)
    ensures Spent(rows + [row]) == Spent(rows) + (if row.Spend? then row.amount else 0)
  {
    assert (rows + [row])[..|rows|] == rows;
  }

  /** Spending never rises above the cap, unless it stood above it already, and history is kept. */
  lemma {:induction false} CapKept(rows: seq<Row>, requests: seq<Request>, principal: int, ratio: real, cap: int)
    requires SpendCap(principal, ratio) == Some(cap)
    ensures rows <= After(rows, requests, principal, ratio)
    ensures Spent(rows) <= Spent(After(rows, requests, principal, ratio)) <= Max(Spent(rows), cap)
  {
    hide Attempt, SummaryOf, SpendCap, Spent;
    if requests != [] {
      var n := |requests| - 1;
      CapKept(rows, requests[..n], principal, ratio, cap);
      var before := After(rows, requests[..n], principal, ratio);
      if SummaryOf(before).Some? {
        var spent := SummaryOf(before).value.spent;
        BreakdownsAdd(before);
        var r := Attempt(requests[n], principal, ratio, spent).row;
        if r.Some? {
          SpentMore(before, r.value);
        }
      }
    }
  }

  // ----- attempts that overlap

  /** The rows of attempts that were all judged on the same reading of the ledger. */
  function Recorded(requests: seq<Request>, principal: int, ratio: real, spent: int): seq<Row> {
    if requests == [] then []
    else
      var n := |requests| - 1;
      var before := Recorded(requests[..n], principal, ratio, spent);
      match Attempt(requests[n], principal, ratio, spent).row
      case None => before
      case Some(row) => before + [row]
  }

  /** The request passes every check, and the available client confirms it. */
  predicate Spends(q: Request, principal: int, ratio: real, spent: int) {
    Reaches(q, principal, ratio, spent) && q.clientOk && q.report == Confirms
  }

  predicate NoneSpends(requests: seq<Request>, principal: int, ratio: real, spent: int) {
    forall i :: 0 <= i < |requests| ==> !Spends(requests[i], principal, ratio, spent)
  }

  /** What the requests that spend ask for, together. */
  function Asked(requests: seq<Request>, principal: int, ratio: real, spent: int): int {
    if requests == [] then 0
    else
      var n := |requests| - 1;
      Asked(requests[..n], principal, ratio, spent) +
      (if Spends(requests[n], principal, ratio, spent) then requests[n].amount else 0)
  }

  lemma {:induction false} SpentConcat(a: seq<Row>, b: seq<Row>)
    ensures Spent(a + b) == Spent(a) + Spent(b)
  {
    if b == [] {
      assert a + b == a;
    } else {
      var n := |b| - 1;
      assert (a + b)[..|a + b| - 1] == a + b[..n];
      SpentConcat(a, b[..n]);
    }
  }

  lemma SpendsRecorded(q: Request, principal: int, ratio: real, spent: int)
    ensures var row := Attempt(q, principal, ratio, spent).row;
      (row.Some? && row.value.Spend? <==> Spends(q, principal, ratio, spent)) &&
      (Spends(q, principal, ratio, spent) ==> row.value.amount == q.amount > 0 && q.amount <= SpendCap(principal, ratio).value - Max(0, spent))
  {
  }

  lemma {:induction false} RecordedSpends(requests: seq<Request>, principal: int, ratio: real, spent: int)
    ensures Spent(Recorded(requests, principal, ratio, spent)) == Asked(requests, principal, ratio, spent)
    decreases |requests|
  {
    hide Attempt, Spends, Spent;
    if requests == [] {
      SpentNothing();
    } else {
      var n := |requests| - 1;
      RecordedSpends(requests[..n], principal, ratio, spent);
      SpendsRecorded(requests[n], principal, ratio, spent);
      var row := Attempt(requests[n], principal, ratio, spent).row;
      if row.Some? {
        SpentMore(Recorded(requests[..n], principal, ratio, spent), row.value);
      }
    }
  }

  lemma SpentNothing()
    ensures Spent([]) == 0
  {
  }

  /** Something is asked for exactly when some request spends, which needs room under the cap. */
  lemma {:induction false} AskedPositive(requests: seq<Request>, principal: int, ratio: real, spent: int)
    ensures Asked(requests, principal, ratio, spent) >= 0
    ensures Asked(requests, principal, ratio, spent) == 0 <==> NoneSpends(requests, principal, ratio, spent)
    ensures SpendCap(principal, ratio).Some? && !NoneSpends(requests, principal, ratio, spent) ==>
      SpendCap(principal, ratio).value > Max(0, spent)
    decreases |requests|
  {
    hide Attempt, Spends;
    if requests != [] {
      var n := |requests| - 1;
      AskedPositive(requests[..n], principal, ratio, spent);
      SpendsRecorded(requests[n], principal, ratio, spent);
      assert NoneSpends(requests, principal, ratio, spent) <==>
             NoneSpends(requests[..n], principal, ratio, spent) && !Spends(requests[n], principal, ratio, spent);
    }
  }

  /** Attempts that all read the ledger before any of them records keep the cap exactly when the
      requests that spend together ask for no more than the reading left, or none of them spends. */
  lemma SameReading(rows: seq<Row>, requests: seq<Request>, principal: int, ratio: real, cap: int)
    requires SpendCap(principal, ratio) == Some(cap)
    ensures var spent := Spent(rows);
      Spent(rows + Recorded(requests, principal, ratio, spent)) <= Max(spent, cap) <==>
      Asked(requests, principal, ratio, spent) <= cap - spent || NoneSpends(requests, principal, ratio, spent)
  {
    hide Spent, Asked, NoneSpends, Recorded;
    RecordedSpends(requests, principal, ratio, Spent(rows));
    AskedPositive(requests, principal, ratio, Spent(rows));
    SpentConcat(rows, Recorded(requests, principal, ratio, Spent(rows)));
  }

  /** The failing input: two purchases of 60 against a cap of 75, both judged on an empty ledger. */
  lemma StaleReadPasses()
    ensures var q := Request("open_channel", 60, false, true, true, Confirms, true);
      SpendCap(100, 0.75) == Some(75) && Spent(Recorded([q, q], 100, 0.75, 0)) == 120
  {
    var q := Request("open_channel", 60, false, true, true, Confirms, true);
    var s := Spend("open_channel", 60);
    assert Attempt(q, 100, 0.75, 0).row == Some(s);
    assert [q, q][..1] == [q] && [q][..0] == [];
    assert Recorded([q], 100, 0.75, 0) == [s];
    assert Recorded([q, q], 100, 0.75, 0) == [s, s];
    assert [s, s][..1] == [s] && [s][..0] == [];
    assert Spent([s]) == 60;
  }

  // ----- the ledger and the money

  /** Over a sequence of attempts: money that moved, money that moved unrecorded, and spends
      recorded although nothing moved. */
  datatype Money = Money(moved: int, silent: int, phantom: int)

  function MoneyOver(rows: seq<Row>, requests: seq<Request>, principal: int, ratio: real): Money {
    if requests == [] then Money(0, 0, 0)
    else
      var n := |requests| - 1;
      var m := MoneyOver(rows, requests[..n], principal, ratio);
      match SummaryOf(After(rows, requests[..n], principal, ratio))
      case None => m
      case Some(s) =>
        var r := Attempt(requests[n], principal, ratio, s.spent);
        var spend := r.row.Some? && r.row.value.Spend?;
        Money(m.moved + (if r.paid then requests[n].amount else 0),
              m.silent + (if r.paid && !spend then requests[n].amount else 0),
              m.phantom + (if !r.paid && spend then requests[n].amount else 0))
  }

  /** The ledger's spending and the money that moved differ by exactly these two. */
  lemma {:induction false} MoneyBalances(rows: seq<Row>, requests: seq<Request>, principal: int, ratio: real)
    ensures var m := MoneyOver(rows, requests, principal, ratio);
      Spent(After(rows, requests, principal, ratio)) - Spent(rows) + m.silent == m.moved + m.phantom
  {
    hide Attempt, SummaryOf, Spent;
    if requests != [] {
      var n := |requests| - 1;
      MoneyBalances(rows, requests[..n], principal, ratio);
      var before := After(rows, requests[..n], principal, ratio);
      if SummaryOf(before).Some? {
        var r := Attempt(requests[n], principal, ratio, SummaryOf(before).value.spent).row;
        if r.Some? {
          SpentMore(before, r.value);
        }
      }
    }
  }

  /** The client's report and the availability test together agree with the money. */
  predicate Honest(q: Request) {
    q.moved <==> q.clientOk && q.report == Confirms
  }

  /** A call that reaches the client is recorded as a spend exactly when the client had been found
      available and confirms; so the row tells the truth about the money exactly when the call
      does not get that far or those two agree with whether money moved. */
  lemma PaymentRecorded(q: Request, principal: int, ratio: real, spent: int)
    ensures var r := Attempt(q, principal, ratio, spent);
      var spend := r.row == Some(Spend(q.call, q.amount));
      (r.paid ==> (spend <==> q.clientOk && q.report == Confirms)) &&
      ((spend <==> r.paid) <==> !Reaches(q, principal, ratio, spent) || Honest(q))
  {
  }

  /** Inputs on which money moves unrecorded: the answer is lost after the payment, the answer
      cannot be read, and a client found unavailable pays all the same. */
  lemma HiddenPayments()
    ensures var lost := Request("compute_completion", 5, false, true, true, Refuses("transport_error"), true);
      var unreadable := lost.(report := Raises);
      var unseen := lost.(clientOk := false, report := Confirms);
      Attempt(lost, 100, 0.75, 0) == Result(Some(Blocked("compute_completion", 5, "transport_error")), true) &&
      Attempt(unreadable, 100, 0.75, 0) == Result(None, true) && Attempt(unseen, 100, 0.75, 0) == Result(None, true)
  {
    assert SpendCap(100, 0.75) == Some(75);
  }

  /** Every attempt that reaches the client at its turn is honest. */
  predicate HonestTurns(rows: seq<Row>, requests: seq<Request>, principal: int, ratio: real) {
    requests == [] ||
    var n := |requests| - 1;
    HonestTurns(rows, requests[..n], principal, ratio) &&
    match SummaryOf(After(rows, requests[..n], principal, ratio))
    case None => true
    case Some(s) => Reaches(requests[n], principal, ratio, s.spent) ==> Honest(requests[n])
  }

  /** Over any sequence of attempts nothing moves unrecorded and nothing is recorded that did not
      move exactly when every attempt that reaches the client is honest. Then the ledger records
      exactly the money that moved, and the money keeps the cap. */
  lemma HonestLedger(rows: seq<Row>, requests: seq<Request>, principal: int, ratio: real, cap: int)
    requires SpendCap(principal, ratio) == Some(cap)
    ensures var m := MoneyOver(rows, requests, principal, ratio);
      (m.silent == 0 && m.phantom == 0 <==> HonestTurns(rows, requests, principal, ratio)) &&
      (HonestTurns(rows, requests, principal, ratio) ==>
        Spent(After(rows, requests, principal, ratio)) == Spent(rows) + m.moved <= Max(Spent(rows), cap))
  {
    MoneyBalances(rows, requests, principal, ratio);
    CapKept(rows, requests, principal, ratio, cap);
    NothingHidden(rows, requests, principal, ratio);
  }

  lemma {:induction false} NothingHidden(rows: seq<Row>, requests: seq<Request>, principal: int, ratio: real)
    ensures var m := MoneyOver(rows, requests, principal, ratio);
      m.silent >= 0 && m.phantom >= 0 &&
      (m.silent == 0 && m.phantom == 0 <==> HonestTurns(rows, requests, principal, ratio))
    decreases |requests|
  {
    hide Attempt, SummaryOf, Reaches, Honest;
    if requests != [] {
      var n := |requests| - 1;
      NothingHidden(rows, requests[..n], principal, ratio);
      var before := After(rows, requests[..n], principal, ratio);
      if SummaryOf(before).Some? {
        HonestRow(requests[n], principal, ratio, SummaryOf(before).value.spent);
      }
    }
  }

  lemma HonestRow(q: Request, principal: int, ratio: real, spent: int)
    ensures var r := Attempt(q, principal, ratio, spent);
      var spend := r.row.Some? && r.row.value.Spend?;
      ((r.paid <==> spend) <==> Reaches(q, principal, ratio, spent) ==> Honest(q)) &&
      (r.paid || spend ==> q.amount > 0)
  {
  }

  function Repeated(q: Request, n: nat): seq<Request> {
    if n == 0 then [] else Repeated(q, n - 1) + [q]
  }

  /** Without that nothing bounds the money: a payment whose answer is always lost can be repeated
      any number of times, and the ledger never counts it against the cap. */
  lemma {:induction false} LostAnswersUnbounded(rows: seq<Row>, q: Request, principal: int, ratio: real, n: nat)
    requires SummaryOf(rows).Some? && Reaches(q, principal, ratio, Spent(rows)) && q.moved && q.report.Refuses?
    ensures var rows' := After(rows, Repeated(q, n), principal, ratio);
      Spent(rows') == Spent(rows) && SummaryOf(rows').Some? &&
      MoneyOver(rows, Repeated(q, n), principal, ratio).moved == n * q.amount
  {
    hide Attempt, SummaryOf, Spent, Reaches, After, MoneyOver;
    NothingAttempted(rows, principal, ratio);
    if n > 0 {
      LostAnswersUnbounded(rows, q, principal, ratio, n - 1);
      LostRow(q, principal, ratio, Spent(rows));
      assert Repeated(q, n)[..|Repeated(q, n)| - 1] == Repeated(q, n - 1);
      OneMoreLost(rows, Repeated(q, n), q, principal, ratio);
      OneMoreTimes(n - 1, q.amount);
    }
  }

  lemma NothingAttempted(rows: seq<Row>, principal: int, ratio: real)
    ensures After(rows, [], principal, ratio) == rows && MoneyOver(rows, [], principal, ratio) == Money(0, 0, 0)
  {
  }

  lemma OneMoreTimes(n: int, a: int)
    ensures n * a + a == (n + 1) * a
  {
  }

  lemma {:induction false} OneMoreLost(rows: seq<Row>, requests: seq<Request>, q: Request, principal: int, ratio: real)
    requires requests != [] && requests[|requests| - 1] == q
    requires var r := Attempt(q, principal, ratio, Spent(rows)); r.paid && r.row.Some? && r.row.value.Blocked?
    requires var before := After(rows, requests[..|requests| - 1], principal, ratio);
      SummaryOf(before).Some? && Spent(before) == Spent(rows)
    ensures Spent(After(rows, requests, principal, ratio)) == Spent(rows)
    ensures SummaryOf(After(rows, requests, principal, ratio)).Some?
    ensures MoneyOver(rows, requests, principal, ratio).moved ==
            MoneyOver(rows, requests[..|requests| - 1], principal, ratio).moved + q.amount
  {
    hide Attempt, SummaryOf, Spent, Reaches;
    var before := After(rows, requests[..|requests| - 1], principal, ratio);
    BreakdownsAdd(before);
    assert SummaryOf(before).value.spent == Spent(rows);
    var row := Attempt(q, principal, ratio, Spent(rows)).row.value;
    SpentMore(before, row);
    BlockedSummary(before, row);
  }

  lemma LostRow(q: Request, principal: int, ratio: real, spent: int)
    requires Reaches(q, principal, ratio, spent) && q.moved && q.report.Refuses?
    ensures var r := Attempt(q, principal, ratio, spent); r.paid && r.row.Some? && r.row.value.Blocked?
  {
  }

  lemma BlockedSummary(rows: seq<Row>, row: Row)
    requires SummaryOf(rows).Some? && row.Blocked?
    ensures SummaryOf(rows + [row]).Some?
  {
    assert (rows + [row])[..|rows|] == rows;
  }

  class Book {
    var rows: seq<Row>

    method Record(row: Row)
      modifies this
      ensures rows == old(rows) + [row]
    {
      rows := rows + [row];
    }

    /** The `--loop` body: buy until the count is reached or a row is not a spend. The running
        total stays the ledger's, and the cap holds at every turn. */
    method BuyRepeatedly(count: nat, amount: int, principal: int, ratio: real, requests: seq<Request>)
      returns (attempts: nat, spent: int, stopped: Option<Row>, raised: bool)
      requires |requests| >= count
      requires forall i :: 0 <= i < count ==> requests[i].call == "compute_completion" && requests[i].amount == amount
      requires SummaryOf(rows).Some?
      modifies this
      ensures attempts <= count && old(rows) <= rows
      ensures |rows| == |old(rows)| + attempts - (if raised then 1 else 0)
      ensures spent == Spent(rows)
      ensures SpendCap(principal, ratio).Some? ==> Spent(rows) <= Max(Spent(old(rows)), SpendCap(principal, ratio).value)
      ensures !raised && stopped == None ==>
        attempts == count && Spent(rows) == Spent(old(rows)) + count * amount
      ensures stopped.Some? ==> !stopped.value.Spend? && !raised && rows != [] && rows[|rows| - 1] == stopped.value
    {
      hide Attempt, SummaryOf, SpendCap, Spent;
      var summary, _ := Summarize(rows);
      BreakdownsAdd(rows);
      spent := summary.value.spent;
      attempts, stopped, raised := 0, None, false;
      while attempts < count
        invariant attempts <= count && old(rows) <= rows
        invariant |rows| == |old(rows)| + attempts
        invariant spent == Spent(rows) == Spent(old(rows)) + attempts * amount
        invariant SpendCap(principal, ratio).Some? ==>
          Spent(rows) <= Max(Spent(old(rows)), SpendCap(principal, ratio).value)
      {
        var r := Attempt(requests[attempts], principal, ratio, spent);
        attempts := attempts + 1;
        if r.row == None {
          raised := true;
          return;
        }
        SpentMore(rows, r.row.value);
        Record(r.row.value);
        if r.row.value.Spend? {
          spent := spent + amount;
        } else {
          stopped := r.row;
          return;
        }
      }
    }
  }
}
