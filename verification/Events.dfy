/** The run-event log and the readers that stream it. Appends are serialized by an advisory
    lock, global numbers come from an identity counter that rollbacks do not rewind. */
module Events {
  import opened Text
  import opened Windows

  datatype Event = Event(run: nat, number: nat, global: nat, kind: string)

  // ----- the event table

  function CountOf(rows: seq<Event>, run: nat): nat {
    if rows == [] then 0
    else CountOf(rows[..|rows| - 1], run) + (if rows[|rows| - 1].run == run then 1 else 0)
  }

  /** `coalesce(max(seq), -1) + 1` over the rows of a run. */
  function NextNumber(rows: seq<Event>, run: nat): nat {
    if rows == [] then 0
    else
      var e, m := rows[|rows| - 1], NextNumber(rows[..|rows| - 1], run);
      if e.run == run && e.number >= m then e.number + 1 else m
  }

  /** Every row carries the number of earlier rows of its run. */
  ghost predicate Numbered(rows: seq<Event>) {
    forall i :: 0 <= i < |rows| ==> rows[i].number == CountOf(rows[..i], rows[i].run)
  }

  ghost predicate Rising(rows: seq<Event>) {
    forall i, j :: 0 <= i < j < |rows| ==> rows[i].global < rows[j].global
  }

  ghost predicate Below(rows: seq<Event>, bound: nat) {
    forall i :: 0 <= i < |rows| ==> rows[i].global < bound
  }

  lemma {:induction false} NumberedInit(rows: seq<Event>)
    requires Numbered(rows) && rows != []
    ensures Numbered(rows[..|rows| - 1])
  {
    var init := rows[..|rows| - 1];
    forall i | 0 <= i < |init| ensures init[i].number == CountOf(init[..i], init[i].run) {
      assert init[..i] == rows[..i];
    }
  }

  lemma {:induction false} NextIsCount(rows: seq<Event>, run: nat)
    requires Numbered(rows)
    ensures NextNumber(rows, run) == CountOf(rows, run)
  {
    if rows != [] {
      NumberedInit(rows);
      NextIsCount(rows[..|rows| - 1], run);
    }
  }

  lemma NumberedExtend(rows: seq<Event>, e: Event)
    requires Numbered(rows) && e.number == CountOf(rows, e.run)
    ensures Numbered(rows + [e])
  {
    var longer := rows + [e];
    forall i | 0 <= i < |longer| ensures longer[i].number == CountOf(longer[..i], longer[i].run) {
      assert longer[..i] == if i < |rows| then rows[..i] else rows;
    }
  }

  lemma NumberedPrefix(rows: seq<Event>, more: seq<Event>)
    requires Numbered(rows + more)
    ensures Numbered(rows)
  {
    var all := rows + more;
    forall i | 0 <= i < |rows| ensures rows[i].number == CountOf(rows[..i], rows[i].run) {
      assert all[..i] == rows[..i] && all[i] == rows[i];
    }
  }

  /** The sequence numbers of one run, in commit order. */
  function NumbersOf(rows: seq<Event>, run: nat): seq<nat> {
    if rows == [] then []
    else NumbersOf(rows[..|rows| - 1], run) + (if rows[|rows| - 1].run == run then [rows[|rows| - 1].number] else [])
  }

  /** They are exactly 0, 1, 2, and so on: no gap and no repetition. */
  lemma {:induction false} NumbersDense(rows: seq<Event>, run: nat)
    requires Numbered(rows)
    ensures |NumbersOf(rows, run)| == CountOf(rows, run)
    ensures forall i :: 0 <= i < |NumbersOf(rows, run)| ==> NumbersOf(rows, run)[i] == i
  {
    if rows != [] {
      NumberedInit(rows);
      NumbersDense(rows[..|rows| - 1], run);
    }
  }

  // ----- what a reader asks for

  function After(rows: seq<Event>, c: nat): seq<Event> {
    if rows == [] then []
    else After(rows[..|rows| - 1], c) + (if rows[|rows| - 1].global > c then [rows[|rows| - 1]] else [])
  }

  /** The rows with lo < global_seq <= hi, in commit order. */
  function Between(rows: seq<Event>, lo: nat, hi: nat): seq<Event> {
    if rows == [] then []
    else Between(rows[..|rows| - 1], lo, hi) +
         (if lo < rows[|rows| - 1].global <= hi then [rows[|rows| - 1]] else [])
  }

  /** `ORDER BY global_seq`, as an insertion sort. */
  function Inserted(rows: seq<Event>, e: Event): seq<Event> {
    if rows == [] || rows[|rows| - 1].global <= e.global then rows + [e]
    else Inserted(rows[..|rows| - 1], e) + [rows[|rows| - 1]]
  }

  function Sorted(rows: seq<Event>): seq<Event> {
    if rows == [] then [] else Inserted(Sorted(rows[..|rows| - 1]), rows[|rows| - 1])
  }

  function Limited(rows: seq<Event>, n: nat): seq<Event> {
    if |rows| <= n then rows else rows[..n]
  }

  const BATCH := 50

  /** `_fetch_sse_events`. */
  function Fetch(rows: seq<Event>, c: nat): seq<Event> {
    Limited(Sorted(After(rows, c)), BATCH)
  }

  /** How many rows of an increasing log lie at or below a cursor. */
  function Past(rows: seq<Event>, c: nat): (k: nat)
    ensures k <= |rows|
  {
    if rows == [] then 0 else Past(rows[..|rows| - 1], c) + (if rows[|rows| - 1].global <= c then 1 else 0)
  }

  /** The three recursions, one row further. */
  lemma LastRow(rows: seq<Event>, lo: nat, hi: nat)
    requires rows != []
    ensures var n := |rows| - 1; var e := rows[n];
      After(rows, lo) == After(rows[..n], lo) + (if e.global > lo then [e] else []) &&
      Past(rows, lo) == Past(rows[..n], lo) + (if e.global <= lo then 1 else 0) &&
      Past(rows, hi) == Past(rows[..n], hi) + (if e.global <= hi then 1 else 0) &&
      Between(rows, lo, hi) == Between(rows[..n], lo, hi) + (if lo < e.global <= hi then [e] else [])
  {
  }

  lemma NoRows(lo: nat, hi: nat)
    ensures After([], lo) == [] && Past([], lo) == 0 && Past([], hi) == 0 && Between([], lo, hi) == []
  {
  }

  lemma RisingAt(rows: seq<Event>, i: nat, j: nat)
    requires Rising(rows) && i < j < |rows|
    ensures rows[i].global < rows[j].global
  {
  }

  lemma RisingSlice(rows: seq<Event>, i: nat, j: nat)
    requires Rising(rows) && i <= j <= |rows|
    ensures Rising(rows[i..j])
  {
    var s := rows[i..j];
    forall a, b | 0 <= a < b < |s| ensures s[a].global < s[b].global {
      RisingAt(rows, i + a, i + b);
    }
  }

  lemma {:induction false} PastDivides(rows: seq<Event>, c: nat)
    requires Rising(rows)
    ensures forall i :: 0 <= i < |rows| ==> (i < Past(rows, c) <==> rows[i].global <= c)
  {
    hide Rising, Past;
    if rows != [] {
      var n := |rows| - 1;
      var init := rows[..n];
      LastRow(rows, c, c);
      RisingSlice(rows, 0, n);
      PastDivides(init, c);
      if rows[n].global <= c && n > 0 {
        RisingAt(rows, n - 1, n);
        assert init[n - 1].global <= c;
      }
      forall i | 0 <= i < |rows| ensures i < Past(rows, c) <==> rows[i].global <= c {
        if i < n {
          assert init[i] == rows[i];
        }
      }
    }
  }

  lemma {:induction false} AfterIsTail(rows: seq<Event>, c: nat)
    requires Rising(rows)
    ensures After(rows, c) == rows[Past(rows, c)..]
  {
    hide Rising, After, Past;
    NoRows(c, c);
    if rows != [] {
      var n := |rows| - 1;
      var k := Past(rows[..n], c);
      LastRow(rows, c, c);
      RisingSlice(rows, 0, n);
      AfterIsTail(rows[..n], c);
      if rows[n].global > c {
        assert rows[..n][k..] + [rows[n]] == rows[k..];
      } else {
        PastDivides(rows, c);
        assert n < Past(rows, c);
      }
    } else {
      assert rows == [];
    }
  }

  lemma CutAt(rows: seq<Event>, c: nat)
    requires Rising(rows)
    ensures forall i :: 0 <= i < |rows| ==> (i < Past(rows, c) <==> rows[i].global <= c)
    ensures After(rows, c) == rows[Past(rows, c)..]
  {
    hide *;
    PastDivides(rows, c);
    AfterIsTail(rows, c);
  }

  lemma {:induction false} SortedAlready(rows: seq<Event>)
    requires Rising(rows)
    ensures Sorted(rows) == rows
  {
    hide Rising;
    if rows != [] {
      var n := |rows| - 1;
      RisingSlice(rows, 0, n);
      SortedAlready(rows[..n]);
      if n > 0 {
        RisingAt(rows, n - 1, n);
      }
      assert rows[..n] + [rows[n]] == rows;
    }
  }

  /** A poll of an increasing log returns the next rows after the cursor: fifty, or all of them. */
  lemma FetchIsNext(rows: seq<Event>, c: nat)
    requires Rising(rows)
    ensures Fetch(rows, c) == Limited(rows[Past(rows, c)..], BATCH)
    ensures var k := Past(rows, c); Fetch(rows, c) == if |rows| - k > 50 then rows[k..k + 50] else rows[k..]
  {
    hide Rising, Past, After, Sorted;
    CutAt(rows, c);
    RisingSlice(rows, Past(rows, c), |rows|);
    assert rows[Past(rows, c)..|rows|] == rows[Past(rows, c)..];
    SortedAlready(rows[Past(rows, c)..]);
  }

  function Last(rows: seq<Event>, start: nat): nat {
    if rows == [] then start else rows[|rows| - 1].global
  }

  /** What a reader with cursor c has been given when it started at start. */
  ghost predicate Covers(rows: seq<Event>, start: nat, given: seq<Event>) {
    Past(rows, start) + |given| <= |rows| && given == rows[Past(rows, start)..Past(rows, start) + |given|]
  }

  /** Appending to the log after the cursor's rows leaves them in place. */
  lemma {:induction false} PastExtend(rows: seq<Event>, more: seq<Event>, c: nat)
    requires Rising(rows + more)
    ensures Past(rows, c) <= Past(rows + more, c)
    ensures Past(rows, c) < |rows| ==> Past(rows + more, c) == Past(rows, c)
  {
    hide Rising;
    var all := rows + more;
    if more == [] {
      assert all == rows;
    } else {
      var n, m := |all| - 1, |rows|;
      assert all[..n] == rows + more[..|more| - 1];
      RisingSlice(all, 0, n);
      PastExtend(rows, more[..|more| - 1], c);
      if Past(rows, c) < m {
        assert all[..m] == rows;
        RisingSlice(all, 0, m);
        CutAt(rows, c);
        assert rows[m - 1].global > c;
        RisingAt(all, m - 1, n);
      }
    }
  }

  lemma {:induction false} BetweenIsPrefix(rows: seq<Event>, lo: nat, hi: nat)
    requires Rising(rows)
    ensures Between(rows, lo, hi) == After(rows[..Past(rows, hi)], lo)
  {
    hide Rising, After, Between, Past;
    NoRows(lo, hi);
    if rows == [] {
      assert rows[..0] == [];
    } else {
      var n := |rows| - 1;
      var init := rows[..n];
      LastRow(rows, lo, hi);
      RisingSlice(rows, 0, n);
      BetweenIsPrefix(init, lo, hi);
      if rows[n].global > hi {
        assert rows[..Past(rows, hi)] == init[..Past(rows, hi)];
      } else {
        PastDivides(rows, hi);
        assert Past(rows, hi) == |rows|;
        assert rows[..|rows|] == rows && init[..n] == init;
      }
    }
  }

  lemma BetweenCuts(rows: seq<Event>, lo: nat, hi: nat)
    requires Rising(rows) && lo <= hi
    ensures Past(rows, lo) <= Past(rows, hi)
    ensures Between(rows, lo, hi) == rows[Past(rows, lo)..Past(rows, hi)]
  {
    hide Rising, Past, After, Between;
    var q := Past(rows, hi);
    BetweenIsPrefix(rows, lo, hi);
    RisingSlice(rows, 0, q);
    CutAt(rows[..q], lo);
    CutAt(rows, lo);
    CutAt(rows, hi);
    assert rows[..q] + rows[q..] == rows;
    PastExtend(rows[..q], rows[q..], lo);
    assert q < |rows| ==> rows[q].global > lo;
    assert Past(rows[..q], lo) == Past(rows, lo);
  }

  /** Such a reader has every row after its start up to its cursor, once, in order. */
  lemma CoversExactly(rows: seq<Event>, start: nat, given: seq<Event>)
    requires Rising(rows) && Covers(rows, start, given)
    ensures Last(given, start) >= start
    ensures Past(rows, Last(given, start)) == Past(rows, start) + |given|
    ensures given == Between(rows, start, Last(given, start))
  {
    hide Rising, Past, Between;
    var c := Last(given, start);
    CutAt(rows, start);
    CutAt(rows, c);
    var k := Past(rows, start) + |given|;
    if given != [] {
      assert given[|given| - 1] == rows[k - 1];
      if k < |rows| {
        RisingAt(rows, k - 1, k);
      }
    }
    BetweenCuts(rows, start, c);
  }

  /** So a reader that is still exact stays exact when rows are committed. A reader whose
      start lies beyond the log has been given nothing, and the claim is about later rows. */
  lemma CoversExtend(rows: seq<Event>, more: seq<Event>, start: nat, given: seq<Event>)
    requires Rising(rows + more) && Covers(rows, start, given)
    ensures Covers(rows + more, start, given)
  {
    hide Rising, Past;
    PastExtend(rows, more, start);
    if given != [] {
      var k := Past(rows, start);
      assert (rows + more)[k..k + |given|] == rows[k..k + |given|];
    }
  }

  /** Handing over the first i rows of a poll. */
  lemma CoversNext(rows: seq<Event>, start: nat, given: seq<Event>, batch: seq<Event>, i: nat)
    requires Rising(rows) && Covers(rows, start, given)
    requires batch == Fetch(rows, Last(given, start)) && i <= |batch|
    ensures Covers(rows, start, given + batch[..i])
    ensures i < |batch| ==> batch[i].global > Last(given + batch[..i], start)
  {
    hide Rising, Past, Fetch, Covers, Limited;
    var c := Last(given, start);
    CoversExactly(rows, start, given);
    FetchIsNext(rows, c);
    var k := Past(rows, c);
    LimitedPrefix(rows, k, BATCH, i);
    CoversMore(rows, start, given, k, i);
    if i < |batch| {
      CoversExactly(rows, start, given + batch[..i]);
      PastDivides(rows, Last(given + batch[..i], start));
    }
  }

  lemma LimitedPrefix(rows: seq<Event>, k: nat, n: nat, i: nat)
    requires k <= |rows| && i <= |Limited(rows[k..], n)|
    ensures k + i <= |rows| && Limited(rows[k..], n)[..i] == rows[k..k + i]
    ensures i < |Limited(rows[k..], n)| ==> k + i < |rows| && Limited(rows[k..], n)[i] == rows[k + i]
  {
  }

  lemma CoversMore(rows: seq<Event>, start: nat, given: seq<Event>, k: nat, i: nat)
    requires Covers(rows, start, given) && k == Past(rows, start) + |given| && k + i <= |rows|
    ensures Covers(rows, start, given + rows[k..k + i])
  {
    hide Past;
    var p := Past(rows, start);
    assert rows[p..k] + rows[k..k + i] == rows[p..k + i];
  }

  lemma CoversPrefix(rows: seq<Event>, start: nat, given: seq<Event>, more: seq<Event>)
    requires Covers(rows, start, given + more)
    ensures Covers(rows, start, given)
  {
    var k, all := Past(rows, start), given + more;
    assert all[..|given|] == given;
    assert rows[k..k + |all|][..|given|] == rows[k..k + |given|];
  }

  function Least(a: nat, b: nat): nat {
    if a <= b then a else b
  }

  /** A poll hands over fifty rows or catches up with the table. */
  lemma Progress(first: seq<Event>, rows: seq<Event>, start: nat, given: seq<Event>, n: nat)
    requires Rising(rows) && first <= rows && Covers(rows, start, given)
    requires |given| >= Least(n, |After(first, start)|)
    ensures |given + Fetch(rows, Last(given, start))| >= Least(n + 50, |After(first, start)|)
  {
    hide Rising, Past, Fetch, After;
    assert first + rows[|first|..] == rows;
    RisingSlice(rows, 0, |first|);
    assert rows[..|first|] == first;
    CutAt(first, start);
    PastExtend(first, rows[|first|..], start);
    CoversExactly(rows, start, given);
    FetchIsNext(rows, Last(given, start));
  }

  lemma CoversNothing(rows: seq<Event>, start: nat)
    ensures Covers(rows, start, [])
  {
  }

  /** The generator of the stream endpoint, over the table as each poll finds it. */
  method Stream(start: nat, polls: seq<seq<Event>>) returns (given: seq<Event>, cur: nat)
    requires forall i :: 0 <= i < |polls| ==> Rising(polls[i])
    requires forall i :: 0 <= i < |polls| - 1 ==> polls[i] <= polls[i + 1]
    ensures cur == Last(given, start)
    ensures polls == [] ==> given == []
    ensures polls != [] ==> given == Between(polls[|polls| - 1], start, cur)
    ensures polls != [] ==> |given| >= Least(50 * |polls|, |After(polls[0], start)|)
  {
    hide Rising, Covers, Fetch, Past, Between, After;
    given, cur := [], start;
    var p := 0;
    while p < |polls|
      invariant 0 <= p <= |polls|
      invariant cur == Last(given, start)
      invariant p == 0 ==> given == []
      invariant p > 0 ==> Covers(polls[p - 1], start, given)
      invariant p > 0 ==> polls[0] <= polls[p - 1]
      invariant p > 0 ==> |given| >= Least(50 * p, |After(polls[0], start)|)
    {
      ghost var before := given;
      if p > 0 {
        assert polls[p - 1] <= polls[p - 1 + 1];
        assert polls[p] == polls[p - 1] + polls[p][|polls[p - 1]|..];
        CoversExtend(polls[p - 1], polls[p][|polls[p - 1]|..], start, given);
      } else {
        CoversNothing(polls[p], start);
      }
      var rows := Fetch(polls[p], cur);
      var i := 0;
      while i < |rows|
        invariant 0 <= i <= |rows|
        invariant given == before + rows[..i]
        invariant cur == Last(given, start)
      {
        CoversNext(polls[p], start, before, rows, i);
        cur := Max(cur, rows[i].global);
        given := given + [rows[i]];
        i := i + 1;
      }
      CoversNext(polls[p], start, before, rows, |rows|);
      Progress(polls[0], polls[p], start, before, 50 * p);
      assert rows[..|rows|] == rows;
      p := p + 1;
    }
    if polls != [] {
      CoversExactly(polls[|polls| - 1], start, given);
    }
  }
}
