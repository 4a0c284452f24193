/** The messages recovery leaves for the queue: one for each automatic successor, and when. */
module Outbox {
  import opened Text
  import opened Runs
  import opened Retries

  /** The automatic successors among the first n runs, in order. */
  function Successors(runs: seq<RunRow>, n: nat): seq<nat>
    requires n <= |runs|
  {
    if n == 0 then [] else Successors(runs, n - 1) + (if runs[n - 1].retryOf != None then [n - 1] else [])
  }

  /** The runs the messages name, in order. */
  function Named(outbox: seq<Outboxed>): seq<nat> {
    seq(|outbox|, i requires 0 <= i < |outbox| => outbox[i].run)
  }

  /** The wait before a retry, in milliseconds. */
  function Wait(retry: nat): int {
    match retry
    case 1 => 30_000
    case 2 => 60_000
    case 3 => 120_000
    case _ => 0
  }

  /** What a test that fails run i does: up to the third retry it queues a new run and a message
      that names it, after that it writes a dead letter; never both. */
  lemma FailureEffect(t: Table, c: Change)
    requires Fails(t, c)
    ensures var seen := t.passes[c.s].rows[c.i]; var u := Next(t, c);
      u.runs[c.i].status == Failed &&
      if seen.retries < 3 then
        |u.runs| == |t.runs| + 1 && u.deadLetters == t.deadLetters &&
        u.outbox == t.outbox + [Outboxed(|t.runs|, c.clock.published + Wait(seen.retries + 1))] &&
        var r := u.runs[|t.runs|];
        r.status == Queued && r.holder == None && r.lease == None && r.retryOf == Some(c.i) && r.retries == r.born == seen.retries + 1
      else |u.runs| == |t.runs| && u.outbox == t.outbox && u.deadLetters == t.deadLetters + [c.i]
  {
    hide Stuck, ReadRows;
    assert Backoff(1) == 30 && Backoff(2) == 60 && Backoff(3) == 120;
  }

  lemma QuietEffect(t: Table, c: Change)
    requires !Fails(t, c)
    ensures Next(t, c).outbox == t.outbox && Next(t, c).deadLetters == t.deadLetters
    ensures |Next(t, c).runs| > |t.runs| ==> Next(t, c).runs[|t.runs|].retryOf == None && |Next(t, c).runs| == |t.runs| + 1
  {
    hide Stuck, ReadRows, Failing;
  }

  lemma {:induction false} SameSuccessors(runs: seq<RunRow>, runs': seq<RunRow>, n: nat)
    requires n <= |runs| && SameLinks(runs, runs')
    ensures Successors(runs', n) == Successors(runs, n)
  {
    if n > 0 {
      SameSuccessors(runs, runs', n - 1);
    }
  }

  lemma NamedMore(outbox: seq<Outboxed>, row: Outboxed)
    ensures Named(outbox + [row]) == Named(outbox) + [row.run]
  {
  }

  /** Over any history, with any number of schedulers and revivals, the messages name the
      automatic successors, each once and in the order in which they were made. */
  lemma {:induction false} OneMessageEach(changes: seq<Change>)
    ensures var t := Changed(changes); Named(t.outbox) == Successors(t.runs, |t.runs|)
    decreases |changes|
  {
    hide Next, Stuck;
    if changes != [] {
      var fewer, c := changes[..|changes| - 1], changes[|changes| - 1];
      var t := Changed(fewer);
      OneMessageEach(fewer);
      NextLinks(t, c);
      SameSuccessors(t.runs, Next(t, c).runs, |t.runs|);
      if Fails(t, c) {
        FailureEffect(t, c);
        if t.passes[c.s].rows[c.i].retries < 3 {
          NamedMore(t.outbox, Outboxed(|t.runs|, c.clock.published + Wait(t.passes[c.s].rows[c.i].retries + 1)));
        }
      } else {
        QuietEffect(t, c);
      }
    }
  }

  /** Change k failed a run and published the message: the run it names was queued by that very
      test as the successor, and its time is the wait of its retry count after the clock reading. */
  ghost predicate PublishedAt(changes: seq<Change>, k: nat, row: Outboxed) {
    k < |changes| && Fails(Changed(changes[..k]), changes[k]) &&
    var c, runs := changes[k], Next(Changed(changes[..k]), changes[k]).runs;
    row.run == |Changed(changes[..k]).runs| < |runs| && runs[row.run].status == Queued && runs[row.run].retryOf == Some(c.i) &&
    1 <= runs[row.run].retries <= 3 && row.notBefore == c.clock.published + Wait(runs[row.run].retries)
  }

  lemma {:induction false} EachPublished(changes: seq<Change>, m: nat) returns (k: nat)
    requires m < |Changed(changes).outbox|
    ensures PublishedAt(changes, k, Changed(changes).outbox[m])
    decreases |changes|
  {
    hide Next, Stuck, Wait;
    var fewer, c := changes[..|changes| - 1], changes[|changes| - 1];
    var t := Changed(fewer);
    if Fails(t, c) {
      FailureEffect(t, c);
    } else {
      QuietEffect(t, c);
    }
    if m < |t.outbox| {
      k := EachPublished(fewer, m);
      assert fewer[..k] == changes[..k] && fewer[k] == changes[k];
      assert Changed(changes).outbox[m] == t.outbox[m];
    } else {
      k := |fewer|;
      assert changes[..k] == fewer && changes[k] == c;
    }
  }
}
