/** The event log as concurrent transactions, crashes and streaming readers drive it. */
module EventLogs {
  import opened Text
  import opened Windows
  import opened Events

  /** The table, its identity counter, and the transaction that holds the advisory lock with
      the rows it has inserted and the number it has read for its next one. */
  datatype Log = Log(committed: seq<Event>, counter: nat, lock: Option<nat>, pending: seq<Event>,
                     draft: Option<(nat, nat)>)

  /** A streaming client: its starting cursor, the server's cursor, the rows fetched but not
      yet sent, the rows in transit, and the rows received. */
  datatype Reader = Reader(start: nat, cur: nat, queue: seq<Event>, wire: seq<Event>, got: seq<Event>)

  datatype Action =
    | Lock(txn: nat) | ReadMax(txn: nat, run: nat) | Insert(txn: nat, kind: string) | Burn
    | Commit(txn: nat) | Rollback(txn: nat)
    | Connect(reader: nat, start: nat) | Poll(reader: nat) | Yield(reader: nat) | Receive(reader: nat)
    | Reconnect(reader: nat)

  /** One statement of some transaction. A statement that must wait for the lock does nothing. */
  function LogAct(l: Log, a: Action): Log {
    match a
    case Lock(x) => if l.lock == None then l.(lock := Some(x)) else l
    case ReadMax(x, run) =>
      if l.lock == Some(x) then l.(draft := Some((run, NextNumber(l.committed + l.pending, run)))) else l
    case Insert(x, kind) =>
      if l.lock == Some(x) && l.draft != None then
        l.(pending := l.pending + [Event(l.draft.value.0, l.draft.value.1, l.counter, kind)],
           counter := l.counter + 1, draft := None)
      else l
    case Burn => l.(counter := l.counter + 1)
    case Commit(x) =>
      if l.lock == Some(x) then Log(l.committed + l.pending, l.counter, None, [], None) else l
    case Rollback(x) => if l.lock == Some(x) then Log(l.committed, l.counter, None, [], None) else l
    case _ => l
  }

  /** One step of a reader; a dropped connection resumes after the last row received. */
  function ReaderAct(r: Reader, committed: seq<Event>, a: Action): Reader {
    match a
    case Poll(_) => if r.queue == [] then r.(queue := Fetch(committed, r.cur)) else r
    case Yield(_) =>
      if r.queue == [] then r
      else r.(queue := r.queue[1..], wire := r.wire + [r.queue[0]], cur := Max(r.cur, r.queue[0].global))
    case Receive(_) => if r.wire == [] then r else r.(wire := r.wire[1..], got := r.got + [r.wire[0]])
    case Reconnect(_) => Reader(r.start, Last(r.got, r.start), [], [], r.got)
    case _ => r
  }

  datatype World = World(log: Log, readers: map<nat, Reader>)

  const EMPTY := World(Log([], 1, None, [], None), map[])

  function Next(w: World, a: Action): World {
    match a
    case Connect(i, start) => w.(readers := w.readers[i := Reader(start, start, [], [], [])])
    case Poll(i) => Read(w, i, a)
    case Yield(i) => Read(w, i, a)
    case Receive(i) => Read(w, i, a)
    case Reconnect(i) => Read(w, i, a)
    case _ => w.(log := LogAct(w.log, a))
  }

  function Read(w: World, i: nat, a: Action): World {
    if i in w.readers then w.(readers := w.readers[i := ReaderAct(w.readers[i], w.log.committed, a)]) else w
  }

  /** Any interleaving at all. */
  function Reached(actions: seq<Action>): World {
    if actions == [] then EMPTY else Next(Reached(actions[..|actions| - 1]), actions[|actions| - 1])
  }

  // ----- the log

  ghost predicate LogGood(l: Log) {
    var rows := l.committed + l.pending;
    Numbered(rows) && Rising(rows) && Below(rows, l.counter) &&
    (l.lock == None ==> l.pending == [] && l.draft == None) &&
    (l.draft != None ==> l.draft.value.1 == CountOf(rows, l.draft.value.0))
  }

  lemma RisingExtend(rows: seq<Event>, e: Event)
    requires Rising(rows) && Below(rows, e.global)
    ensures Rising(rows + [e]) && Below(rows + [e], e.global + 1)
  {
  }

  lemma LogStep(l: Log, a: Action)
    requires LogGood(l)
    ensures LogGood(LogAct(l, a))
  {
    hide Numbered, Rising, Below;
    var l' := LogAct(l, a);
    var rows := l.committed + l.pending;
    match a
    case ReadMax(x, run) =>
      NextIsCount(rows, run);
    case Insert(x, kind) =>
      if l.lock == Some(x) && l.draft != None {
        var e := Event(l.draft.value.0, l.draft.value.1, l.counter, kind);
        NumberedExtend(rows, e);
        RisingExtend(rows, e);
        assert l'.committed + l'.pending == rows + [e];
      }
    case Burn =>
      BelowMore(rows, l.counter);
    case Commit(x) =>
      if l.lock == Some(x) {
        assert l'.committed + l'.pending == rows;
      }
    case Rollback(x) =>
      if l.lock == Some(x) {
        CommittedGood(l);
        assert l'.committed + l'.pending == l.committed;
      }
    case _ =>
  }

  lemma BelowMore(rows: seq<Event>, bound: nat)
    requires Below(rows, bound)
    ensures Below(rows, bound + 1)
  {
  }

  lemma CommittedGood(l: Log)
    requires LogGood(l)
    ensures Numbered(l.committed) && Rising(l.committed) && Below(l.committed, l.counter)
  {
    hide Numbered, Rising;
    var rows := l.committed + l.pending;
    NumberedPrefix(l.committed, l.pending);
    RisingSlice(rows, 0, |l.committed|);
    assert rows[..|l.committed|] == l.committed;
    forall i | 0 <= i < |l.committed| ensures l.committed[i].global < l.counter {
      assert rows[i] == l.committed[i];
    }
  }

  // ----- the readers

  /** A client has been sent, and has received, exactly what its cursor says. */
  ghost predicate Exact(committed: seq<Event>, r: Reader) {
    Covers(committed, r.start, r.got + r.wire + r.queue) && r.cur == Last(r.got + r.wire, r.start)
  }

  lemma ReaderStep(r: Reader, committed: seq<Event>, a: Action)
    requires Rising(committed) && Exact(committed, r)
    ensures Exact(committed, ReaderAct(r, committed, a))
  {
    hide Rising, Exact, Fetch;
    match a
    case Poll(_) => PollStep(r, committed, a);
    case Yield(_) => YieldStep(r, committed, a);
    case Receive(_) => ReceiveStep(r, committed, a);
    case Reconnect(_) => ReconnectStep(r, committed, a);
    case _ =>
  }

  lemma PollStep(r: Reader, committed: seq<Event>, a: Action)
    requires Rising(committed) && Exact(committed, r) && a.Poll?
    ensures Exact(committed, ReaderAct(r, committed, a))
  {
    hide Rising, Covers, Fetch;
    var sent := r.got + r.wire;
    if r.queue == [] {
      assert sent + [] == sent;
      var batch := Fetch(committed, r.cur);
      CoversNext(committed, r.start, sent, batch, |batch|);
      assert batch[..|batch|] == batch;
    }
  }

  lemma YieldStep(r: Reader, committed: seq<Event>, a: Action)
    requires Rising(committed) && Exact(committed, r) && a.Yield?
    ensures Exact(committed, ReaderAct(r, committed, a))
  {
    hide Rising, Covers;
    var sent, r' := r.got + r.wire, ReaderAct(r, committed, a);
    if r.queue != [] {
      YieldRises(committed, r);
      assert r'.got + r'.wire == sent + [r.queue[0]];
      assert r'.got + r'.wire + r'.queue == sent + r.queue;
    }
  }

  lemma ReceiveStep(r: Reader, committed: seq<Event>, a: Action)
    requires Exact(committed, r) && a.Receive?
    ensures Exact(committed, ReaderAct(r, committed, a))
  {
    hide Covers;
    var r' := ReaderAct(r, committed, a);
    assert r'.got + r'.wire == r.got + r.wire;
  }

  lemma ReconnectStep(r: Reader, committed: seq<Event>, a: Action)
    requires Exact(committed, r) && a.Reconnect?
    ensures Exact(committed, ReaderAct(r, committed, a))
  {
    hide Covers;
    var r' := ReaderAct(r, committed, a);
    assert r.got + r.wire + r.queue == r.got + (r.wire + r.queue);
    CoversPrefix(committed, r.start, r.got, r.wire + r.queue);
    assert r'.got + r'.wire + r'.queue == r.got && r'.got + r'.wire == r.got;
  }

  lemma YieldRises(committed: seq<Event>, r: Reader)
    requires Rising(committed) && Exact(committed, r) && r.queue != []
    ensures r.queue[0].global > r.cur
  {
    hide Rising, Past;
    var sent := r.got + r.wire;
    CoversPrefix(committed, r.start, sent, r.queue);
    CoversExactly(committed, r.start, sent);
    CutAt(committed, r.cur);
    assert (sent + r.queue)[|sent|] == committed[Past(committed, r.cur)];
  }

  // ----- every reachable world

  ghost predicate Good(w: World) {
    LogGood(w.log) && forall i :: i in w.readers ==> Exact(w.log.committed, w.readers[i])
  }

  lemma CommitExact(l: Log, l': Log, r: Reader)
    requires LogGood(l) && LogGood(l') && Exact(l.committed, r)
    requires l'.committed == l.committed || l'.committed == l.committed + l.pending
    ensures Exact(l'.committed, r)
  {
    if l'.committed != l.committed {
      CoversExtend(l.committed, l.pending, r.start, r.got + r.wire + r.queue);
    }
  }

  lemma StepGood(w: World, a: Action)
    requires Good(w)
    ensures Good(Next(w, a))
  {
    hide LogGood, Exact;
    CommittedGood(w.log);
    LogStep(w.log, a);
    match a
    case Connect(i, start) =>
      FreshExact(w.log.committed, start);
    case Poll(i) => if i in w.readers { ReaderStep(w.readers[i], w.log.committed, a); }
    case Yield(i) => if i in w.readers { ReaderStep(w.readers[i], w.log.committed, a); }
    case Receive(i) => if i in w.readers { ReaderStep(w.readers[i], w.log.committed, a); }
    case Reconnect(i) => if i in w.readers { ReaderStep(w.readers[i], w.log.committed, a); }
    case _ =>
      forall i | i in w.readers ensures Exact(LogAct(w.log, a).committed, w.readers[i]) {
        CommitExact(w.log, LogAct(w.log, a), w.readers[i]);
      }
  }

  lemma FreshExact(committed: seq<Event>, start: nat)
    ensures Exact(committed, Reader(start, start, [], [], []))
  {
    CoversNothing(committed, start);
    var none: seq<Event> := [];
    assert none + [] + [] == [];
  }

  lemma {:induction false} AlwaysGood(actions: seq<Action>)
    ensures Good(Reached(actions))
  {
    if actions != [] {
      AlwaysGood(actions[..|actions| - 1]);
      StepGood(Reached(actions[..|actions| - 1]), actions[|actions| - 1]);
    }
  }

  /** Whatever transactions do, each run's committed events are numbered 0, 1, 2, ... and
      every commit carries larger global numbers than all commits before it. */
  lemma LogOrdered(actions: seq<Action>, run: nat)
    ensures forall i :: 0 <= i < CountOf(Reached(actions).log.committed, run) ==>
      i < |NumbersOf(Reached(actions).log.committed, run)| && NumbersOf(Reached(actions).log.committed, run)[i] == i
    ensures |NumbersOf(Reached(actions).log.committed, run)| == CountOf(Reached(actions).log.committed, run)
    ensures Rising(Reached(actions).log.committed)
  {
    hide Numbered, Rising, Reached, Next;
    AlwaysGood(actions);
    CommittedGood(Reached(actions).log);
    NumbersDense(Reached(actions).log.committed, run);
  }

  /** Every reader, at every moment and across reconnections: what was sent is what is
      committed after its start up to its cursor, what was received is what is committed after
      its start up to the last row received. */
  lemma StreamExact(actions: seq<Action>, i: nat)
    requires i in Reached(actions).readers
    ensures var w := Reached(actions); var r := w.readers[i];
      r.got + r.wire == Between(w.log.committed, r.start, r.cur) &&
      r.got == Between(w.log.committed, r.start, Last(r.got, r.start))
  {
    hide Covers, Between, Reached, Next, LogGood, Rising;
    AlwaysGood(actions);
    var w := Reached(actions);
    var r := w.readers[i];
    CommittedGood(w.log);
    CoversPrefix(w.log.committed, r.start, r.got + r.wire, r.queue);
    CoversPrefix(w.log.committed, r.start, r.got, r.wire);
    CoversExactly(w.log.committed, r.start, r.got + r.wire);
    CoversExactly(w.log.committed, r.start, r.got);
  }

  /** Committed events are never changed, removed or reordered. */
  lemma {:induction false} HistoryGrows(actions: seq<Action>, more: seq<Action>)
    ensures Reached(actions).log.committed <= Reached(actions + more).log.committed
  {
    if more == [] {
      assert actions + more == actions;
    } else {
      var all := actions + more;
      assert all[..|all| - 1] == actions + more[..|more| - 1];
      HistoryGrows(actions, more[..|more| - 1]);
      GrowStep(Reached(all[..|all| - 1]), all[|all| - 1]);
    }
  }

  lemma GrowStep(w: World, a: Action)
    ensures w.log.committed <= Next(w, a).log.committed
  {
  }

  // ----- the methods

  datatype Fault = Fine | Integrity | Other

  class EventLog {
    var committed: seq<Event>
    var counter: nat
    var lock: Option<nat>
    var pending: seq<Event>
    var draft: Option<(nat, nat)>

    function Snapshot(): Log
      reads this
    {
      Log(committed, counter, lock, pending, draft)
    }

    /** `append_run_event_in_session`. It waits, changing nothing, while another transaction
        holds the lock. */
    method AppendInSession(txn: nat, run: nat, kind: string) returns (granted: bool)
      modifies this
      ensures granted <==> old(lock) == None || old(lock) == Some(txn)
      ensures granted ==>
        Snapshot() == LogAct(LogAct(LogAct(old(Snapshot()), Lock(txn)), ReadMax(txn, run)), Insert(txn, kind))
      ensures !granted ==> Snapshot() == old(Snapshot())
    {
      if lock != None && lock != Some(txn) {
        return false;
      }
      lock := Some(txn);
      var next := NextNumber(committed + pending, run);
      pending := pending + [Event(run, next, counter, kind)];
      counter := counter + 1;
      draft := None;
      return true;
    }

    method CommitTransaction(txn: nat)
      modifies this
      ensures Snapshot() == LogAct(old(Snapshot()), Commit(txn))
    {
      if lock == Some(txn) {
        committed := committed + pending;
        lock, pending, draft := None, [], None;
      }
    }

    method RollbackTransaction(txn: nat)
      modifies this
      ensures Snapshot() == LogAct(old(Snapshot()), Rollback(txn))
    {
      if lock == Some(txn) {
        lock, pending, draft := None, [], None;
      }
    }

    /** `append_run_event_safe`, where faults says how each attempt's transaction ends. While
        another transaction holds the lock it waits, and nothing changes. Otherwise the row is
        committed once if the attempts before some fine one all met an integrity error, and not
        at all if there is no such attempt; with no attempt allowed nothing is raised. */
    method AppendSafe(txn: nat, run: nat, kind: string, faults: seq<Fault>) returns (waits: bool, raised: bool)
      requires lock == None ==> pending == [] && draft == None
      requires lock != Some(txn)
      modifies this
      ensures waits <==> old(lock) != None && faults != []
      ensures waits ==> Snapshot() == old(Snapshot()) && !raised
      ensures !waits && old(lock) == None ==> lock == None && pending == [] && draft == None
      ensures !waits && Landed(faults) ==> !raised && counter > old(counter)
      ensures !waits && Landed(faults) ==>
        committed == old(committed) + [Event(run, NextNumber(old(committed), run), counter - 1, kind)]
      ensures !waits && !Landed(faults) ==> committed == old(committed) && (raised <==> faults != [])
    {
      waits := false;
      if faults == [] {
        return false, false;
      }
      if lock != None {
        return true, false;
      }
      var attempt := 0;
      while attempt < |faults|
        invariant 0 <= attempt <= |faults|
        invariant forall i :: 0 <= i < attempt ==> faults[i] == Integrity
        invariant Landed(faults) <==> Landed(faults[attempt..])
        invariant lock == None && pending == [] && draft == None
        invariant committed == old(committed) && counter >= old(counter)
      {
        var granted := AppendInSession(txn, run, kind);
        assert committed + [] == committed;
        if faults[attempt] == Fine {
          CommitTransaction(txn);
          return false, false;
        }
        RollbackTransaction(txn);
        if faults[attempt] == Other {
          return false, true;
        }
        assert faults[attempt..][1..] == faults[attempt + 1..];
        attempt := attempt + 1;
      }
      return false, true;
    }
  }

  /** Some attempt is fine and all attempts before it fail on integrity. */
  predicate Landed(faults: seq<Fault>) {
    faults != [] && (faults[0] == Fine || (faults[0] == Integrity && Landed(faults[1..])))
  }

  /** The append lands exactly when the first attempt that is no integrity error is fine. */
  lemma {:induction false} LandedExactly(faults: seq<Fault>)
    ensures Landed(faults) <==> exists k :: 0 <= k < |faults| && faults[k] == Fine && forall j :: 0 <= j < k ==> faults[j] == Integrity
    decreases |faults|
  {
    if faults != [] && faults[0] == Integrity {
      LandedExactly(faults[1..]);
      if k :| 0 <= k < |faults[1..]| && faults[1..][k] == Fine && forall j :: 0 <= j < k ==> faults[1..][j] == Integrity {
        assert faults[k + 1] == Fine && forall j :: 0 <= j < k + 1 ==> faults[j] == Integrity by {
          assert forall j :: 1 <= j < k + 1 ==> faults[j] == faults[1..][j - 1];
        }
      }
      if k :| 0 <= k < |faults| && faults[k] == Fine && forall j :: 0 <= j < k ==> faults[j] == Integrity {
        assert faults[1..][k - 1] == Fine && forall j :: 0 <= j < k - 1 ==> faults[1..][j] == Integrity;
      }
    } else if faults != [] && faults[0] == Fine {
      var k := 0;
      assert faults[k] == Fine;
    }
  }

  /** A transaction that takes the free lock, reads, inserts and commits has appended one event,
      with the number of the run's earlier events and a global number above all others. */
  lemma AppendLands(l: Log, x: nat, run: nat, kind: string)
    requires LogGood(l) && l.lock == None
    ensures var l' := LogAct(LogAct(LogAct(LogAct(l, Lock(x)), ReadMax(x, run)), Insert(x, kind)), Commit(x));
      l'.committed == l.committed + [Event(run, CountOf(l.committed, run), l.counter, kind)] &&
      l'.counter == l.counter + 1 && l'.lock == None && l'.pending == [] && Below(l.committed, l.counter)
  {
    hide Numbered, Rising, Below, CountOf, NextNumber;
    assert l.committed + [] == l.committed;
    NextIsCount(l.committed, run);
  }

  /** While one transaction holds the lock nothing another one does changes the log, except for
      using up global numbers. */
  lemma LockExcludes(l: Log, holder: nat, a: Action)
    requires l.lock == Some(holder)
    requires a != ReadMax(holder, if a.ReadMax? then a.run else 0) && a != Insert(holder, if a.Insert? then a.kind else "")
    requires a != Commit(holder) && a != Rollback(holder)
    ensures LogAct(l, a) == if a.Burn? then l.(counter := l.counter + 1) else l
  {
  }

  /** A polled and drained reader has been given everything: a poll with nothing queued fetches the
      next fifty rows after the cursor or all of them, and the rows go out and arrive one by one. */
  lemma ReaderMoves(r: Reader, committed: seq<Event>, i: nat)
    requires Rising(committed)
    ensures var k := Past(committed, r.cur);
      r.queue == [] ==>
        ReaderAct(r, committed, Poll(i)).queue == if |committed| - k > 50 then committed[k..k + 50] else committed[k..]
    ensures r.queue != [] ==> ReaderAct(r, committed, Yield(i)).wire == r.wire + [r.queue[0]] &&
                              ReaderAct(r, committed, Yield(i)).queue == r.queue[1..]
    ensures r.wire != [] ==> ReaderAct(r, committed, Receive(i)).got == r.got + [r.wire[0]]
    ensures ReaderAct(r, committed, Reconnect(i)).cur == Last(r.got, r.start)
  {
    hide Rising, Fetch, Past;
    FetchIsNext(committed, r.cur);
  }

  /** An append that meets no other one reaches a reader that is up to date: after the four
      statements of the transaction, a poll, a send and a receipt, it has the new event. */
  lemma EventArrives(actions: seq<Action>, x: nat, i: nat, run: nat, kind: string)
    requires var w := Reached(actions);
      i in w.readers && w.readers[i].queue == [] && w.readers[i].wire == [] && w.log.lock == None &&
      Past(w.log.committed, w.readers[i].cur) == |w.log.committed| && w.readers[i].cur < w.log.counter
    ensures var w := Reached(actions);
      var more := [Lock(x), ReadMax(x, run), Insert(x, kind), Commit(x), Poll(i), Yield(i), Receive(i)];
      var e := Event(run, CountOf(w.log.committed, run), w.log.counter, kind);
      After7(w, more).log.committed == w.log.committed + [e] && i in After7(w, more).readers &&
      After7(w, more).readers[i].got == w.readers[i].got + [e]
  {
    hide Rising, Past, Fetch, LogGood, LogAct, CountOf, Below, Reached;
    var w := Reached(actions);
    AlwaysGood(actions);
    AppendLands(w.log, x, run, kind);
    var e := Event(run, CountOf(w.log.committed, run), w.log.counter, kind);
    var rows := w.log.committed + [e];
    var log := LogAct(LogAct(LogAct(LogAct(w.log, Lock(x)), ReadMax(x, run)), Insert(x, kind)), Commit(x));
    LogStep(w.log, Lock(x));
    LogStep(LogAct(w.log, Lock(x)), ReadMax(x, run));
    LogStep(LogAct(LogAct(w.log, Lock(x)), ReadMax(x, run)), Insert(x, kind));
    LogStep(LogAct(LogAct(LogAct(w.log, Lock(x)), ReadMax(x, run)), Insert(x, kind)), Commit(x));
    CommittedGood(log);
    FetchedLast(w.log.committed, e, w.readers[i].cur);
  }

  /** The world after seven actions. */
  function After7(w: World, a: seq<Action>): World
    requires |a| == 7
  {
    Next(Next(Next(Next(Next(Next(Next(w, a[0]), a[1]), a[2]), a[3]), a[4]), a[5]), a[6])
  }

  lemma FetchedLast(rows: seq<Event>, e: Event, c: nat)
    requires Rising(rows + [e]) && Past(rows, c) == |rows| && c < e.global
    ensures Fetch(rows + [e], c) == [e]
  {
    hide Rising, Fetch;
    var all := rows + [e];
    FetchIsNext(all, c);
    assert all[..|rows|] == rows;
    LastRow(all, c, c);
  }
}
