/** The gates between an offer and a public accept: hourly quota, concurrency cap, one accept
    per offer, and the deliverable that follows. Times are whole seconds. */
module AgentGate {
  import opened Text
  import opened Sets
  import opened Windows

  datatype Config = Config(cap: int, reserve: int, maxActive: int, ttl: int)

  const HOUR := 3600

  /** An accepted deal kept in memory. */
  datatype Deal = Deal(begun: int, answered: bool, locked: bool)

  /** An offer with everything the surroundings decide about it: whether audit, veto, risk
      ceiling and brief cleared it, the clock at each reading, whether the producer is healthy,
      when the accept post returned if it did, whether an answer was produced, whether its
      delivery was posted, and whether the rest of the block ran through. */
  datatype Offer = Offer(cleared: bool, validation: bool, author: string, nonce: string, id: string,
                         contract: string, checked: int, pruned: int, begun: int, healthy: bool,
                         sent: Option<int>, answered: bool, delivered: bool, finished: bool)

  /** A lock frame that matches a deal, what the delivery lookup says, and whether its post lands. */
  datatype LockSeen = LockSeen(contract: string, recorded: bool, delivered: bool)

  datatype Event = OnOffer(offer: Offer) | OnLock(lock: LockSeen) | OnClaim(contracts: set<string>)

  datatype Post = Post(at: int, validation: bool, key: string)

  /** The agent's memory, and the accepts and deliveries it has posted. */
  datatype Gate = Gate(active: map<string, Deal>, seen: set<string>, times: seq<int>, delivered: set<string>,
                       posts: seq<Post>, shipped: seq<string>)

  const IDLE := Gate(map[], {}, [], {}, [], [])

  /** Whether one more public accept fits. */
  predicate AcceptRoom(cap: int, used: int, reserve: int) {
    cap > 0 && used < cap + Max(0, reserve)
  }

  function Pruned(active: map<string, Deal>, ttl: int, now: int): map<string, Deal> {
    if ttl <= 0 then active else map k | k in active && now - active[k].begun <= ttl :: active[k]
  }

  function KeyOf(o: Offer): string {
    o.author + "|" + o.nonce
  }

  /** After the quota and the pruning, and whether the offer is still to be accepted. */
  function Gated(c: Config, g: Gate, o: Offer): (Gate, bool) {
    var times := if o.cleared then Within(g.times, o.checked, HOUR) else g.times;
    var active := Pruned(g.active, c.ttl, o.pruned);
    (g.(times := times, active := active),
     o.cleared && AcceptRoom(c.cap, |times|, if o.validation then c.reserve else 0) && |active| < c.maxActive)
  }

  /** Posting the accept and doing the work. */
  function Accepted(g: Gate, o: Offer): Gate {
    if !o.healthy || o.sent == None then g.(active := g.active - {o.contract})
    else
      var ship := o.answered && o.delivered;
      g.(active := if o.finished then g.active[o.contract := Deal(o.begun, o.answered, false)] else g.active - {o.contract},
         times := g.times + [o.sent.value],
         posts := g.posts + [Post(o.sent.value, o.validation, KeyOf(o))],
         delivered := if ship then g.delivered + {o.contract} else g.delivered,
         shipped := if ship then g.shipped + [o.contract] else g.shipped)
  }

  function AfterOffer(c: Config, g: Gate, o: Offer): Gate {
    var (h, ok) := Gated(c, g, o);
    if !ok || o.nonce == "" || KeyOf(o) in h.seen then h
    else if o.id == "" then h.(seen := h.seen + {KeyOf(o)})
    else Accepted(h.(seen := h.seen + {KeyOf(o)}), o)
  }

  function AfterLock(g: Gate, l: LockSeen): Gate {
    if l.contract !in g.active || g.active[l.contract].locked then g
    else
      var h := g.(active := g.active[l.contract := g.active[l.contract].(locked := true)]);
      if !g.active[l.contract].answered || l.contract in g.delivered then h
      else if l.recorded then h.(delivered := h.delivered + {l.contract})
      else if l.delivered then h.(delivered := h.delivered + {l.contract}, shipped := h.shipped + [l.contract])
      else h
  }

  function Next(c: Config, g: Gate, e: Event): Gate {
    match e
    case OnOffer(o) => AfterOffer(c, g, o)
    case OnLock(l) => AfterLock(g, l)
    case OnClaim(contracts) => g.(active := g.active - contracts)
  }

  function Run(c: Config, events: seq<Event>): Gate {
    if events == [] then IDLE else Next(c, Run(c, events[..|events| - 1]), events[|events| - 1])
  }

  class Agent {
    const config: Config
    var active: map<string, Deal>
    var seen: set<string>
    var times: seq<int>
    var delivered: set<string>
    ghost var posts: seq<Post>
    ghost var shipped: seq<string>

    ghost function Snapshot(): Gate
      reads this
    {
      Gate(active, seen, times, delivered, posts, shipped)
    }

    constructor (c: Config)
      ensures config == c && Snapshot() == IDLE
    {
      config := c;
      active, seen, times, delivered := map[], {}, [], {};
      posts, shipped := [], [];
    }

    method RateOk(validation: bool, now: int) returns (ok: bool)
      modifies this`times
      ensures times == Within(old(times), now, HOUR)
      ensures ok <==> AcceptRoom(config.cap, |times|, if validation then config.reserve else 0)
    {
      times := Within(times, now, HOUR);
      ok := AcceptRoom(config.cap, |times|, if validation then config.reserve else 0);
    }

    method PruneActive(now: int)
      modifies this`active
      ensures active == Pruned(old(active), config.ttl, now)
    {
      if config.ttl > 0 {
        active := map k | k in active && now - active[k].begun <= config.ttl :: active[k];
      }
    }

    /** `_tclk_on_offer` from the rate limit on. */
    method HandleOffer(o: Offer)
      modifies this
      ensures Snapshot() == AfterOffer(config, old(Snapshot()), o)
    {
      var accept := o.cleared;
      if accept {
        accept := RateOk(o.validation, o.checked);
      }
      PruneActive(o.pruned);
      if accept && |active| >= config.maxActive {
        accept := false;
      }
      if !accept || o.nonce == "" {
        return;
      }
      var key := o.author + "|" + o.nonce;
      if key in seen {
        return;
      }
      seen := seen + {key};
      if o.id == "" {
        return;
      }
      Commit(o, key);
    }

    /** The committed offer: the accept is posted, the work done and shipped. */
    method Commit(o: Offer, key: string)
      requires key == KeyOf(o)
      modifies this
      ensures Snapshot() == Accepted(old(Snapshot()), o)
    {
      active := active[o.contract := Deal(o.begun, false, false)];
      if !o.healthy || o.sent == None {
        active := active - {o.contract};
        return;
      }
      times := times + [o.sent.value];
      posts := posts + [Post(o.sent.value, o.validation, key)];
      if o.answered {
        active := active[o.contract := active[o.contract].(answered := true)];
        if o.delivered {
          delivered := delivered + {o.contract};
          shipped := shipped + [o.contract];
        }
      }
      if !o.finished {
        active := active - {o.contract};
      }
    }

    /** `_tclk_on_lock` for the deal it matches, up to the reveal. */
    method HandleLock(l: LockSeen)
      modifies this
      ensures Snapshot() == AfterLock(old(Snapshot()), l)
    {
      if l.contract !in active || active[l.contract].locked {
        return;
      }
      active := active[l.contract := active[l.contract].(locked := true)];
      if active[l.contract].answered && l.contract !in delivered {
        if l.recorded {
          delivered := delivered + {l.contract};
        } else if l.delivered {
          delivered := delivered + {l.contract};
          shipped := shipped + [l.contract];
        }
      }
    }
  }

  // ----- exactly when the agent acts

  /** Pruning keeps a deal, as it is, exactly while it is within its time to live. */
  lemma PrunedExactly(active: map<string, Deal>, ttl: int, now: int, k: string)
    ensures k in Pruned(active, ttl, now) <==> k in active && (ttl < 1 || active[k].begun + ttl >= now)
    ensures k in Pruned(active, ttl, now) ==> Pruned(active, ttl, now)[k] == active[k]
  {
  }

  /** How many accepts are remembered from the hour before a moment. */
  function Recent(times: seq<int>, now: int): nat {
    if times == [] then 0 else Recent(times[..|times| - 1], now) + (if times[|times| - 1] > now - 3600 then 1 else 0)
  }

  lemma {:induction false} RecentIsWithin(times: seq<int>, now: int)
    ensures |Within(times, now, HOUR)| == Recent(times, now)
  {
    if times != [] {
      RecentIsWithin(times[..|times| - 1], now);
    }
  }

  /** An accept is posted exactly when the offer was cleared, the hour has room under the cap (for
      a validation, the reserve included), a slot is free among the deals still within their time
      to live, the offer has a nonce its author has not used here before and an id, the producer
      is healthy, and the post returns. */
  lemma PostsExactly(c: Config, g: Gate, o: Offer)
    ensures var ceiling := if o.validation && c.reserve > 0 then c.cap + c.reserve else c.cap;
      var posts := AfterOffer(c, g, o).posts;
      (o.cleared && c.cap > 0 && Recent(g.times, o.checked) < ceiling && |Pruned(g.active, c.ttl, o.pruned)| < c.maxActive &&
       o.nonce != "" && o.author + "|" + o.nonce !in g.seen && o.id != "" && o.healthy && o.sent != None) ==>
      posts == g.posts + [Post(o.sent.value, o.validation, o.author + "|" + o.nonce)]
    ensures var ceiling := if o.validation && c.reserve > 0 then c.cap + c.reserve else c.cap;
      !(o.cleared && c.cap > 0 && Recent(g.times, o.checked) < ceiling && |Pruned(g.active, c.ttl, o.pruned)| < c.maxActive &&
        o.nonce != "" && o.author + "|" + o.nonce !in g.seen && o.id != "" && o.healthy && o.sent != None) ==>
      AfterOffer(c, g, o).posts == g.posts
  {
    RecentIsWithin(g.times, o.checked);
    hide Within, Pruned, Recent;
  }

  /** Without a cap above zero nothing is ever posted, whatever the reserve. */
  lemma {:induction false} NoCapNoPosts(c: Config, events: seq<Event>)
    requires c.cap <= 0
    ensures Run(c, events).posts == []
  {
    hide AfterOffer;
    if events != [] {
      var fewer, e := events[..|events| - 1], events[|events| - 1];
      NoCapNoPosts(c, fewer);
      if e.OnOffer? {
        PostsExactly(c, Run(c, fewer), e.offer);
      }
    }
  }

  /** A lock ships the answer exactly when its deal is active, not locked yet, answered, and neither
      remembered nor recorded as delivered, and the post lands; a deal recorded as delivered is
      remembered as such, and every deal it finds is locked. */
  lemma LockExactly(g: Gate, l: LockSeen)
    ensures var h := AfterLock(g, l);
      var due := l.contract in g.active && !g.active[l.contract].locked && g.active[l.contract].answered && l.contract !in g.delivered;
      h.shipped == (if due && !l.recorded && l.delivered then g.shipped + [l.contract] else g.shipped) &&
      h.delivered == (if due && (l.recorded || l.delivered) then g.delivered + {l.contract} else g.delivered) &&
      h.active == (if l.contract in g.active then g.active[l.contract := g.active[l.contract].(locked := true)] else g.active)
  {
    if l.contract in g.active && g.active[l.contract].locked {
      assert g.active[l.contract := g.active[l.contract].(locked := true)] == g.active;
    }
  }

  // ----- concurrency and one accept per offer

  lemma PrunedSmaller(active: map<string, Deal>, ttl: int, now: int)
    ensures |Pruned(active, ttl, now)| <= |active|
  {
    SubsetSize(Pruned(active, ttl, now).Keys, active.Keys);
  }

  lemma RemovedSmaller(active: map<string, Deal>, keys: set<string>)
    ensures |active - keys| <= |active|
  {
    SubsetSize((active - keys).Keys, active.Keys);
  }

  lemma StepActive(c: Config, g: Gate, e: Event)
    requires |g.active| <= Max(0, c.maxActive)
    ensures |Next(c, g, e).active| <= Max(0, c.maxActive)
  {
    match e
    case OnOffer(o) =>
      PrunedSmaller(g.active, c.ttl, o.pruned);
      RemovedSmaller(Pruned(g.active, c.ttl, o.pruned), {o.contract});
    case OnLock(l) =>
    case OnClaim(contracts) =>
      RemovedSmaller(g.active, contracts);
  }

  /** Active deals never exceed the configured maximum. */
  lemma {:induction false} ActiveBounded(c: Config, events: seq<Event>)
    ensures |Run(c, events).active| <= Max(0, c.maxActive)
  {
    if events != [] {
      ActiveBounded(c, events[..|events| - 1]);
      StepActive(c, Run(c, events[..|events| - 1]), events[|events| - 1]);
    }
  }

  ghost predicate KeysDistinct(g: Gate) {
    (forall i :: 0 <= i < |g.posts| ==> g.posts[i].key in g.seen) &&
    (forall i, j :: 0 <= i < j < |g.posts| ==> g.posts[i].key != g.posts[j].key)
  }

  /** One author and nonce is accepted at most once. */
  lemma {:induction false} AcceptedOnce(c: Config, events: seq<Event>)
    ensures KeysDistinct(Run(c, events))
  {
    hide Within, Pruned, AcceptRoom, KeyOf;
    if events != [] {
      AcceptedOnce(c, events[..|events| - 1]);
    }
  }

  // ----- deliveries

  ghost predicate ShippedRecorded(g: Gate) {
    forall i :: 0 <= i < |g.shipped| ==> g.shipped[i] in g.delivered
  }

  ghost predicate ShippedOnce(g: Gate) {
    forall i, j :: 0 <= i < j < |g.shipped| ==> g.shipped[i] != g.shipped[j]
  }

  /** The offer passes every gate, its accept goes out and its answer is posted. */
  predicate Ships(c: Config, g: Gate, o: Offer) {
    Gated(c, g, o).1 && o.nonce != "" && KeyOf(o) !in g.seen && o.id != "" &&
    o.healthy && o.sent != None && o.answered && o.delivered
  }

  /** The accept path ships without looking whether the contract was shipped before. */
  predicate ShipsAgain(c: Config, g: Gate, e: Event) {
    e.OnOffer? && e.offer.contract in g.shipped && Ships(c, g, e.offer)
  }

  predicate NeverShipsAgain(c: Config, events: seq<Event>) {
    events == [] ||
    (NeverShipsAgain(c, events[..|events| - 1]) && !ShipsAgain(c, Run(c, events[..|events| - 1]), events[|events| - 1]))
  }

  lemma StepShipped(c: Config, g: Gate, e: Event)
    requires ShippedRecorded(g)
    ensures ShippedRecorded(Next(c, g, e))
    ensures ShippedOnce(Next(c, g, e)) <==> ShippedOnce(g) && !ShipsAgain(c, g, e)
  {
    hide Within, AcceptRoom, KeyOf, Pruned;
    var h := Next(c, g, e);
    if h.shipped != g.shipped {
      var contract := if e.OnOffer? then e.offer.contract else e.lock.contract;
      assert h.shipped == g.shipped + [contract] && contract in h.delivered;
      OneMoreShipped(g.shipped, contract);
    }
  }

  lemma OneMoreShipped(shipped: seq<string>, contract: string)
    ensures (forall i, j :: 0 <= i < j < |shipped + [contract]| ==> (shipped + [contract])[i] != (shipped + [contract])[j]) <==>
      (forall i, j :: 0 <= i < j < |shipped| ==> shipped[i] != shipped[j]) && contract !in shipped
  {
    var more := shipped + [contract];
    assert forall i :: 0 <= i < |shipped| ==> more[i] == shipped[i];
    assert more[|shipped|] == contract;
  }

  /** No deliverable is posted twice, whichever of accept and lock ships it, exactly when no
      accepted offer carries the id of a contract already shipped; the lock path never does. */
  lemma {:induction false} DeliveredOnce(c: Config, events: seq<Event>)
    ensures ShippedRecorded(Run(c, events))
    ensures ShippedOnce(Run(c, events)) <==> NeverShipsAgain(c, events)
  {
    hide Next, ShipsAgain, ShippedRecorded, ShippedOnce;
    if events == [] {
      NothingShipped();
    } else {
      DeliveredOnce(c, events[..|events| - 1]);
      StepShipped(c, Run(c, events[..|events| - 1]), events[|events| - 1]);
    }
  }

  lemma NothingShipped()
    ensures ShippedRecorded(IDLE) && ShippedOnce(IDLE)
  {
  }

  lemma OneByOne(c: Config, a: Event, b: Event)
    ensures Run(c, [a, b]) == Next(c, Next(c, IDLE, a), b)
  {
    hide Next;
    assert [a, b][..1] == [a] && [a][..0] == [] && Run(c, []) == IDLE;
    assert Run(c, [a]) == Next(c, IDLE, a);
  }

  /** An offer that clears every gate, with the given author's nonce. */
  function SampleOffer(nonce: string): Offer {
    Offer(true, false, "a", nonce, "i", "0x1", 0, 0, 0, true, Some(0), true, true, true)
  }

  lemma SampleFirst()
    ensures Next(Config(9, 0, 9, 0), IDLE, OnOffer(SampleOffer("1"))) ==
      Gate(map["0x1" := Deal(0, true, false)], {"a|1"}, [0], {"0x1"}, [Post(0, false, "a|1")], ["0x1"])
  {
    var c, o := Config(9, 0, 9, 0), SampleOffer("1");
    assert Gated(c, IDLE, o) == (IDLE, true);
    assert KeyOf(o) == "a|1";
  }

  lemma SampleSecond(g: Gate)
    requires g.times == [0] && g.seen == {"a|1"} && g.active.Keys == {"0x1"} && g.shipped == ["0x1"]
    ensures Next(Config(9, 0, 9, 0), g, OnOffer(SampleOffer("2"))).shipped == ["0x1", "0x1"]
  {
    assert Within([0], 0, HOUR) == [0];
    assert KeyOf(SampleOffer("2")) == "a|2" && "a|2"[2] != "a|1"[2];
    hide Within;
  }

  /** The failing input: two offers of different nonces under one contract id, which needs a
      collision of the hash behind the id. */
  lemma SharedIdShipsTwice()
    ensures Run(Config(9, 0, 9, 0), [OnOffer(SampleOffer("1")), OnOffer(SampleOffer("2"))]).shipped == ["0x1", "0x1"]
  {
    hide Next, Run, SampleOffer;
    OneByOne(Config(9, 0, 9, 0), OnOffer(SampleOffer("1")), OnOffer(SampleOffer("2")));
    SampleFirst();
    SampleSecond(Next(Config(9, 0, 9, 0), IDLE, OnOffer(SampleOffer("1"))));
  }

  // ----- the rolling quota

  predicate Ordered(o: Offer) {
    o.checked <= o.pruned <= o.begun && (o.sent != None ==> o.begun <= o.sent.value)
  }

  function EndOf(o: Offer): int {
    if o.sent == None then o.begun else o.sent.value
  }

  /** The clock never runs backwards over the offers handled. */
  ghost predicate Clocked(events: seq<Event>) {
    (forall i :: 0 <= i < |events| && events[i].OnOffer? ==> Ordered(events[i].offer)) &&
    (forall i, j :: 0 <= i < j < |events| && events[i].OnOffer? && events[j].OnOffer? ==>
      EndOf(events[i].offer) <= events[j].offer.checked)
  }

  /** The most posts a window may hold that ends with the given one. */
  function Ceiling(c: Config, validation: bool): int {
    c.cap + if validation then Max(0, c.reserve) else 0
  }

  ghost predicate WindowsFit(c: Config, posts: seq<Post>) {
    forall i, j :: 0 <= i <= j < |posts| && posts[j].at - posts[i].at < HOUR ==>
      j - i + 1 <= Ceiling(c, posts[j].validation)
  }

  ghost predicate SortedPosts(posts: seq<Post>) {
    forall i, j :: 0 <= i < j < |posts| ==> posts[i].at <= posts[j].at
  }

  /** The remembered times are the latest posts; everything forgotten is an hour old. */
  ghost predicate Remembers(posts: seq<Post>, times: seq<int>, now: int) {
    SortedPosts(posts) && |times| <= |posts| &&
    (forall i :: 0 <= i < |times| ==> times[i] == posts[|posts| - |times| + i].at) &&
    (forall i :: 0 <= i < |posts| ==> posts[i].at <= now) &&
    (forall i :: 0 <= i < |posts| - |times| ==> now - posts[i].at >= HOUR)
  }

  lemma RememberedSorted(posts: seq<Post>, times: seq<int>, now: int)
    requires Remembers(posts, times, now)
    ensures SortedTimes(times)
  {
  }

  ghost predicate RecentCounted(posts: seq<Post>, times: seq<int>, now: int) {
    forall i :: 0 <= i < |posts| && now - posts[i].at < HOUR ==> |posts| - i <= |times|
  }

  lemma RecentRemembers(posts: seq<Post>, times: seq<int>, last: int, now: int)
    requires Remembers(posts, times, last) && last <= now
    ensures Remembers(posts, Within(times, now, HOUR), now) && RecentCounted(posts, Within(times, now, HOUR), now)
  {
    hide SortedPosts;
    RememberedSorted(posts, times, last);
    var m := WithinSuffix(times, now, HOUR);
    var k := |posts| - |times|;
    forall i | 0 <= i < k + m ensures now - posts[i].at >= HOUR {
      if i >= k {
        assert times[i - k] == posts[k + (i - k)].at;
      }
    }
    forall i | 0 <= i < |times[m..]| ensures times[m..][i] == posts[|posts| - |times[m..]| + i].at {
      assert times[m..][i] == times[m + i];
    }
  }

  lemma PostRemembers(posts: seq<Post>, times: seq<int>, now: int, p: Post)
    requires Remembers(posts, times, now) && p.at >= now
    ensures Remembers(posts + [p], times + [p.at], p.at)
  {
  }

  lemma PostFits(c: Config, posts: seq<Post>, times: seq<int>, now: int, p: Post)
    requires WindowsFit(c, posts) && RecentCounted(posts, times, now) && p.at >= now
    requires AcceptRoom(c.cap, |times|, if p.validation then c.reserve else 0)
    ensures WindowsFit(c, posts + [p])
  {
    var all := posts + [p];
    forall i, j | 0 <= i <= j < |all| && all[j].at - all[i].at < HOUR
      ensures j - i + 1 <= Ceiling(c, all[j].validation)
    {
      if j < |posts| {
        assert all[j] == posts[j] && all[i] == posts[i];
      } else if i < |posts| {
        assert all[i] == posts[i];
        assert now - posts[i].at < HOUR;
      }
    }
  }

  lemma StillRemembers(posts: seq<Post>, times: seq<int>, last: int, now: int)
    requires Remembers(posts, times, last) && last <= now
    ensures Remembers(posts, times, now)
  {
  }

  lemma OfferRemembers(c: Config, g: Gate, o: Offer)
    requires Remembers(g.posts, g.times, o.checked) && WindowsFit(c, g.posts) && Ordered(o)
    ensures var next := AfterOffer(c, g, o);
      Remembers(next.posts, next.times, EndOf(o)) && WindowsFit(c, next.posts)
  {
    hide Remembers, WindowsFit, Within, Pruned, AcceptRoom, KeyOf;
    var times := if o.cleared then Within(g.times, o.checked, HOUR) else g.times;
    var next := AfterOffer(c, g, o);
    if o.cleared {
      RecentRemembers(g.posts, g.times, o.checked, o.checked);
    }
    if next.posts == g.posts {
      StillRemembers(g.posts, times, o.checked, EndOf(o));
    } else {
      var p := Post(o.sent.value, o.validation, KeyOf(o));
      PostRemembers(g.posts, times, o.checked, p);
      PostFits(c, g.posts, times, o.checked, p);
    }
  }

  ghost predicate EndedBy(events: seq<Event>, now: int) {
    forall i :: 0 <= i < |events| && events[i].OnOffer? ==> EndOf(events[i].offer) <= now
  }

  lemma {:induction false} QuotaHolds(c: Config, events: seq<Event>, now: int)
    requires Clocked(events) && EndedBy(events, now)
    ensures var g := Run(c, events); Remembers(g.posts, g.times, now) && WindowsFit(c, g.posts)
  {
    hide Remembers, WindowsFit, AfterOffer;
    if events == [] {
      NothingRemembered(c, now);
    } else {
      var n := |events| - 1;
      var fewer, e := events[..n], events[n];
      assert forall i :: 0 <= i < n ==> fewer[i] == events[i];
      if e.OnOffer? {
        QuotaHolds(c, fewer, e.offer.checked);
        OfferRemembers(c, Run(c, fewer), e.offer);
        var next := Run(c, events);
        StillRemembers(next.posts, next.times, EndOf(e.offer), now);
      } else {
        QuotaHolds(c, fewer, now);
      }
    }
  }

  lemma NothingRemembered(c: Config, now: int)
    ensures Remembers([], [], now) && WindowsFit(c, [])
  {
  }

  /** The accepts posted from a moment on and within the hour that follows. */
  function InHour(posts: seq<Post>, from: int): seq<Post> {
    if posts == [] then []
    else
      var p := posts[|posts| - 1];
      InHour(posts[..|posts| - 1], from) + (if from <= p.at < from + HOUR then [p] else [])
  }

  /** Posts i to j - 1 are those of the hour; earlier ones are before it, later ones after it. */
  ghost predicate Cuts(posts: seq<Post>, from: int, i: nat, j: nat) {
    i <= j <= |posts| &&
    (forall k :: 0 <= k < i ==> posts[k].at < from) &&
    (forall k :: i <= k < j ==> from <= posts[k].at < from + HOUR) &&
    (forall k :: j <= k < |posts| ==> posts[k].at >= from + HOUR)
  }

  /** The first post not before a moment. */
  lemma FirstFrom(posts: seq<Post>, t: int) returns (i: nat)
    requires SortedPosts(posts)
    ensures i <= |posts|
    ensures forall k :: 0 <= k < i ==> posts[k].at < t
    ensures forall k :: i <= k < |posts| ==> posts[k].at >= t
  {
    i := 0;
    while i < |posts| && posts[i].at < t
      invariant i <= |posts|
      invariant forall k :: 0 <= k < i ==> posts[k].at < t
    {
      i := i + 1;
    }
  }

  lemma LastPost(posts: seq<Post>, from: int)
    requires posts != []
    ensures var n := |posts| - 1;
      InHour(posts, from) == InHour(posts[..n], from) + (if from <= posts[n].at < from + HOUR then [posts[n]] else [])
  {
  }

  lemma CutsInit(posts: seq<Post>, from: int, i: nat, j: nat)
    requires Cuts(posts, from, i, j) && posts != []
    ensures var n := |posts| - 1;
      Cuts(posts[..n], from, if i <= n then i else n, if j <= n then j else n) &&
      (j <= n ==> posts[n].at >= from + HOUR) && (i <= n < j ==> from <= posts[n].at < from + HOUR) &&
      (i > n ==> posts[n].at < from)
  {
  }

  lemma {:induction false} HourIsSlice(posts: seq<Post>, from: int, i: nat, j: nat)
    requires i <= j <= |posts| && Cuts(posts, from, i, j)
    ensures InHour(posts, from) == posts[i..j]
  {
    hide Cuts, InHour;
    if posts == [] {
      NoPosts(from);
    } else {
      var n := |posts| - 1;
      var init := posts[..n];
      LastPost(posts, from);
      CutsInit(posts, from, i, j);
      if j <= n {
        HourIsSlice(init, from, i, j);
        SliceOfInit(posts, i, j);
      } else if i <= n {
        HourIsSlice(init, from, i, n);
        SliceOfInit(posts, i, n);
        assert posts[i..n] + [posts[n]] == posts[i..j];
      } else {
        HourIsSlice(init, from, n, n);
        assert init[n..n] == [] && posts[i..j] == [];
      }
    }
  }

  lemma SliceOfInit(posts: seq<Post>, i: nat, j: nat)
    requires i <= j < |posts|
    ensures posts[..|posts| - 1][i..j] == posts[i..j]
  {
  }

  lemma NoPosts(from: int)
    ensures InHour([], from) == []
  {
  }

  lemma {:induction false} SomeEnd(events: seq<Event>) returns (now: int)
    ensures EndedBy(events, now)
  {
    now := 0;
    if events != [] {
      var n := |events| - 1;
      now := SomeEnd(events[..n]);
      assert forall i :: 0 <= i < n ==> events[..n][i] == events[i];
      if events[n].OnOffer? {
        now := Max(now, EndOf(events[n].offer));
      }
    }
  }

  /** In no hour, wherever it begins, does the agent post more accepts than its cap and its
      validation reserve together, nor more than its cap up to one that is not a validation. */
  lemma HourlyQuota(c: Config, events: seq<Event>, from: int)
    requires Clocked(events)
    ensures var hour := InHour(Run(c, events).posts, from);
      (hour != [] ==> |hour| <= c.cap + Max(0, c.reserve)) &&
      (forall k :: 0 <= k < |hour| && !hour[k].validation ==> k < c.cap)
  {
    hide Run, InHour, Clocked;
    var now := SomeEnd(events);
    QuotaHolds(c, events, now);
    var posts := Run(c, events).posts;
    var i := FirstFrom(posts, from);
    var j := FirstFrom(posts, from + HOUR);
    assert i > 0 ==> posts[i - 1].at < from;
    HourIsSlice(posts, from, i, j);
    if i < j {
      assert posts[j - 1].at - posts[i].at < HOUR;
      assert j - 1 - i + 1 <= Ceiling(c, posts[j - 1].validation);
    }
    forall k | 0 <= k < j - i && !posts[i..j][k].validation ensures k < c.cap {
      assert posts[i + k].at - posts[i].at < HOUR;
      assert i + k - i + 1 <= Ceiling(c, posts[i + k].validation);
    }
  }
}
