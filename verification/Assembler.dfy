/** Greedy assembly of context segments under a token budget. */
module Assembler {
  import opened Windows

  datatype Reason = Included | UntrustedExceeded | BudgetExceeded

  /** A segment; only the reason it was kept or dropped ever changes. */
  class ContextSegment {
    const kind: string
    const tokens: nat
    const relevance: real
    const untrusted: bool
    var reason: Reason

    constructor (kind: string, tokens: nat, relevance: real, untrusted: bool)
      ensures this.kind == kind && this.tokens == tokens && this.relevance == relevance
      ensures this.untrusted == untrusted && reason == Included
    {
      this.kind, this.tokens, this.relevance, this.untrusted := kind, tokens, relevance, untrusted;
      reason := Included;
    }
  }

  const OUTPUT_RESERVE := 2048

  const SEQUENCE := ["system_policy", "task_goal", "conversation_window", "episodic_memory", "semantic_memory",
                     "procedural_memory", "memory", "tool_schemas", "untrusted"]

  predicate Critical(s: ContextSegment) {
    s.kind == "system_policy" || s.kind == "task_goal"
  }

  // ----- the order

  function OfKind(segments: seq<ContextSegment>, kind: string): seq<ContextSegment> {
    if segments == [] then []
    else
      var s := segments[|segments| - 1];
      OfKind(segments[..|segments| - 1], kind) + (if s.kind == kind then [s] else [])
  }

  function Grouped(kinds: seq<string>, segments: seq<ContextSegment>): seq<ContextSegment> {
    if kinds == [] then []
    else Grouped(kinds[..|kinds| - 1], segments) + OfKind(segments, kinds[|kinds| - 1])
  }

  /** The kinds present, in order of first appearance. */
  function Kinds(segments: seq<ContextSegment>): seq<string> {
    if segments == [] then []
    else
      var before, s := Kinds(segments[..|segments| - 1]), segments[|segments| - 1];
      if s.kind in before then before else before + [s.kind]
  }

  function Unlisted(kinds: seq<string>): seq<string> {
    if kinds == [] then []
    else
      var k := kinds[|kinds| - 1];
      Unlisted(kinds[..|kinds| - 1]) + (if k in SEQUENCE then [] else [k])
  }

  /** A stable sort by falling relevance. */
  function Placed(sorted: seq<ContextSegment>, s: ContextSegment): seq<ContextSegment> {
    if sorted == [] || sorted[|sorted| - 1].relevance >= s.relevance then sorted + [s]
    else Placed(sorted[..|sorted| - 1], s) + [sorted[|sorted| - 1]]
  }

  function ByRelevance(segments: seq<ContextSegment>): seq<ContextSegment> {
    if segments == [] then [] else Placed(ByRelevance(segments[..|segments| - 1]), segments[|segments| - 1])
  }

  function Ordering(segments: seq<ContextSegment>): seq<ContextSegment> {
    Grouped(SEQUENCE, segments) + ByRelevance(Grouped(Unlisted(Kinds(segments)), segments))
  }

  // ----- the selection

  function Decide(s: ContextSegment, used: nat, untrustedUsed: nat, budget: nat): Reason {
    if s.untrusted && untrustedUsed + s.tokens > budget / 4 then UntrustedExceeded
    else if used + s.tokens > budget && !Critical(s) then BudgetExceeded
    else Included
  }

  function UntrustedTokens(s: ContextSegment): nat {
    if s.untrusted then s.tokens else 0
  }

  /** The decision on each segment in turn. */
  function Decisions(order: seq<ContextSegment>, used: nat, untrustedUsed: nat, budget: nat): (r: seq<Reason>)
    ensures |r| == |order|
  {
    if order == [] then []
    else
      var s := order[0];
      var d := Decide(s, used, untrustedUsed, budget);
      var (u, v) := if d == Included then (used + s.tokens, untrustedUsed + UntrustedTokens(s)) else (used, untrustedUsed);
      [d] + Decisions(order[1..], u, v, budget)
  }

  function Kept(order: seq<ContextSegment>, decisions: seq<Reason>): seq<ContextSegment>
    requires |order| == |decisions|
  {
    if order == [] then []
    else (if decisions[0] == Included then [order[0]] else []) + Kept(order[1..], decisions[1..])
  }

  function Total(segments: seq<ContextSegment>): nat {
    if segments == [] then 0 else segments[0].tokens + Total(segments[1..])
  }

  function UntrustedTotal(segments: seq<ContextSegment>): nat {
    if segments == [] then 0 else UntrustedTokens(segments[0]) + UntrustedTotal(segments[1..])
  }

  function CriticalTotal(segments: seq<ContextSegment>): nat {
    if segments == [] then 0
    else (if Critical(segments[0]) then segments[0].tokens else 0) + CriticalTotal(segments[1..])
  }

  function Selection(order: seq<ContextSegment>, budget: nat): seq<ContextSegment> {
    Kept(order, Decisions(order, 0, 0, budget))
  }

  // ----- the assembler

  class ContextAssembler {
    const maxTokens: nat
    var segments: seq<ContextSegment>

    constructor (requested: int)
      ensures maxTokens >= 3072 && maxTokens >= requested
      ensures maxTokens == 3072 || maxTokens == requested
      ensures segments == []
    {
      maxTokens := if requested > OUTPUT_RESERVE + 1024 then requested else OUTPUT_RESERVE + 1024;
      segments := [];
    }

    function Budget(): (budget: nat)
      ensures maxTokens > 2048 ==> budget + 2048 == maxTokens
      ensures maxTokens <= 2048 ==> budget == 0
    {
      if maxTokens >= OUTPUT_RESERVE then maxTokens - OUTPUT_RESERVE else 0
    }

    ghost predicate Distinct()
      reads this
    {
      forall i, j :: 0 <= i < j < |segments| ==> segments[i] != segments[j]
    }

    /** Appends a new segment; nothing is ever overwritten. */
    method Add(kind: string, tokens: nat, relevance: real, untrusted: bool)
      requires Distinct()
      modifies this`segments
      ensures Distinct() && |segments| == |old(segments)| + 1 && old(segments) < segments
      ensures fresh(segments[|segments| - 1]) && segments[|segments| - 1].reason == Included
      ensures segments[|segments| - 1].kind == kind && segments[|segments| - 1].tokens == tokens
      ensures segments[|segments| - 1].relevance == relevance
      ensures segments[|segments| - 1].untrusted <==>
        untrusted || kind in ["untrusted", "tool_output", "external_data"]
    {
      var s := new ContextSegment(kind, tokens, relevance,
        untrusted || kind in ["untrusted", "tool_output", "external_data"]);
      segments := segments + [s];
    }

    /** Segments by kind, the kinds in order of first appearance. */
    method Group() returns (keys: seq<string>, groups: map<string, seq<ContextSegment>>)
      ensures keys == Kinds(segments)
      ensures forall k :: k in groups <==> k in keys
      ensures forall k :: k in groups ==> groups[k] == OfKind(segments, k)
    {
      keys, groups := [], map[];
      var i := 0;
      while i < |segments|
        invariant 0 <= i <= |segments|
        invariant keys == Kinds(segments[..i])
        invariant forall k :: k in groups <==> k in keys
        invariant forall k :: k in groups ==> groups[k] == OfKind(segments[..i], k)
      {
        var s := segments[i];
        TakeOne(segments, i);
        if s.kind !in groups {
          keys := keys + [s.kind];
          AbsentKind(segments[..i], s.kind);
          groups := groups[s.kind := []];
        }
        groups := groups[s.kind := groups[s.kind] + [s]];
        i := i + 1;
      }
      assert segments[..i] == segments;
    }

    /** The groups of the listed kinds, in the order of the list. */
    method Listed(groups: map<string, seq<ContextSegment>>) returns (listed: seq<ContextSegment>)
      requires forall k :: k in groups <==> k in Kinds(segments)
      requires forall k :: k in groups ==> groups[k] == OfKind(segments, k)
      ensures listed == Grouped(SEQUENCE, segments)
    {
      hide OfKind, Kinds;
      listed := [];
      var k := 0;
      while k < |SEQUENCE|
        invariant 0 <= k <= |SEQUENCE|
        invariant listed == Grouped(SEQUENCE[..k], segments)
      {
        GroupedNext(SEQUENCE, k, segments);
        if SEQUENCE[k] in groups {
          listed := listed + groups[SEQUENCE[k]];
        } else {
          AbsentKind(segments, SEQUENCE[k]);
        }
        k := k + 1;
      }
      assert SEQUENCE[..k] == SEQUENCE;
    }

    /** The groups of all other kinds, in order of first appearance. */
    method Remaining(keys: seq<string>, groups: map<string, seq<ContextSegment>>) returns (remaining: seq<ContextSegment>)
      requires forall k :: k in keys ==> k in groups
      requires forall k :: k in groups ==> groups[k] == OfKind(segments, k)
      ensures remaining == Grouped(Unlisted(keys), segments)
    {
      hide OfKind, Grouped;
      remaining := [];
      var m := 0;
      assert Unlisted(keys[..0]) == [];
      GroupedNone(segments);
      while m < |keys|
        invariant 0 <= m <= |keys|
        invariant remaining == Grouped(Unlisted(keys[..m]), segments)
      {
        UnlistedNext(keys, m, segments);
        if keys[m] !in SEQUENCE {
          remaining := remaining + groups[keys[m]];
        }
        m := m + 1;
      }
      assert keys[..m] == keys;
    }

    /** The order in which segments are considered. */
    method Arrange() returns (all: seq<ContextSegment>)
      ensures all == Ordering(segments)
    {
      hide OfKind, Kinds, Grouped, Unlisted, ByRelevance;
      var keys, groups := Group();
      var listed := Listed(groups);
      var remaining := Remaining(keys, groups);
      all := listed + ByRelevance(remaining);
    }

    method Assemble() returns (ordered: seq<ContextSegment>)
      requires Distinct()
      modifies segments
      ensures ordered == Selection(Ordering(segments), Budget())
      ensures forall i :: 0 <= i < |Ordering(segments)| && Ordering(segments)[i] in segments ==>
        var s, d := Ordering(segments)[i], Decisions(Ordering(segments), 0, 0, Budget())[i];
        s.reason == if d == Included then old(s.reason) else d
    {
      hide Ordering, Decisions, Kept;
      var all := Arrange();
      OrderingDistinct(segments);
      OrderingMembers(segments);
      ghost var decisions := Decisions(all, 0, 0, Budget());
      var budget := Budget();
      var used: nat, untrustedUsed: nat := 0, 0;
      ordered := [];
      var i := 0;
      KeptNothing(all[..0], decisions[..0]);
      while i < |all|
        invariant 0 <= i <= |all|
        invariant decisions[i..] == Decisions(all[i..], used, untrustedUsed, budget)
        invariant ordered == Kept(all[..i], decisions[..i])
        invariant forall k :: 0 <= k < i ==>
          all[k].reason == if decisions[k] == Included then old(all[k].reason) else decisions[k]
        invariant forall k :: i <= k < |all| ==> all[k].reason == old(all[k].reason)
      {
        var seg := all[i];
        DecisionsNext(all, decisions, i, used, untrustedUsed, budget);
        KeptNext(all, decisions, i);
        if seg.untrusted && untrustedUsed + seg.tokens > budget / 4 {
          seg.reason := UntrustedExceeded;
        } else if used + seg.tokens > budget && seg.kind !in ["system_policy", "task_goal"] {
          seg.reason := BudgetExceeded;
        } else {
          ordered := ordered + [seg];
          used := used + seg.tokens;
          if seg.untrusted {
            untrustedUsed := untrustedUsed + seg.tokens;
          }
        }
        i := i + 1;
      }
      assert all[..i] == all && decisions[..i] == decisions;
    }
  }

  lemma DecisionsNext(all: seq<ContextSegment>, decisions: seq<Reason>, i: nat, used: nat, untrustedUsed: nat, budget: nat)
    requires |decisions| == |all| && i < |all|
    requires decisions[i..] == Decisions(all[i..], used, untrustedUsed, budget)
    ensures decisions[i] == Decide(all[i], used, untrustedUsed, budget)
    ensures decisions[i] == Included ==>
      decisions[i + 1..] == Decisions(all[i + 1..], used + all[i].tokens, untrustedUsed + UntrustedTokens(all[i]), budget)
    ensures decisions[i] != Included ==> decisions[i + 1..] == Decisions(all[i + 1..], used, untrustedUsed, budget)
  {
    assert all[i..][0] == all[i] && all[i..][1..] == all[i + 1..];
    assert decisions[i..][0] == decisions[i] && decisions[i..][1..] == decisions[i + 1..];
  }

  lemma KeptNothing(order: seq<ContextSegment>, decisions: seq<Reason>)
    requires order == [] && decisions == []
    ensures Kept(order, decisions) == []
  {
  }

  lemma {:induction false} KeptNext(all: seq<ContextSegment>, decisions: seq<Reason>, i: nat)
    requires |decisions| == |all| && i < |all|
    ensures Kept(all[..i + 1], decisions[..i + 1]) ==
            Kept(all[..i], decisions[..i]) + (if decisions[i] == Included then [all[i]] else [])
    decreases i
  {
    if i > 0 {
      KeptNext(all[1..], decisions[1..], i - 1);
      assert all[..i + 1][1..] == all[1..][..i] && decisions[..i + 1][1..] == decisions[1..][..i];
      assert all[..i][1..] == all[1..][..i - 1] && decisions[..i][1..] == decisions[1..][..i - 1];
    }
  }

  lemma GroupedNext(kinds: seq<string>, k: nat, segments: seq<ContextSegment>)
    requires k < |kinds|
    ensures Grouped(kinds[..k + 1], segments) == Grouped(kinds[..k], segments) + OfKind(segments, kinds[k])
  {
    assert kinds[..k + 1][..k] == kinds[..k];
  }

  lemma UnlistedNext(kinds: seq<string>, m: nat, segments: seq<ContextSegment>)
    requires m < |kinds|
    ensures Grouped(Unlisted(kinds[..m + 1]), segments) ==
            Grouped(Unlisted(kinds[..m]), segments) + (if kinds[m] in SEQUENCE then [] else OfKind(segments, kinds[m]))
  {
    var longer, u := kinds[..m + 1], Unlisted(kinds[..m]);
    assert longer[..m] == kinds[..m] && longer[m] == kinds[m];
    if kinds[m] in SEQUENCE {
      assert Unlisted(longer) == u;
    } else {
      assert Unlisted(longer) == u + [kinds[m]];
      assert (u + [kinds[m]])[..|u|] == u;
    }
  }

  lemma TakeOne(segments: seq<ContextSegment>, i: nat)
    requires i < |segments|
    ensures segments[..i + 1][..i] == segments[..i]
  {
  }

  lemma {:induction false} AbsentKind(segments: seq<ContextSegment>, kind: string)
    requires kind !in Kinds(segments)
    ensures OfKind(segments, kind) == []
  {
    if segments != [] {
      AbsentKind(segments[..|segments| - 1], kind);
    }
  }

  // ----- the order is a permutation

  predicate NoRepeats(kinds: seq<string>) {
    forall i, j :: 0 <= i < j < |kinds| ==> kinds[i] != kinds[j]
  }

  lemma {:induction false} GroupedPush(kinds: seq<string>, segments: seq<ContextSegment>, s: ContextSegment)
    requires NoRepeats(kinds)
    ensures multiset(Grouped(kinds, segments + [s])) ==
            multiset(Grouped(kinds, segments)) + (if s.kind in kinds then multiset{s} else multiset{})
  {
    hide OfKind;
    if kinds != [] {
      var n := |kinds| - 1;
      assert kinds == kinds[..n] + [kinds[n]];
      GroupedPush(kinds[..n], segments, s);
      OfKindPush(segments, s, kinds[n]);
    }
  }

  lemma OfKindPush(segments: seq<ContextSegment>, s: ContextSegment, kind: string)
    ensures OfKind(segments + [s], kind) == OfKind(segments, kind) + (if s.kind == kind then [s] else [])
  {
    assert (segments + [s])[..|segments|] == segments;
  }

  lemma {:induction false} PlacedPermutes(sorted: seq<ContextSegment>, s: ContextSegment)
    ensures multiset(Placed(sorted, s)) == multiset(sorted) + multiset{s}
  {
    if sorted != [] {
      var n := |sorted| - 1;
      assert sorted == sorted[..n] + [sorted[n]];
      PlacedPermutes(sorted[..n], s);
    }
  }

  lemma {:induction false} ByRelevancePermutes(segments: seq<ContextSegment>)
    ensures multiset(ByRelevance(segments)) == multiset(segments)
  {
    if segments != [] {
      var n := |segments| - 1;
      assert segments == segments[..n] + [segments[n]];
      ByRelevancePermutes(segments[..n]);
      PlacedPermutes(ByRelevance(segments[..n]), segments[n]);
    }
  }

  lemma {:induction false} KindsDistinct(segments: seq<ContextSegment>)
    ensures NoRepeats(Kinds(segments)) && NoRepeats(Unlisted(Kinds(segments)))
  {
    if segments != [] {
      KindsDistinct(segments[..|segments| - 1]);
    }
    UnlistedDistinct(Kinds(segments));
  }

  lemma {:induction false} UnlistedDistinct(kinds: seq<string>)
    requires NoRepeats(kinds)
    ensures NoRepeats(Unlisted(kinds))
    ensures forall k :: k in Unlisted(kinds) <==> k in kinds && k !in SEQUENCE
  {
    if kinds != [] {
      var n := |kinds| - 1;
      UnlistedDistinct(kinds[..n]);
      assert kinds == kinds[..n] + [kinds[n]];
    }
  }

  lemma SequenceDistinct()
    ensures NoRepeats(SEQUENCE)
  {
  }

  /** Both groups together hold every segment once. */
  lemma {:induction false} GroupsPermute(segments: seq<ContextSegment>)
    ensures multiset(Grouped(SEQUENCE, segments)) + multiset(Grouped(Unlisted(Kinds(segments)), segments)) ==
            multiset(segments)
  {
    hide NoRepeats, Unlisted, Kinds;
    if segments == [] {
      GroupedNothing(SEQUENCE);
      GroupedNothing(Unlisted(Kinds(segments)));
    } else {
      var n := |segments| - 1;
      var init, s := segments[..n], segments[n];
      assert segments == init + [s];
      GroupsPermute(init);
      GroupsPush(init, s);
    }
  }

  lemma GroupsPush(init: seq<ContextSegment>, s: ContextSegment)
    ensures multiset(Grouped(SEQUENCE, init + [s])) + multiset(Grouped(Unlisted(Kinds(init + [s])), init + [s])) ==
            multiset(Grouped(SEQUENCE, init)) + multiset(Grouped(Unlisted(Kinds(init)), init)) + multiset{s}
  {
    hide NoRepeats, Unlisted, Kinds, Grouped, SEQUENCE;
    var others := Unlisted(Kinds(init));
    SequenceDistinct();
    KindsDistinct(init);
    UnlistedDistinct(Kinds(init));
    GroupedPush(SEQUENCE, init, s);
    GroupedPush(others, init, s);
    if s.kind !in Kinds(init) && s.kind !in SEQUENCE {
      NewGroup(init, s, others);
    } else {
      SameGroups(init, s);
    }
  }

  lemma GroupedNone(segments: seq<ContextSegment>)
    ensures Grouped([], segments) == []
  {
  }

  lemma {:induction false} GroupedNothing(kinds: seq<string>)
    ensures Grouped(kinds, []) == []
  {
    if kinds != [] {
      GroupedNothing(kinds[..|kinds| - 1]);
    }
  }

  lemma SameGroups(init: seq<ContextSegment>, s: ContextSegment)
    requires s.kind in Kinds(init) || s.kind in SEQUENCE
    ensures Unlisted(Kinds(init + [s])) == Unlisted(Kinds(init))
  {
    assert (init + [s])[..|init|] == init;
    assert (Kinds(init) + [s.kind])[..|Kinds(init)|] == Kinds(init);
  }

  lemma NewGroup(init: seq<ContextSegment>, s: ContextSegment, others: seq<string>)
    requires s.kind !in Kinds(init) && s.kind !in SEQUENCE && others == Unlisted(Kinds(init))
    ensures multiset(Grouped(Unlisted(Kinds(init + [s])), init + [s])) ==
            multiset(Grouped(others, init + [s])) + multiset{s}
  {
    assert (init + [s])[..|init|] == init;
    assert (Kinds(init) + [s.kind])[..|Kinds(init)|] == Kinds(init);
    assert Unlisted(Kinds(init + [s])) == others + [s.kind];
    assert (others + [s.kind])[..|others|] == others;
    AbsentKind(init, s.kind);
    assert OfKind(init + [s], s.kind) == [s];
  }

  /** Ordering loses and repeats nothing. */
  lemma OrderingPermutes(segments: seq<ContextSegment>)
    ensures multiset(Ordering(segments)) == multiset(segments)
  {
    hide Grouped, Unlisted, Kinds, ByRelevance;
    GroupsPermute(segments);
    ByRelevancePermutes(Grouped(Unlisted(Kinds(segments)), segments));
  }

  lemma OrderingDistinct(segments: seq<ContextSegment>)
    requires forall i, j :: 0 <= i < j < |segments| ==> segments[i] != segments[j]
    ensures forall i, j :: 0 <= i < j < |Ordering(segments)| ==> Ordering(segments)[i] != Ordering(segments)[j]
  {
    hide Ordering;
    OrderingPermutes(segments);
    DistinctCounts(segments);
    CountsDistinct(Ordering(segments));
  }

  lemma {:induction false} DistinctCounts(s: seq<ContextSegment>)
    requires forall i, j :: 0 <= i < j < |s| ==> s[i] != s[j]
    ensures forall x :: multiset(s)[x] <= 1
  {
    if s != [] {
      var n := |s| - 1;
      DistinctCounts(s[..n]);
      assert s == s[..n] + [s[n]];
      assert s[n] !in s[..n];
    }
  }

  lemma CountsDistinct(s: seq<ContextSegment>)
    requires forall x :: multiset(s)[x] <= 1
    ensures forall i, j :: 0 <= i < j < |s| ==> s[i] != s[j]
  {
    forall i, j | 0 <= i < j < |s| ensures s[i] != s[j] {
      assert s == s[..i] + [s[i]] + s[i + 1..j] + [s[j]] + s[j + 1..];
      assert s[i] == s[j] ==> multiset(s)[s[i]] >= 2;
    }
  }

  lemma OrderingMembers(segments: seq<ContextSegment>)
    ensures forall i :: 0 <= i < |Ordering(segments)| ==> Ordering(segments)[i] in segments
  {
    hide Ordering;
    OrderingPermutes(segments);
    forall i | 0 <= i < |Ordering(segments)| ensures Ordering(segments)[i] in segments {
      assert Ordering(segments)[i] in multiset(Ordering(segments));
    }
  }

  // ----- what the order and the selection guarantee

  ghost predicate Falling(segments: seq<ContextSegment>) {
    forall i, j :: 0 <= i < j < |segments| ==> segments[i].relevance >= segments[j].relevance
  }

  /** Segments of one relevance, as they come. */
  function OfRelevance(segments: seq<ContextSegment>, r: real): seq<ContextSegment> {
    if segments == [] then []
    else
      var s := segments[|segments| - 1];
      OfRelevance(segments[..|segments| - 1], r) + (if s.relevance == r then [s] else [])
  }

  lemma {:induction false} PlacedFalling(sorted: seq<ContextSegment>, s: ContextSegment)
    requires Falling(sorted)
    ensures Falling(Placed(sorted, s))
    ensures forall i :: 0 <= i < |Placed(sorted, s)| ==>
      Placed(sorted, s)[i].relevance >= s.relevance || (sorted != [] && Placed(sorted, s)[i].relevance >= sorted[|sorted| - 1].relevance)
  {
    if sorted != [] && sorted[|sorted| - 1].relevance < s.relevance {
      PlacedFalling(sorted[..|sorted| - 1], s);
    }
  }

  lemma {:induction false} PlacedStable(sorted: seq<ContextSegment>, s: ContextSegment, r: real)
    requires Falling(sorted)
    ensures OfRelevance(Placed(sorted, s), r) == OfRelevance(sorted, r) + (if s.relevance == r then [s] else [])
  {
    if sorted == [] || sorted[|sorted| - 1].relevance >= s.relevance {
      assert (sorted + [s])[..|sorted|] == sorted;
    } else {
      var n := |sorted| - 1;
      var placed := Placed(sorted[..n], s);
      PlacedStable(sorted[..n], s, r);
      assert (placed + [sorted[n]])[..|placed|] == placed;
      if s.relevance == r {
        assert sorted[n].relevance != r;
      }
    }
  }

  /** The sort by relevance is descending and keeps segments of equal relevance in order. */
  lemma {:induction false} SortStable(segments: seq<ContextSegment>, r: real)
    ensures Falling(ByRelevance(segments))
    ensures OfRelevance(ByRelevance(segments), r) == OfRelevance(segments, r)
  {
    if segments != [] {
      var n := |segments| - 1;
      SortStable(segments[..n], r);
      PlacedFalling(ByRelevance(segments[..n]), segments[n]);
      PlacedStable(ByRelevance(segments[..n]), segments[n], r);
    }
  }

  /** Policy and goal segments come before everything else. */
  ghost predicate CriticalFirst(order: seq<ContextSegment>) {
    forall i, j :: 0 <= i < j < |order| && Critical(order[j]) ==> Critical(order[i])
  }

  lemma GroupedLast(a: seq<string>, b: seq<string>, segments: seq<ContextSegment>)
    requires b != []
    ensures Grouped(a + b, segments) == Grouped(a + b[..|b| - 1], segments) + OfKind(segments, b[|b| - 1])
    ensures Grouped(b, segments) == Grouped(b[..|b| - 1], segments) + OfKind(segments, b[|b| - 1])
  {
    assert (a + b)[..|a + b| - 1] == a + b[..|b| - 1];
    assert (a + b)[|a + b| - 1] == b[|b| - 1];
  }

  lemma {:induction false} GroupedConcat(a: seq<string>, b: seq<string>, segments: seq<ContextSegment>)
    ensures Grouped(a + b, segments) == Grouped(a, segments) + Grouped(b, segments)
    decreases |b|
  {
    hide OfKind;
    if b == [] {
      assert a + b == a;
      assert Grouped(b, segments) == [];
    } else {
      var n := |b| - 1;
      var last := OfKind(segments, b[n]);
      GroupedConcat(a, b[..n], segments);
      GroupedLast(a, b, segments);
      assert Grouped(a, segments) + (Grouped(b[..n], segments) + last) == Grouped(a, segments) + Grouped(b[..n], segments) + last;
    }
  }

  lemma {:induction false} OfKindOnly(segments: seq<ContextSegment>, kind: string)
    ensures forall i :: 0 <= i < |OfKind(segments, kind)| ==> OfKind(segments, kind)[i].kind == kind
  {
    if segments != [] {
      OfKindOnly(segments[..|segments| - 1], kind);
    }
  }

  lemma {:induction false} GroupedOnly(kinds: seq<string>, segments: seq<ContextSegment>)
    ensures forall i :: 0 <= i < |Grouped(kinds, segments)| ==> Grouped(kinds, segments)[i].kind in kinds
  {
    if kinds != [] {
      var n := |kinds| - 1;
      GroupedOnly(kinds[..n], segments);
      OfKindOnly(segments, kinds[n]);
      assert kinds[n] in kinds;
    }
  }

  ghost predicate AllCritical(segments: seq<ContextSegment>, critical: bool) {
    forall i :: 0 <= i < |segments| ==> (Critical(segments[i]) <==> critical)
  }

  lemma OrderingCriticalFirst(segments: seq<ContextSegment>)
    ensures CriticalFirst(Ordering(segments))
  {
    hide Grouped, Kinds, Unlisted, ByRelevance, NoRepeats;
    var first, middle := ["system_policy", "task_goal"], SEQUENCE[2..];
    assert SEQUENCE == first + middle;
    GroupedConcat(first, middle, segments);
    GroupedOnly(first, segments);
    GroupedOnly(middle, segments);
    MiddleNotCritical();
    var others := Unlisted(Kinds(segments));
    KindsDistinct(segments);
    UnlistedDistinct(Kinds(segments));
    GroupedOnly(others, segments);
    var tail := Grouped(others, segments);
    ByRelevancePermutes(tail);
    forall i | 0 <= i < |ByRelevance(tail)| ensures !Critical(ByRelevance(tail)[i]) {
      assert ByRelevance(tail)[i] in multiset(ByRelevance(tail));
      assert ByRelevance(tail)[i] in tail;
    }
    assert AllCritical(Grouped(first, segments), true);
    assert AllCritical(Grouped(middle, segments) + ByRelevance(tail), false);
    CriticalSplit(Grouped(first, segments), Grouped(middle, segments) + ByRelevance(tail));
    assert Ordering(segments) == Grouped(first, segments) + (Grouped(middle, segments) + ByRelevance(tail));
  }

  lemma MiddleNotCritical()
    ensures "system_policy" !in SEQUENCE[2..] && "task_goal" !in SEQUENCE[2..]
    ensures "system_policy" in SEQUENCE && "task_goal" in SEQUENCE
  {
    assert SEQUENCE[0] == "system_policy" && SEQUENCE[1] == "task_goal";
  }

  lemma CriticalSplit(a: seq<ContextSegment>, b: seq<ContextSegment>)
    requires AllCritical(a, true) && AllCritical(b, false)
    ensures CriticalFirst(a + b)
  {
  }

  /** Where a kind belongs: the nine listed kinds in their order, then all others. */
  function Rank(kind: string): nat {
    match kind
    case "system_policy" => 0
    case "task_goal" => 1
    case "conversation_window" => 2
    case "episodic_memory" => 3
    case "semantic_memory" => 4
    case "procedural_memory" => 5
    case "memory" => 6
    case "tool_schemas" => 7
    case "untrusted" => 8
    case _ => 9
  }

  ghost predicate Ranked(order: seq<ContextSegment>) {
    forall i, j :: 0 <= i < j < |order| ==> Rank(order[i].kind) <= Rank(order[j].kind)
  }

  lemma SequenceRanks()
    ensures |SEQUENCE| == 9 && forall i :: 0 <= i < 9 ==> Rank(SEQUENCE[i]) == i
  {
  }

  lemma RankOfUnlisted(kind: string)
    ensures kind !in SEQUENCE ==> Rank(kind) == 9
  {
    if Rank(kind) < 9 {
      assert SEQUENCE[Rank(kind)] == kind;
    }
  }

  lemma {:induction false} GroupedRanked(kinds: seq<string>, segments: seq<ContextSegment>)
    requires forall i, j :: 0 <= i < j < |kinds| ==> Rank(kinds[i]) <= Rank(kinds[j])
    ensures Ranked(Grouped(kinds, segments))
  {
    hide Rank;
    if kinds != [] {
      var n := |kinds| - 1;
      GroupedRanked(kinds[..n], segments);
      GroupedOnly(kinds[..n], segments);
      OfKindOnly(segments, kinds[n]);
    }
  }

  lemma {:induction false} OfKindGrouped(kinds: seq<string>, segments: seq<ContextSegment>, kind: string)
    requires NoRepeats(kinds)
    ensures OfKind(Grouped(kinds, segments), kind) == if kind in kinds then OfKind(segments, kind) else []
  {
    if kinds == [] {
      assert OfKind([], kind) == [];
    } else {
      hide OfKind;
      var n := |kinds| - 1;
      OfKindGrouped(kinds[..n], segments, kind);
      OfKindConcat(Grouped(kinds[..n], segments), OfKind(segments, kinds[n]), kind);
      OfKindTwice(segments, kinds[n], kind);
      assert kind in kinds <==> kind in kinds[..n] || kind == kinds[n];
      assert kind in kinds[..n] ==> kind != kinds[n];
    }
  }

  lemma {:induction false} OfKindConcat(a: seq<ContextSegment>, b: seq<ContextSegment>, kind: string)
    ensures OfKind(a + b, kind) == OfKind(a, kind) + OfKind(b, kind)
  {
    if b == [] {
      assert a + b == a;
    } else {
      assert (a + b)[..|a + b| - 1] == a + b[..|b| - 1];
      OfKindConcat(a, b[..|b| - 1], kind);
    }
  }

  lemma {:induction false} OfKindTwice(segments: seq<ContextSegment>, inner: string, kind: string)
    ensures OfKind(OfKind(segments, inner), kind) == if inner == kind then OfKind(segments, kind) else []
  {
    if segments != [] {
      var n := |segments| - 1;
      OfKindTwice(segments[..n], inner, kind);
      var s := if segments[n].kind == inner then [segments[n]] else [];
      OfKindConcat(OfKind(segments[..n], inner), s, kind);
      assert s != [] ==> s[..0] == [];
    }
  }

  lemma {:induction false} UnlistedAre(kinds: seq<string>)
    ensures forall k :: k in Unlisted(kinds) ==> k !in SEQUENCE
  {
    if kinds != [] {
      UnlistedAre(kinds[..|kinds| - 1]);
    }
  }

  /** The segments of unlisted kinds, by relevance. */
  function Others(segments: seq<ContextSegment>): seq<ContextSegment> {
    ByRelevance(Grouped(Unlisted(Kinds(segments)), segments))
  }

  lemma OthersUnlisted(segments: seq<ContextSegment>)
    ensures forall i :: 0 <= i < |Others(segments)| ==> Others(segments)[i].kind !in SEQUENCE
  {
    var others := Unlisted(Kinds(segments));
    var tail := Grouped(others, segments);
    UnlistedAre(Kinds(segments));
    GroupedOnly(others, segments);
    ByRelevancePermutes(tail);
    hide ByRelevance, Unlisted, Kinds, Grouped, SEQUENCE;
    forall i | 0 <= i < |Others(segments)| ensures Others(segments)[i].kind !in SEQUENCE {
      assert ByRelevance(tail)[i] in multiset(ByRelevance(tail));
      assert ByRelevance(tail)[i] in tail;
    }
  }

  lemma RankedConcat(a: seq<ContextSegment>, b: seq<ContextSegment>)
    requires Ranked(a) && forall i :: 0 <= i < |b| ==> Rank(b[i].kind) == 9
    ensures Ranked(a + b)
  {
    forall i | 0 <= i < |a| ensures Rank(a[i].kind) <= 9 {
      RankBound(a[i].kind);
    }
    hide Rank;
  }

  lemma {:induction false} NoneOfKind(segments: seq<ContextSegment>, kind: string)
    requires forall i :: 0 <= i < |segments| ==> segments[i].kind != kind
    ensures OfKind(segments, kind) == []
  {
    if segments != [] {
      NoneOfKind(segments[..|segments| - 1], kind);
    }
  }

  /** Segments stand in the order of their kinds, unlisted kinds last, and those of one listed kind
      in the order in which they were added. */
  lemma SequenceOrder(segments: seq<ContextSegment>, kind: string)
    ensures Ranked(Ordering(segments))
    ensures Rank(kind) < 9 ==> OfKind(Ordering(segments), kind) == OfKind(segments, kind)
  {
    var listed, others := Grouped(SEQUENCE, segments), Others(segments);
    SequenceRanks();
    GroupedRanked(SEQUENCE, segments);
    OthersUnlisted(segments);
    forall i | 0 <= i < |others| ensures Rank(others[i].kind) == 9 {
      RankOfUnlisted(others[i].kind);
    }
    RankedConcat(listed, others);
    assert Ordering(segments) == listed + others;
    RankOfUnlisted(kind);
    hide Ranked, Rank, Others, Grouped, OfKind, SEQUENCE;
    if Rank(kind) < 9 {
      SequenceDistinct();
      OfKindGrouped(SEQUENCE, segments, kind);
      NoneOfKind(others, kind);
      OfKindConcat(listed, others, kind);
    }
  }

  lemma RankBound(kind: string)
    ensures Rank(kind) <= 9
  {
  }

  function Marked(segments: seq<ContextSegment>): seq<ContextSegment> {
    if segments == [] then [] else (if segments[0].untrusted then [segments[0]] else []) + Marked(segments[1..])
  }

  lemma {:induction false} UntrustedIsMarked(segments: seq<ContextSegment>)
    ensures UntrustedTotal(segments) == Total(Marked(segments))
  {
    if segments != [] {
      UntrustedIsMarked(segments[1..]);
      if segments[0].untrusted {
        assert ([segments[0]] + Marked(segments[1..]))[1..] == Marked(segments[1..]);
      } else {
        assert [] + Marked(segments[1..]) == Marked(segments[1..]);
      }
    }
  }

  predicate Subsequence(a: seq<ContextSegment>, b: seq<ContextSegment>) {
    a == [] || (b != [] && ((a[0] == b[0] && Subsequence(a[1..], b[1..])) || Subsequence(a, b[1..])))
  }

  lemma {:induction false} KeptSubsequence(order: seq<ContextSegment>, decisions: seq<Reason>)
    requires |order| == |decisions|
    ensures Subsequence(Kept(order, decisions), order)
  {
    if order != [] {
      KeptSubsequence(order[1..], decisions[1..]);
      if decisions[0] == Included {
        assert Kept(order, decisions)[1..] == Kept(order[1..], decisions[1..]);
      } else {
        assert Kept(order, decisions) == Kept(order[1..], decisions[1..]);
      }
    }
  }

  lemma KeptFirst(order: seq<ContextSegment>, used: nat, untrustedUsed: nat, budget: nat)
    requires order != []
    ensures var d := Decide(order[0], used, untrustedUsed, budget);
      Kept(order, Decisions(order, used, untrustedUsed, budget)) ==
        if d == Included then
          [order[0]] + Kept(order[1..], Decisions(order[1..], used + order[0].tokens, untrustedUsed + UntrustedTokens(order[0]), budget))
        else Kept(order[1..], Decisions(order[1..], used, untrustedUsed, budget))
  {
    var d := Decisions(order, used, untrustedUsed, budget);
    assert d[1..] == if d[0] == Included
      then Decisions(order[1..], used + order[0].tokens, untrustedUsed + UntrustedTokens(order[0]), budget)
      else Decisions(order[1..], used, untrustedUsed, budget);
  }

  lemma {:induction false} WithinBudget(order: seq<ContextSegment>, used: nat, untrustedUsed: nat, budget: nat)
    requires CriticalFirst(order)
    ensures var kept := Kept(order, Decisions(order, used, untrustedUsed, budget));
      used + Total(kept) <= Max(budget, used + CriticalTotal(kept)) &&
      untrustedUsed + UntrustedTotal(kept) <= Max(budget / 4, untrustedUsed) &&
      (order != [] && !Critical(order[0]) ==> CriticalTotal(kept) == 0)
    decreases |order|
  {
    hide Decisions, Kept;
    if order == [] {
      KeptNone(used, untrustedUsed, budget);
    } else {
      var s, rest := order[0], order[1..];
      KeptFirst(order, used, untrustedUsed, budget);
      assert forall i :: 0 <= i < |rest| ==> rest[i] == order[i + 1];
      assert CriticalFirst(rest);
      if rest != [] {
        assert rest[0] == order[1];
      }
      if Decide(s, used, untrustedUsed, budget) == Included {
        var u, v := used + s.tokens, untrustedUsed + UntrustedTokens(s);
        WithinBudget(rest, u, v, budget);
        var tail := Kept(rest, Decisions(rest, u, v, budget));
        assert ([s] + tail)[1..] == tail;
        if rest == [] {
          KeptNone(u, v, budget);
        }
      } else {
        WithinBudget(rest, used, untrustedUsed, budget);
        if rest == [] {
          KeptNone(used, untrustedUsed, budget);
        }
      }
    }
  }

  lemma KeptNone(used: nat, untrustedUsed: nat, budget: nat)
    ensures Kept([], Decisions([], used, untrustedUsed, budget)) == []
  {
  }

  /** A segment that could not be added to what was finally selected. */
  predicate Unfit(s: ContextSegment, total: nat, untrustedTotal: nat, budget: nat) {
    (s.untrusted && untrustedTotal + s.tokens > budget / 4) || (!Critical(s) && total + s.tokens > budget)
  }

  lemma {:induction false} SkippedUnfit(order: seq<ContextSegment>, used: nat, untrustedUsed: nat, budget: nat, i: nat)
    requires i < |order| && Decisions(order, used, untrustedUsed, budget)[i] != Included
    ensures var kept := Kept(order, Decisions(order, used, untrustedUsed, budget));
      Unfit(order[i], used + Total(kept), untrustedUsed + UntrustedTotal(kept), budget)
    decreases |order|
  {
    hide Kept;
    var s, rest := order[0], order[1..];
    KeptFirst(order, used, untrustedUsed, budget);
    if Decide(s, used, untrustedUsed, budget) == Included {
      var u, v := used + s.tokens, untrustedUsed + UntrustedTokens(s);
      SkippedUnfit(rest, u, v, budget, i - 1);
      var tail := Kept(rest, Decisions(rest, u, v, budget));
      assert ([s] + tail)[1..] == tail;
    } else if i > 0 {
      SkippedUnfit(rest, used, untrustedUsed, budget, i - 1);
    }
  }

  /** Everything assembly promises about its output. */
  lemma AssemblyGuarantees(segments: seq<ContextSegment>, budget: nat)
    ensures var order := Ordering(segments); var kept := Selection(order, budget);
      multiset(order) == multiset(segments) &&
      Subsequence(kept, order) &&
      Total(kept) <= Max(budget, CriticalTotal(kept)) &&
      Total(Marked(kept)) <= budget / 4 &&
      (forall i :: 0 <= i < |order| && Decisions(order, 0, 0, budget)[i] != Included ==>
        Unfit(order[i], Total(kept), UntrustedTotal(kept), budget))
  {
    hide Ordering, Decisions, Kept, Subsequence, Total, UntrustedTotal, CriticalTotal, CriticalFirst;
    var order := Ordering(segments);
    OrderingPermutes(segments);
    OrderingCriticalFirst(segments);
    KeptSubsequence(order, Decisions(order, 0, 0, budget));
    WithinBudget(order, 0, 0, budget);
    UntrustedIsMarked(Selection(order, budget));
    forall i | 0 <= i < |order| && Decisions(order, 0, 0, budget)[i] != Included
      ensures Unfit(order[i], Total(Selection(order, budget)), UntrustedTotal(Selection(order, budget)), budget)
    {
      SkippedUnfit(order, 0, 0, budget, i);
    }
  }
}
