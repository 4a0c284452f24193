/** What every transcript keeps: partition and erasure of records, the lifecycle of a
    contract, and what its final status says about the records. */
module TranscriptTheorems {
  import opened Text
  import opened Json
  import opened Frames
  import opened Deals
  import opened Transcripts

  // --- Partition ---

  ghost predicate Increasing(s: seq<nat>) {
    forall i, j :: 0 <= i < j < |s| ==> s[i] < s[j]
  }

  function IndicesOf(rejections: seq<Rejection>): seq<nat> {
    seq(|rejections|, i requires 0 <= i < |rejections| => rejections[i].index)
  }

  lemma IndicesGrow(rejections: seq<Rejection>, r: Rejection)
    ensures IndicesOf(rejections + [r]) == IndicesOf(rejections) + [r.index]
  {
  }

  ghost predicate Partitioned(accepted: seq<nat>, rejected: seq<nat>, n: nat) {
    Increasing(accepted) && Increasing(rejected) && |accepted| + |rejected| == n &&
    (forall i :: i in accepted ==> i < n) && (forall i :: i in rejected ==> i < n) &&
    (forall i :: 0 <= i < n ==> (i in accepted <==> i !in rejected))
  }

  lemma PartitionGrows(accepted: seq<nat>, rejected: seq<nat>, n: nat)
    requires Partitioned(accepted, rejected, n)
    ensures Partitioned(accepted + [n], rejected, n + 1)
    ensures Partitioned(accepted, rejected + [n], n + 1)
  {
    forall i | 0 <= i < |accepted| ensures accepted[i] < n { assert accepted[i] in accepted; }
    forall i | 0 <= i < |rejected| ensures rejected[i] < n { assert rejected[i] in rejected; }
  }

  /** Unless a TypeError stops the fold, every record is accepted or rejected, and never both;
      both lists are in transcript order. */
  lemma {:induction false} EveryRecordJudged(p: Primitives, records: seq<Record>)
    requires !Fold(p, records).raised
    ensures Partitioned(Fold(p, records).accepted, IndicesOf(Fold(p, records).rejections), |records|)
    decreases |records|
  {
    hide Judge, Advance;
    if records != [] {
      var n := |records| - 1;
      var o := Fold(p, records[..n]);
      EveryRecordJudged(p, records[..n]);
      PartitionGrows(o.accepted, IndicesOf(o.rejections), n);
      match Judge(p, o.deal, records[n])
      case Rejected(reason) => IndicesGrow(o.rejections, Rejection(n, KindOf(records[n]), reason));
      case _ =>
    }
  }

  // --- Erasure ---

  /** The accepted records, in order. */
  function Kept(p: Primitives, records: seq<Record>): seq<Record> {
    if records == [] then []
    else
      var n := |records| - 1;
      var o := Fold(p, records[..n]);
      if !o.raised && Judge(p, o.deal, records[n]) == Valid then Kept(p, records[..n]) + [records[n]]
      else Kept(p, records[..n])
  }

  lemma FoldSnoc(p: Primitives, records: seq<Record>, r: Record)
    ensures Fold(p, records + [r]) == Step(p, Fold(p, records), |records|, r)
  {
    assert (records + [r])[..|records|] == records;
    hide Step;
  }

  /** Deleting every rejected record leaves the same contract and nothing to reject. */
  lemma {:induction false} RejectedErasable(p: Primitives, records: seq<Record>)
    requires !Fold(p, records).raised
    ensures var o := Fold(p, Kept(p, records));
      o.deal == Fold(p, records).deal && o.rejections == [] && !o.raised
    decreases |records|
  {
    if records != [] {
      hide Judge, Step;
      var n := |records| - 1;
      var o := Fold(p, records[..n]);
      NotRaisedBefore(p, o, n, records[n]);
      RejectedErasable(p, records[..n]);
      StepOnDeal(p, o, Fold(p, Kept(p, records[..n])), n, |Kept(p, records[..n])|, records[n]);
      if Judge(p, o.deal, records[n]) == Valid {
        FoldSnoc(p, Kept(p, records[..n]), records[n]);
      }
    }
  }

  lemma NotRaisedBefore(p: Primitives, o: Outcome, i: nat, r: Record)
    requires !Step(p, o, i, r).raised
    ensures !o.raised && Judge(p, o.deal, r) != Raised
  {
    hide Judge, Advance, KindOf;
  }

  /** A step depends on the contract alone; a rejection leaves it as it was. */
  lemma StepOnDeal(p: Primitives, o: Outcome, o': Outcome, i: nat, j: nat, r: Record)
    requires !o.raised && !o'.raised && o.deal == o'.deal && Judge(p, o.deal, r) != Raised
    ensures Judge(p, o.deal, r) == Valid ==>
      var t := Step(p, o', j, r); t.deal == Step(p, o, i, r).deal && t.rejections == o'.rejections && !t.raised
    ensures Judge(p, o.deal, r) != Valid ==> Step(p, o, i, r).deal == o.deal
  {
    hide Judge, Advance, KindOf;
  }

  /** The kept records are those at the accepted indices. */
  lemma {:induction false} KeptAreAccepted(p: Primitives, records: seq<Record>)
    ensures |Kept(p, records)| == |Fold(p, records).accepted|
    ensures forall i :: 0 <= i < |Kept(p, records)| ==>
      Fold(p, records).accepted[i] < |records| && Kept(p, records)[i] == records[Fold(p, records).accepted[i]]
    decreases |records|
  {
    hide Judge, Advance, KindOf;
    if records != [] {
      KeptAreAccepted(p, records[..|records| - 1]);
    }
  }

  // --- Lifecycle ---

  predicate MovesStatus(kind: Json) {
    kind.Str? && kind != Str("heartbeat") && kind != Str("receipt")
  }

  /** The kinds of the accepted records that change the status, in order. */
  function Moves(p: Primitives, records: seq<Record>): seq<Json> {
    if records == [] then []
    else
      var n := |records| - 1;
      var o := Fold(p, records[..n]);
      if !o.raised && Judge(p, o.deal, records[n]) == Valid && MovesStatus(KindOf(records[n])) then
        Moves(p, records[..n]) + [KindOf(records[n])]
      else Moves(p, records[..n])
  }

  const OFFER := Str("offer")
  const ACCEPT := Str("accept")
  const LOCK := Str("lock")

  /** The status changes that lead to a status; joined tells whether an accept was among them. */
  function Path(status: Status, joined: bool): seq<Json> {
    match status
    case Proposed => [OFFER]
    case Accepted => [OFFER, ACCEPT]
    case Locked => [OFFER, ACCEPT, LOCK]
    case Claimed => [OFFER, ACCEPT, LOCK, Str("reveal")]
    case Refunded => [OFFER, ACCEPT, LOCK, Str("refund")]
    case Cancelled => if joined then [OFFER, ACCEPT, Str("cancel")] else [OFFER, Str("cancel")]
  }

  lemma PathSteps()
    ensures Path(Accepted, true) == Path(Proposed, false) + [ACCEPT]
    ensures Path(Locked, true) == Path(Accepted, true) + [LOCK]
    ensures Path(Claimed, true) == Path(Locked, true) + [Str("reveal")]
    ensures Path(Refunded, true) == Path(Locked, true) + [Str("refund")]
    ensures Path(Cancelled, true) == Path(Accepted, true) + [Str("cancel")]
    ensures Path(Cancelled, false) == Path(Proposed, false) + [Str("cancel")]
  {
  }

  ghost predicate Lifecycle(moves: seq<Json>, deal: Option<Contract>) {
    moves == match deal case None => [] case Some(c) => Path(c.status, c.id != None)
  }

  predicate OnlyOfferer(c: Contract) {
    c.payer == (if Get(c.offer, "role") == Str("payer") then Some(c.offerFrom) else None) &&
    c.payee == (if Get(c.offer, "role") == Str("payee") then Some(c.offerFrom) else None)
  }

  predicate BothParties(c: Contract) {
    c.payer != None && c.payee != None && c.payer != c.payee &&
    (c.payer == Some(c.offerFrom) || c.payee == Some(c.offerFrom))
  }

  /** What holds of an open contract between records. */
  ghost predicate Sane(p: Primitives, c: Contract) {
    ValidateFrame(p, c.offer) == Valid && Get(c.offer, "type") == OFFER &&
    c.offerFrom == StringAt(c.offer, "from") &&
    (c.statement == None <==> c.id == None) &&
    (c.status == Proposed ==> c.id == None) &&
    (c.status != Proposed && c.status != Cancelled ==> c.id != None) &&
    (c.id == None ==> OnlyOfferer(c)) &&
    (c.id != None ==> BothParties(c))
  }

  lemma ValidFrameType(p: Primitives, f: Frame)
    requires ValidateFrame(p, f) == Valid
    ensures Get(f, "type") == Str(StringAt(f, "type")) && KnownType(StringAt(f, "type"))
    ensures Get(f, "from") == Str(StringAt(f, "from")) && IsDid(StringAt(f, "from"))
    ensures f.Keys <= RequiredKeys(StringAt(f, "type")) + OptionalKeys(StringAt(f, "type"))
    ensures RequiredKeys(StringAt(f, "type")) <= f.Keys
  {
    hide ValidateFields, IsDid;
  }

  lemma OfferRole(p: Primitives, f: Frame)
    requires ValidateFrame(p, f) == Valid && StringAt(f, "type") == "offer"
    ensures Get(f, "role") == Str("payer") || Get(f, "role") == Str("payee")
    ensures Instant(f, "claimByMs") < Instant(f, "refundAfterMs")
    ensures Get(f, "id") == Str(OfferId(p, f))
    ensures Get(f, "lock") == Str("hash") || Get(f, "lock") == Str("point")
  {
    hide OfferId, RequireString;
  }

  lemma OpeningSane(p: Primitives, f: Frame)
    requires ValidateFrame(p, f) == Valid && StringAt(f, "type") == "offer"
    ensures Sane(p, Opened(f))
  {
    hide ValidateFrame;
    ValidFrameType(p, f);
    OfferRole(p, f);
  }

  // --- What each accepted kind of frame was checked for, and what it changes ---

  lemma AcceptFacts(p: Primitives, c: Contract, f: Frame, now: int)
    requires Guard(p, c, f, now) == Valid && StringAt(f, "type") == "accept"
    ensures c.status == Proposed && Get(f, "ref") == Get(c.offer, "id") && StringAt(f, "from") != c.offerFrom
    ensures now < Instant(c.offer, "expiresMs")
    ensures StringAt(f, "contract") == ContractId(p, c.offer, AcceptCore(f))
    ensures Effect(c, f) == c.(status := Accepted, id := Some(StringAt(f, "contract")),
                               statement := Some(StringAt(f, "statement")),
                               payer := if Get(c.offer, "role") == Str("payee") then Some(StringAt(f, "from")) else c.payer,
                               payee := if Get(c.offer, "role") == Str("payee") then c.payee else Some(StringAt(f, "from")))
  {
    hide ValidateFrame, ContractId, AcceptCore;
  }

  lemma LockFacts(p: Primitives, c: Contract, f: Frame, now: int)
    requires Guard(p, c, f, now) == Valid && StringAt(f, "type") == "lock"
    ensures c.status == Accepted && Some(StringAt(f, "contract")) == c.id && Some(StringAt(f, "from")) == c.payer
    ensures now < Instant(c.offer, "refundAfterMs") && RailOffered(RailsOf(c.offer), StringAt(f, "rail"))
    ensures Effect(c, f) == c.(status := Locked, rail := Some(StringAt(f, "rail")), railRef := Some(StringAt(f, "ref")))
  {
    hide ValidateFrame, RailOffered;
  }

  lemma RevealFacts(p: Primitives, c: Contract, f: Frame, now: int)
    requires Guard(p, c, f, now) == Valid && StringAt(f, "type") == "reveal"
    ensures c.status == Locked && Some(StringAt(f, "contract")) == c.id && Some(StringAt(f, "from")) == c.payee
    ensures now < Instant(c.offer, "refundAfterMs") && !RefersElsewhere(c, f)
    ensures c.statement != None && VerifyPreimage(p, c.statement.value, StringAt(f, "secret"))
    ensures Effect(c, f) == c.(status := Claimed, secret := Some(StringAt(f, "secret")))
  {
    hide ValidateFrame, VerifyPreimage;
  }

  lemma RefundFacts(p: Primitives, c: Contract, f: Frame, now: int)
    requires Guard(p, c, f, now) == Valid && StringAt(f, "type") == "refund"
    ensures c.status == Locked && Some(StringAt(f, "contract")) == c.id && Some(StringAt(f, "from")) == c.payer
    ensures now >= Instant(c.offer, "refundAfterMs") && !RefersElsewhere(c, f)
    ensures Effect(c, f) == c.(status := Refunded)
  {
    hide ValidateFrame;
  }

  lemma CancelFacts(p: Primitives, c: Contract, f: Frame, now: int)
    requires Guard(p, c, f, now) == Valid && StringAt(f, "type") == "cancel"
    ensures c.status == Proposed || (c.status == Accepted && Some(StringAt(f, "contract")) == c.id)
    ensures IsParty(c, StringAt(f, "from"))
    ensures Effect(c, f) == c.(status := Cancelled)
  {
    hide ValidateFrame;
  }

  lemma OtherFacts(p: Primitives, c: Contract, f: Frame, now: int)
    requires Guard(p, c, f, now) == Valid
    requires StringAt(f, "type") !in {"accept", "lock", "reveal", "refund", "cancel"}
    ensures StringAt(f, "type") == "receipt" || StringAt(f, "type") == "heartbeat"
    ensures StringAt(f, "type") == "receipt" ==> Terminal(c.status)
    ensures StringAt(f, "type") == "heartbeat" ==> c.status == Accepted || c.status == Locked
    ensures c.id == Some(StringAt(f, "contract"))
    ensures Effect(c, f) == c
  {
    ValidFrameType(p, f) by { hide Effect; GuardValidates(p, c, f, now); }
    hide ValidateFrame;
  }

  lemma GuardValidates(p: Primitives, c: Contract, f: Frame, now: int)
    requires Guard(p, c, f, now) == Valid
    ensures ValidateFrame(p, f) == Valid && StringAt(f, "type") != "offer"
    ensures Get(f, "type") == Str(StringAt(f, "type"))
  {
    assert ValidateFrame(p, f) == Valid;
    ValidFrameType(p, f);
    hide ValidateFrame;
  }

  lemma AcceptSane(p: Primitives, c: Contract, f: Frame, now: int)
    requires Sane(p, c) && Guard(p, c, f, now) == Valid && StringAt(f, "type") == "accept"
    ensures Sane(p, Effect(c, f))
  {
    OfferRole(p, c.offer);
    AcceptFacts(p, c, f, now);
    hide ValidateFrame, Guard, Effect, ContractId, AcceptCore;
  }

  /** An accepted frame keeps the contract sane. */
  lemma EffectSane(p: Primitives, c: Contract, f: Frame, now: int)
    requires Sane(p, c) && Guard(p, c, f, now) == Valid
    ensures Sane(p, Effect(c, f))
  {
    hide ValidateFrame, Guard, Effect, ContractId, VerifyPreimage, RailOffered, AcceptCore;
    match StringAt(f, "type")
    case "accept" => AcceptSane(p, c, f, now);
    case "lock" => LockFacts(p, c, f, now);
    case "reveal" => RevealFacts(p, c, f, now);
    case "refund" => RefundFacts(p, c, f, now);
    case "cancel" => CancelFacts(p, c, f, now);
    case _ => OtherFacts(p, c, f, now);
  }

  /** An accepted frame moves the status along the lifecycle, or leaves it where it is. */
  lemma EffectLifecycle(p: Primitives, c: Contract, f: Frame, now: int, moves: seq<Json>)
    requires Sane(p, c) && Guard(p, c, f, now) == Valid && Lifecycle(moves, Some(c))
    ensures Lifecycle(if MovesStatus(Get(f, "type")) then moves + [Get(f, "type")] else moves, Some(Effect(c, f)))
    ensures MovesStatus(Get(f, "type")) <==> Effect(c, f).status != c.status
  {
    GuardValidates(p, c, f, now);
    PathSteps();
    hide ValidateFrame, Guard, Effect, ContractId, VerifyPreimage, RailOffered, AcceptCore, Path;
    match StringAt(f, "type")
    case "accept" => AcceptFacts(p, c, f, now);
    case "lock" => LockFacts(p, c, f, now);
    case "reveal" => RevealFacts(p, c, f, now);
    case "refund" => RefundFacts(p, c, f, now);
    case "cancel" => CancelFacts(p, c, f, now);
    case _ => OtherFacts(p, c, f, now);
  }

  /** An accepted record in terms of the frame it carries. */
  lemma JudgedValid(p: Primitives, deal: Option<Contract>, r: Record) returns (f: Frame)
    requires Judge(p, deal, r) == Valid
    ensures DecodeFrame(r.line) == Some(f) && KindOf(r) == Get(f, "type") && Get(f, "from") == Str(r.sender)
    ensures deal == None ==> Get(f, "type") == OFFER && r.room == OFFER_ROOM && ValidateFrame(p, f) == Valid
    ensures deal == None ==> Advance(deal, r) == Some(Opened(f))
    ensures deal != None ==> Guard(p, deal.value, f, r.timeMs) == Valid && r.room == ExpectedRoom(deal.value, Get(f, "type"))
    ensures deal != None ==> Advance(deal, r) == Some(Effect(deal.value, f))
  {
    f := DecodeFrame(r.line).value by { Decodes(p, deal, r); }
    hide DecodeFrame, Guard, ValidateFrame, Effect, Opened;
  }

  lemma Decodes(p: Primitives, deal: Option<Contract>, r: Record)
    requires Judge(p, deal, r) == Valid
    ensures DecodeFrame(r.line).Some?
  {
    hide DecodeFrame, Guard, ValidateFrame;
  }

  /** Every transcript: the contract stays sane, and the accepted status changes spell out
      offer-accept-lock-reveal, offer-accept-lock-refund, offer-accept-cancel, offer-cancel or
      a prefix of one, the last one matching the status. */
  lemma {:induction false} LifecycleFollowed(p: Primitives, records: seq<Record>)
    ensures Lifecycle(Moves(p, records), Fold(p, records).deal)
    ensures Fold(p, records).deal != None ==> Sane(p, Fold(p, records).deal.value)
    decreases |records|
  {
    hide Judge, Advance, Lifecycle, Sane, MovesStatus, KindOf;
    if records == [] {
      NothingYet();
    } else {
      var n := |records| - 1;
      var o, r := Fold(p, records[..n]), records[n];
      LifecycleFollowed(p, records[..n]);
      if !o.raised && Judge(p, o.deal, r) == Valid {
        var f := JudgedValid(p, o.deal, r);
        if o.deal == None {
          FirstMove(p, f, Moves(p, records[..n]));
        } else {
          EffectSane(p, o.deal.value, f, r.timeMs);
          EffectLifecycle(p, o.deal.value, f, r.timeMs, Moves(p, records[..n]));
        }
      }
    }
  }

  lemma NothingYet()
    ensures Lifecycle([], None)
  {
  }

  lemma FirstMove(p: Primitives, f: Frame, moves: seq<Json>)
    requires ValidateFrame(p, f) == Valid && Get(f, "type") == OFFER && Lifecycle(moves, None)
    ensures MovesStatus(Get(f, "type")) && Lifecycle(moves + [Get(f, "type")], Some(Opened(f))) && Sane(p, Opened(f))
  {
    OpeningSane(p, f);
    hide ValidateFrame;
  }

  // --- What a status says about the transcript ---

  /** Record i posts the offer the contract was opened with. */
  ghost predicate OfferAt(p: Primitives, records: seq<Record>, i: int, c: Contract) {
    0 <= i < |records| && records[i].room == OFFER_ROOM && records[i].sender == c.offerFrom &&
    DecodeFrame(records[i].line) == Some(c.offer) && ValidateFrame(p, c.offer) == Valid
  }

  /** Record i accepts it in time, from the other party, under the derived contract id. */
  ghost predicate AcceptAt(p: Primitives, records: seq<Record>, i: int, c: Contract) {
    0 <= i < |records| && records[i].room == OFFER_ROOM && DecodeFrame(records[i].line).Some? &&
    var f := DecodeFrame(records[i].line).value;
    Get(f, "type") == ACCEPT && records[i].timeMs < Instant(c.offer, "expiresMs") &&
    records[i].sender != c.offerFrom && (Some(records[i].sender) == c.payer || Some(records[i].sender) == c.payee) &&
    Get(f, "ref") == Get(c.offer, "id") && c.statement == Some(StringAt(f, "statement")) && IsStatement(StringAt(f, "statement")) &&
    c.id == Some(StringAt(f, "contract")) && c.id == Some(ContractId(p, c.offer, AcceptCore(f)))
  }

  /** The frame of a record, when there is one. */
  ghost function FrameAt(records: seq<Record>, i: int): Frame {
    if 0 <= i < |records| && DecodeFrame(records[i].line).Some? then DecodeFrame(records[i].line).value else map[]
  }

  /** Record i is sent by the given party in the deal room and its frame names the contract. */
  ghost predicate SentInDeal(records: seq<Record>, i: int, c: Contract, kind: string, party: Option<string>) {
    0 <= i < |records| && c.id != None && records[i].room == DealRoom(c.id.value) && KindOf(records[i]) == Str(kind) &&
    Some(records[i].sender) == party && c.id == Some(StringAt(FrameAt(records, i), "contract"))
  }

  /** Record i locks on the contract's rail, which was offered, under its reference. */
  ghost predicate LockAt(records: seq<Record>, i: int, c: Contract) {
    SentInDeal(records, i, c, "lock", c.payer) && records[i].timeMs < Instant(c.offer, "refundAfterMs") &&
    c.rail == Some(StringAt(FrameAt(records, i), "rail")) && c.railRef == Some(StringAt(FrameAt(records, i), "ref")) &&
    RailOffered(RailsOf(c.offer), c.rail.value)
  }

  /** Record i reveals the contract's secret, which opens its statement. */
  ghost predicate RevealAt(p: Primitives, records: seq<Record>, i: int, c: Contract) {
    SentInDeal(records, i, c, "reveal", c.payee) && records[i].timeMs < Instant(c.offer, "refundAfterMs") &&
    !RefersElsewhere(c, FrameAt(records, i)) && c.secret == Some(StringAt(FrameAt(records, i), "secret")) &&
    c.statement != None && VerifyPreimage(p, c.statement.value, c.secret.value)
  }

  ghost predicate RefundAt(records: seq<Record>, i: int, c: Contract) {
    SentInDeal(records, i, c, "refund", c.payer) && records[i].timeMs >= Instant(c.offer, "refundAfterMs") &&
    !RefersElsewhere(c, FrameAt(records, i))
  }

  /** Positions of the records that brought the contract where it is. */
  datatype History = History(offerAt: int, acceptAt: int, lockAt: int, endAt: int)

  ghost predicate Explains(p: Primitives, records: seq<Record>, c: Contract, h: History) {
    OfferAt(p, records, h.offerAt, c) &&
    (c.id != None ==> h.offerAt < h.acceptAt && AcceptAt(p, records, h.acceptAt, c)) &&
    (c.status in {Locked, Claimed, Refunded} ==> h.acceptAt < h.lockAt && LockAt(records, h.lockAt, c)) &&
    (c.status == Claimed ==> h.lockAt < h.endAt && RevealAt(p, records, h.endAt, c)) &&
    (c.status == Refunded ==> h.lockAt < h.endAt && RefundAt(records, h.endAt, c))
  }

  /** The positions that explain the contract are all among the accepted ones. */
  ghost predicate Counted(accepted: seq<nat>, c: Contract, h: History) {
    h.offerAt in accepted && (c.id != None ==> h.acceptAt in accepted) &&
    (c.status in {Locked, Claimed, Refunded} ==> h.lockAt in accepted) &&
    (c.status in {Claimed, Refunded} ==> h.endAt in accepted)
  }

  /** The history after an accepted frame of the given kind in record n. */
  function Extended(h: History, kind: string, n: int): History {
    match kind
    case "accept" => h.(acceptAt := n)
    case "lock" => h.(lockAt := n)
    case "reveal" => h.(endAt := n)
    case "refund" => h.(endAt := n)
    case _ => h
  }

  lemma CountedGrows(p: Primitives, c: Contract, f: Frame, now: int, h: History, accepted: seq<nat>, n: nat)
    requires Guard(p, c, f, now) == Valid && Counted(accepted, c, h)
    ensures Counted(accepted + [n], Effect(c, f), Extended(h, StringAt(f, "type"), n))
  {
    hide ValidateFrame, Guard, Effect, ContractId, VerifyPreimage, RailOffered, AcceptCore;
    match StringAt(f, "type")
    case "accept" => AcceptFacts(p, c, f, now);
    case "lock" => LockFacts(p, c, f, now);
    case "reveal" => RevealFacts(p, c, f, now);
    case "refund" => RefundFacts(p, c, f, now);
    case "cancel" => CancelFacts(p, c, f, now);
    case _ => OtherFacts(p, c, f, now);
  }

  lemma ExplainsLonger(p: Primitives, records: seq<Record>, n: nat, c: Contract, h: History)
    requires n <= |records| && Explains(p, records[..n], c, h)
    ensures Explains(p, records, c, h)
  {
    hide DecodeFrame, ValidateFrame, ContractId, AcceptCore, RailOffered, VerifyPreimage, KindOf, IsStatement;
    FramePrefix(records, n, h.lockAt);
    FramePrefix(records, n, h.endAt);
    hide FrameAt;
  }

  lemma FramePrefix(records: seq<Record>, n: nat, i: int)
    requires n <= |records|
    ensures 0 <= i < n ==> FrameAt(records[..n], i) == FrameAt(records, i)
  {
  }

  lemma AcceptStatement(p: Primitives, f: Frame)
    requires ValidateFrame(p, f) == Valid && StringAt(f, "type") == "accept"
    ensures IsStatement(StringAt(f, "statement"))
  {
    hide IsHex32, IsNonce, IsDid;
  }

  /** The last record is accepted for contract c and carries frame f. */
  ghost predicate JustAccepted(p: Primitives, records: seq<Record>, c: Contract, f: Frame) {
    records != [] &&
    var r := records[|records| - 1];
    Guard(p, c, f, r.timeMs) == Valid && DecodeFrame(r.line) == Some(f) && KindOf(r) == Get(f, "type") &&
    Get(f, "from") == Str(r.sender) && r.room == ExpectedRoom(c, Get(f, "type"))
  }

  lemma AcceptNow(p: Primitives, records: seq<Record>, c: Contract, f: Frame)
    requires JustAccepted(p, records, c, f) && StringAt(f, "type") == "accept"
    ensures AcceptAt(p, records, |records| - 1, Effect(c, f))
    ensures Effect(c, f).offer == c.offer && Effect(c, f).offerFrom == c.offerFrom && Effect(c, f).status == Accepted
  {
    var r := records[|records| - 1];
    AcceptFacts(p, c, f, r.timeMs);
    GuardValidates(p, c, f, r.timeMs);
    AcceptStatement(p, f);
    hide DecodeFrame, ValidateFrame, Guard, Effect, ContractId, AcceptCore, IsStatement;
  }

  lemma LockNow(p: Primitives, records: seq<Record>, c: Contract, f: Frame)
    requires JustAccepted(p, records, c, f) && StringAt(f, "type") == "lock"
    ensures LockAt(records, |records| - 1, Effect(c, f))
    ensures Effect(c, f) == c.(status := Locked, rail := Effect(c, f).rail, railRef := Effect(c, f).railRef)
    ensures c.status == Accepted && c.id != None
  {
    var r := records[|records| - 1];
    LockFacts(p, c, f, r.timeMs);
    GuardValidates(p, c, f, r.timeMs);
    hide DecodeFrame, ValidateFrame, Guard, Effect, RailOffered, KindOf, DealRoom;
  }

  lemma RevealNow(p: Primitives, records: seq<Record>, c: Contract, f: Frame)
    requires JustAccepted(p, records, c, f) && StringAt(f, "type") == "reveal"
    ensures RevealAt(p, records, |records| - 1, Effect(c, f))
    ensures Effect(c, f) == c.(status := Claimed, secret := Effect(c, f).secret)
    ensures c.status == Locked && c.id != None
  {
    var r := records[|records| - 1];
    RevealFacts(p, c, f, r.timeMs);
    GuardValidates(p, c, f, r.timeMs);
    hide DecodeFrame, ValidateFrame, Guard, Effect, VerifyPreimage, KindOf, DealRoom;
  }

  lemma RefundNow(p: Primitives, records: seq<Record>, c: Contract, f: Frame)
    requires JustAccepted(p, records, c, f) && StringAt(f, "type") == "refund"
    ensures RefundAt(records, |records| - 1, Effect(c, f))
    ensures Effect(c, f) == c.(status := Refunded) && c.status == Locked && c.id != None
  {
    var r := records[|records| - 1];
    RefundFacts(p, c, f, r.timeMs);
    GuardValidates(p, c, f, r.timeMs);
    hide DecodeFrame, ValidateFrame, Guard, Effect, KindOf, DealRoom;
  }

  /** The positions below n are those of h. */
  ghost predicate Before(h: History, n: int) {
    h.offerAt < n && h.acceptAt < n && h.lockAt < n && h.endAt < n
  }

  lemma AcceptGrows(p: Primitives, records: seq<Record>, c: Contract, f: Frame, h: History)
    requires JustAccepted(p, records, c, f) && Explains(p, records, c, h) && Before(h, |records| - 1)
    requires StringAt(f, "type") == "accept"
    ensures Explains(p, records, Effect(c, f), h.(acceptAt := |records| - 1))
  {
    hide JustAccepted, Effect, AcceptAt, OfferAt, LockAt, RevealAt, RefundAt;
    AcceptNow(p, records, c, f);
    OfferKept(p, records, h.offerAt, c, Effect(c, f));
  }

  lemma LockGrows(p: Primitives, records: seq<Record>, c: Contract, f: Frame, h: History)
    requires JustAccepted(p, records, c, f) && Explains(p, records, c, h) && Before(h, |records| - 1)
    requires StringAt(f, "type") == "lock"
    ensures Explains(p, records, Effect(c, f), h.(lockAt := |records| - 1))
  {
    hide JustAccepted, Effect, AcceptAt, OfferAt, LockAt, RevealAt, RefundAt;
    LockNow(p, records, c, f);
    OfferKept(p, records, h.offerAt, c, Effect(c, f));
    AcceptKept(p, records, h.acceptAt, c, Effect(c, f));
  }

  lemma EndGrows(p: Primitives, records: seq<Record>, c: Contract, f: Frame, h: History)
    requires JustAccepted(p, records, c, f) && Explains(p, records, c, h) && Before(h, |records| - 1)
    requires StringAt(f, "type") == "reveal" || StringAt(f, "type") == "refund"
    ensures Explains(p, records, Effect(c, f), h.(endAt := |records| - 1))
  {
    hide JustAccepted, Effect, AcceptAt, OfferAt, LockAt, RevealAt, RefundAt;
    if StringAt(f, "type") == "reveal" {
      RevealNow(p, records, c, f);
    } else {
      RefundNow(p, records, c, f);
    }
    PartsKept(p, records, h, c, Effect(c, f));
  }

  lemma CancelGrows(p: Primitives, records: seq<Record>, c: Contract, f: Frame, h: History)
    requires JustAccepted(p, records, c, f) && Explains(p, records, c, h) && StringAt(f, "type") == "cancel"
    ensures Explains(p, records, Effect(c, f), h)
  {
    hide JustAccepted, Effect, AcceptAt, OfferAt, LockAt, RevealAt, RefundAt;
    CancelNow(p, records, c, f);
    OfferKept(p, records, h.offerAt, c, Effect(c, f));
    if c.id != None {
      AcceptKept(p, records, h.acceptAt, c, Effect(c, f));
    }
  }

  lemma CancelNow(p: Primitives, records: seq<Record>, c: Contract, f: Frame)
    requires JustAccepted(p, records, c, f) && StringAt(f, "type") == "cancel"
    ensures Effect(c, f) == c.(status := Cancelled)
  {
    CancelFacts(p, c, f, records[|records| - 1].timeMs);
  }

  lemma NothingGrows(p: Primitives, records: seq<Record>, c: Contract, f: Frame)
    requires JustAccepted(p, records, c, f)
    requires StringAt(f, "type") !in {"accept", "lock", "reveal", "refund", "cancel"}
    ensures Effect(c, f) == c
  {
    OtherFacts(p, c, f, records[|records| - 1].timeMs);
  }

  /** An accepted record extends the history of the contract. */
  lemma HistoryGrows(p: Primitives, records: seq<Record>, c: Contract, f: Frame, h: History)
    requires JustAccepted(p, records, c, f) && Explains(p, records, c, h) && Before(h, |records| - 1)
    ensures var h' := Extended(h, StringAt(f, "type"), |records| - 1);
      Explains(p, records, Effect(c, f), h') && Before(h', |records|)
  {
    hide JustAccepted, Explains, Effect;
    var kind := StringAt(f, "type");
    if kind == "accept" {
      AcceptGrows(p, records, c, f, h);
    } else if kind == "lock" {
      LockGrows(p, records, c, f, h);
    } else if kind == "reveal" || kind == "refund" {
      EndGrows(p, records, c, f, h);
    } else if kind == "cancel" {
      CancelGrows(p, records, c, f, h);
    } else {
      NothingGrows(p, records, c, f);
    }
  }

  lemma OfferKept(p: Primitives, records: seq<Record>, i: int, c: Contract, d: Contract)
    requires OfferAt(p, records, i, c) && d.offer == c.offer && d.offerFrom == c.offerFrom
    ensures OfferAt(p, records, i, d)
  {
    hide DecodeFrame, ValidateFrame;
  }

  lemma AcceptKept(p: Primitives, records: seq<Record>, i: int, c: Contract, d: Contract)
    requires AcceptAt(p, records, i, c)
    requires d.offer == c.offer && d.offerFrom == c.offerFrom && d.id == c.id && d.statement == c.statement
    requires d.payer == c.payer && d.payee == c.payee
    ensures AcceptAt(p, records, i, d)
  {
    hide DecodeFrame, ContractId, AcceptCore, IsStatement;
  }

  lemma PartsKept(p: Primitives, records: seq<Record>, h: History, c: Contract, d: Contract)
    requires Explains(p, records, c, h) && c.status == Locked && c.id != None
    requires d == c.(status := d.status, secret := d.secret)
    ensures OfferAt(p, records, h.offerAt, d) && AcceptAt(p, records, h.acceptAt, d) && LockAt(records, h.lockAt, d)
  {
    OfferKept(p, records, h.offerAt, c, d);
    AcceptKept(p, records, h.acceptAt, c, d);
    hide DecodeFrame, ValidateFrame, ContractId, AcceptCore, RailOffered, KindOf, IsStatement, DealRoom;
  }

  /** Every open contract has a history in its transcript. */
  lemma {:induction false} Explained(p: Primitives, records: seq<Record>) returns (h: History)
    requires Fold(p, records).deal != None
    ensures Explains(p, records, Fold(p, records).deal.value, h) && Before(h, |records|)
    ensures Counted(Fold(p, records).accepted, Fold(p, records).deal.value, h)
    decreases |records|
  {
    hide Judge, Advance, Explains, Sane, Guard, Counted, Opened, Effect;
    var n := |records| - 1;
    var o, r := Fold(p, records[..n]), records[n];
    if o.deal != None {
      h := Explained(p, records[..n]);
      ExplainsLonger(p, records, n, o.deal.value, h);
    }
    if !o.raised && Judge(p, o.deal, r) == Valid {
      var f := JudgedValid(p, o.deal, r);
      if o.deal == None {
        h := History(n, -1, -1, -1);
        OfferExplains(p, records, f, h);
        OfferCounted(o.accepted, f, h, n);
      } else {
        HistoryGrows(p, records, o.deal.value, f, h);
        CountedGrows(p, o.deal.value, f, r.timeMs, h, o.accepted, n);
        h := Extended(h, StringAt(f, "type"), n);
      }
    }
  }

  lemma OfferCounted(accepted: seq<nat>, f: Frame, h: History, n: nat)
    requires h.offerAt == n
    ensures Counted(accepted + [n], Opened(f), h)
  {
  }

  lemma OfferExplains(p: Primitives, records: seq<Record>, f: Frame, h: History)
    requires records != [] && h.offerAt == |records| - 1
    requires var r := records[|records| - 1];
      r.room == OFFER_ROOM && DecodeFrame(r.line) == Some(f) && Get(f, "from") == Str(r.sender) && ValidateFrame(p, f) == Valid
    ensures Explains(p, records, Opened(f), h)
  {
    hide DecodeFrame, ValidateFrame;
  }

  // --- Consequences ---

  /** A statement opened by a secret is exactly "0x" and the digest of its 32 bytes. */
  ghost predicate Opens(p: Primitives, statement: string, secret: string) {
    exists raw: seq<byte> {:trigger p.sha256Bytes(raw)} ::
      |raw| == 32 && statement == "0x" + p.sha256Bytes(raw) &&
      FromHex(if "0x" <= secret then secret[2..] else secret) == Some(raw)
  }

  lemma VerifiedOpens(p: Primitives, statement: string, secret: string)
    requires p.Sound() && IsStatement(statement) && VerifyPreimage(p, statement, secret)
    ensures Opens(p, statement, secret) && |statement| == 66
  {
    var raw := FromHex(if "0x" <= secret then secret[2..] else secret).value;
    var digest := p.sha256Bytes(raw);
    assert IsDigest(digest);
    var lowered := Lower(statement);
    assert lowered == "0x" + digest;
    var last := |statement| - 1;
    assert lowered[last] == digest[63] && LowerChar(statement[last]) == lowered[last];
    assert Chomp(statement) == statement;
    forall i | 0 <= i < |statement| ensures statement[i] == lowered[i] {
      assert lowered[i] == LowerChar(statement[i]);
      if i >= 2 {
        assert IsLowerHex(statement[2..][i - 2]);
      } else {
        assert statement[i] == "0x"[i];
      }
    }
    assert statement == lowered;
  }

  /** Claimed means: accepted before the offer expired, locked by the payer on an offered rail
      and revealed by the payee both before the refund window, with a secret that opens the
      64-digit statement; payer and payee differ. */
  lemma ClaimedMeans(p: Primitives, records: seq<Record>) returns (h: History)
    requires p.Sound() && Fold(p, records).deal.Some? && Fold(p, records).deal.value.status == Claimed
    ensures var c := Fold(p, records).deal.value;
      0 <= h.offerAt < h.acceptAt < h.lockAt < h.endAt < |records| &&
      OfferAt(p, records, h.offerAt, c) && AcceptAt(p, records, h.acceptAt, c) &&
      LockAt(records, h.lockAt, c) && RevealAt(p, records, h.endAt, c) &&
      (forall i :: i in [h.offerAt, h.acceptAt, h.lockAt, h.endAt] ==> i in Fold(p, records).accepted) &&
      Opens(p, c.statement.value, c.secret.value) && |c.statement.value| == 66 &&
      c.payer.Some? && c.payee.Some? && c.payer != c.payee
  {
    var c := Fold(p, records).deal.value;
    h := Explained(p, records);
    LifecycleFollowed(p, records);
    ExplainedClaim(p, records, c, h);
    hide VerifyPreimage, IsStatement, Opens, OfferAt, LockAt, Explains, Sane, Fold, ContractId, KindOf, SentInDeal;
    VerifiedOpens(p, c.statement.value, c.secret.value);
  }

  lemma ExplainedClaim(p: Primitives, records: seq<Record>, c: Contract, h: History)
    requires Sane(p, c) && Explains(p, records, c, h) && Before(h, |records|) && c.status == Claimed
    ensures 0 <= h.offerAt < h.acceptAt < h.lockAt < h.endAt < |records|
    ensures OfferAt(p, records, h.offerAt, c) && AcceptAt(p, records, h.acceptAt, c)
    ensures LockAt(records, h.lockAt, c) && RevealAt(p, records, h.endAt, c)
    ensures c.payer.Some? && c.payee.Some? && c.payer != c.payee
    ensures c.statement.Some? && c.secret.Some? && IsStatement(c.statement.value)
    ensures VerifyPreimage(p, c.statement.value, c.secret.value)
  {
    hide DecodeFrame, ValidateFrame, IsStatement, VerifyPreimage, RailOffered, KindOf, ContractId, AcceptCore, DealRoom;
  }

  /** Refunded means: locked by the payer, then refunded by the payer once the window was open. */
  lemma RefundedMeans(p: Primitives, records: seq<Record>) returns (h: History)
    requires Fold(p, records).deal.Some? && Fold(p, records).deal.value.status == Refunded
    ensures var c := Fold(p, records).deal.value;
      0 <= h.offerAt < h.acceptAt < h.lockAt < h.endAt < |records| &&
      OfferAt(p, records, h.offerAt, c) && AcceptAt(p, records, h.acceptAt, c) &&
      LockAt(records, h.lockAt, c) && RefundAt(records, h.endAt, c) &&
      (forall i :: i in [h.offerAt, h.acceptAt, h.lockAt, h.endAt] ==> i in Fold(p, records).accepted) &&
      c.payer.Some? && c.payee.Some? && c.payer != c.payee
  {
    h := Explained(p, records);
    LifecycleFollowed(p, records);
    ExplainedRefund(p, records, Fold(p, records).deal.value, h);
    hide OfferAt, AcceptAt, LockAt, RefundAt, Explains, Sane, Fold;
  }

  lemma ExplainedRefund(p: Primitives, records: seq<Record>, c: Contract, h: History)
    requires Sane(p, c) && Explains(p, records, c, h) && Before(h, |records|) && c.status == Refunded
    ensures 0 <= h.offerAt < h.acceptAt < h.lockAt < h.endAt < |records|
    ensures OfferAt(p, records, h.offerAt, c) && AcceptAt(p, records, h.acceptAt, c)
    ensures LockAt(records, h.lockAt, c) && RefundAt(records, h.endAt, c)
    ensures c.payer.Some? && c.payee.Some? && c.payer != c.payee
  {
    hide DecodeFrame, ValidateFrame, IsStatement, RailOffered, KindOf, ContractId, AcceptCore, DealRoom;
  }

  /** A contract that reached a terminal status keeps it, whatever is appended. */
  lemma {:induction false} TerminalAbsorbs(p: Primitives, records: seq<Record>, more: seq<Record>)
    requires Fold(p, records).deal.Some? && Terminal(Fold(p, records).deal.value.status)
    ensures Fold(p, records + more).deal == Fold(p, records).deal
    decreases |more|
  {
    hide Judge, Advance, Fold;
    if more == [] {
      assert records + more == records;
    } else {
      var n := |more| - 1;
      var r := more[n];
      TerminalAbsorbs(p, records, more[..n]);
      assert records + more == (records + more[..n]) + [r];
      FoldSnoc(p, records + more[..n], r);
      var o := Fold(p, records + more[..n]);
      if !o.raised && Judge(p, o.deal, r) == Valid {
        var f := JudgedValid(p, o.deal, r);
        TerminalFrame(p, o.deal.value, f, r.timeMs);
      }
    }
  }

  lemma TerminalFrame(p: Primitives, c: Contract, f: Frame, now: int)
    requires Terminal(c.status) && Guard(p, c, f, now) == Valid
    ensures Effect(c, f) == c && StringAt(f, "type") == "receipt" && c.id == Some(StringAt(f, "contract"))
  {
    hide Guard, Effect;
    var kind := StringAt(f, "type");
    if kind == "accept" { AcceptFacts(p, c, f, now); }
    else if kind == "lock" { LockFacts(p, c, f, now); }
    else if kind == "reveal" { RevealFacts(p, c, f, now); }
    else if kind == "refund" { RefundFacts(p, c, f, now); }
    else if kind == "cancel" { CancelFacts(p, c, f, now); }
    else { OtherFacts(p, c, f, now); }
  }

  /** Cancelling before any accept leaves no contract id, and then nothing is accepted any
      more, receipts included. */
  lemma CancelledBeforeAccept(p: Primitives, c: Contract, r: Record)
    requires c.status == Cancelled && c.id == None
    ensures Judge(p, Some(c), r) != Valid
  {
    hide Judge, Guard;
    if Judge(p, Some(c), r) == Valid {
      var f := JudgedValid(p, Some(c), r);
      TerminalFrame(p, c, f, r.timeMs);
    }
  }

  // --- TypeErrors ---

  /** The frames on which validation tests an array or object for set membership. */
  predicate Unchecked(f: Frame) {
    Get(f, "type").Arr? || Get(f, "type").Obj? ||
    (Get(f, "type") == Str("receipt") && RequiredKeys("receipt") <= f.Keys <= RequiredKeys("receipt") + OptionalKeys("receipt") &&
     Get(f, "from").Str? && IsDid(StringAt(f, "from")) && Get(f, "contract").Str? && IsHex32(StringAt(f, "contract")) &&
     (Get(f, "outcome").Arr? || Get(f, "outcome").Obj?))
  }

  lemma RailsNeverRaise(rails: seq<Json>)
    ensures RequireRails(rails) != Raised
  {
    hide IsRail;
  }

  lemma OfferNeverRaises(p: Primitives, f: Frame)
    ensures ValidateOffer(p, f) != Raised
  {
    match Get(f, "rails") {
      case Arr(rails) => RailsNeverRaise(rails);
      case _ =>
    }
    hide IsAmount, IsAsset, IsNonce, OfferId, RequireRails;
  }

  /** Validation raises exactly on those frames. */
  lemma RaisesExactly(p: Primitives, f: Frame)
    ensures ValidateFrame(p, f) == Raised <==> Unchecked(f)
  {
    OfferNeverRaises(p, f);
    hide IsDid, IsHex32, IsNonce, IsStatement, IsRail, ValidateOffer;
  }

  /** One record stops the fold exactly when a contract is open, the record comes from its
      sender into the expected room, and its frame is one of those. */
  lemma StopsExactly(p: Primitives, deal: Option<Contract>, r: Record)
    ensures Judge(p, deal, r) == Raised <==>
      deal.Some? && DecodeFrame(r.line).Some? &&
      var f := DecodeFrame(r.line).value;
      Get(f, "from") == Str(r.sender) && r.room == ExpectedRoom(deal.value, Get(f, "type")) && Unchecked(f)
  {
    if DecodeFrame(r.line).Some? {
      var f := DecodeFrame(r.line).value;
      RaisesExactly(p, f);
      if deal.Some? {
        GuardRaises(p, deal.value, f, r.timeMs);
      }
    }
    hide ValidateFrame, DecodeFrame, Guard, IsDid, IsHex32;
  }

  lemma GuardRaises(p: Primitives, c: Contract, f: Frame, now: int)
    ensures Guard(p, c, f, now) == Raised <==> ValidateFrame(p, f) == Raised
  {
    hide ValidateFrame, ContractId, AcceptCore, VerifyPreimage, RailOffered;
  }

  /** Record i is the one that stops the fold. */
  ghost predicate StoppedAt(p: Primitives, records: seq<Record>, i: int) {
    0 <= i < |records| && !Fold(p, records[..i]).raised && Judge(p, Fold(p, records[..i]).deal, records[i]) == Raised
  }

  lemma StoppedInPrefix(p: Primitives, records: seq<Record>, n: nat, i: int)
    requires 0 <= i < n <= |records|
    ensures StoppedAt(p, records[..n], i) <==> StoppedAt(p, records, i)
  {
    assert records[..n][..i] == records[..i];
    hide Judge, Fold;
  }

  lemma LastStops(p: Primitives, records: seq<Record>)
    requires records != []
    ensures Fold(p, records).raised <==> Fold(p, records[..|records| - 1]).raised || StoppedAt(p, records, |records| - 1)
  {
    hide Judge, Advance, KindOf;
  }

  /** The fold of a transcript is cut short exactly when one of its records stops it. */
  lemma {:induction false} RaisedExactly(p: Primitives, records: seq<Record>)
    ensures Fold(p, records).raised <==> exists i :: StoppedAt(p, records, i)
    decreases |records|
  {
    hide *;
    if records == [] {
      NothingStops(p);
    } else {
      var n := |records| - 1;
      RaisedExactly(p, records[..n]);
      LastStops(p, records);
      if Fold(p, records[..n]).raised {
        var i :| StoppedAt(p, records[..n], i);
        StoppedRange(p, records[..n], i);
        StoppedInPrefix(p, records, n, i);
      }
      if i :| StoppedAt(p, records, i) {
        StoppedRange(p, records, i);
        if i < n {
          StoppedInPrefix(p, records, n, i);
        }
      }
    }
  }

  lemma NothingStops(p: Primitives)
    ensures !Fold(p, []).raised && forall i :: !StoppedAt(p, [], i)
  {
  }

  lemma StoppedRange(p: Primitives, records: seq<Record>, i: int)
    requires StoppedAt(p, records, i)
    ensures 0 <= i < |records|
  {
  }

  // --- Cancellation and receipts ---

  /** Only a cancel leads to the cancelled status. */
  lemma CancelOnly(p: Primitives, c: Contract, f: Frame, now: int)
    requires Guard(p, c, f, now) == Valid && c.status != Cancelled && Effect(c, f).status == Cancelled
    ensures Get(f, "type") == Str("cancel") && IsParty(c, StringAt(f, "from")) && Effect(c, f) == c.(status := Cancelled)
    ensures c.status == Proposed || c.status == Accepted
  {
    GuardValidates(p, c, f, now);
    hide ValidateFrame, Guard, Effect, ContractId, VerifyPreimage, RailOffered, AcceptCore, IsParty;
    match StringAt(f, "type")
    case "accept" => AcceptFacts(p, c, f, now);
    case "lock" => LockFacts(p, c, f, now);
    case "reveal" => RevealFacts(p, c, f, now);
    case "refund" => RefundFacts(p, c, f, now);
    case "cancel" => CancelFacts(p, c, f, now);
    case _ => OtherFacts(p, c, f, now);
  }

  /** The sender of the record that posted the offer, or of the one that accepted it. */
  ghost predicate PostedBy(records: seq<Record>, c: Contract, h: History, did: string) {
    (0 <= h.offerAt < |records| && did == records[h.offerAt].sender) ||
    (c.id != None && 0 <= h.acceptAt < |records| && did == records[h.acceptAt].sender)
  }

  /** The parties of a contract are exactly the senders of its offer and of its accept. */
  lemma PartiesPosted(p: Primitives, records: seq<Record>, c: Contract, h: History, did: string)
    requires Sane(p, c) && Explains(p, records, c, h)
    ensures IsParty(c, did) <==> PostedBy(records, c, h, did)
  {
    hide ValidateFrame, DecodeFrame, ContractId, AcceptCore, IsStatement, LockAt, RevealAt, RefundAt;
  }

  /** Record i is a cancel by one of those two, posted where the contract then lived. */
  ghost predicate CancelAt(records: seq<Record>, i: int, c: Contract, h: History) {
    0 <= i < |records| && KindOf(records[i]) == Str("cancel") && PostedBy(records, c, h, records[i].sender) &&
    records[i].room == (if c.id == None then OFFER_ROOM else DealRoom(c.id.value))
  }

  /** Cancelled means: the sender of the offer or of the accept cancelled it before any lock, and
      nothing has changed since. */
  lemma {:induction false} CancelledMeans(p: Primitives, records: seq<Record>) returns (i: int, h: History)
    requires Fold(p, records).deal.Some? && Fold(p, records).deal.value.status == Cancelled
    ensures CancelAt(records, i, Fold(p, records).deal.value, h) && i in Fold(p, records).accepted
    ensures Explains(p, records, Fold(p, records).deal.value, h) && Counted(Fold(p, records).accepted, Fold(p, records).deal.value, h)
    ensures var before := Fold(p, records[..i]).deal;
      before.Some? && (before.value.status == Proposed || before.value.status == Accepted) &&
      Fold(p, records).deal.value == before.value.(status := Cancelled)
    decreases |records|
  {
    hide Judge, Advance, IsParty, DealRoom, KindOf, Explains, Counted, PostedBy;
    var n := |records| - 1;
    var o, r := Fold(p, records[..n]), records[n];
    assert records[..n] + [r] == records;
    if o.deal.Some? && o.deal.value.status == Cancelled {
      TerminalAbsorbs(p, records[..n], [r]);
      i, h := CancelledMeans(p, records[..n]);
      assert records[..n][..i] == records[..i];
      CancelLonger(p, records, n, i, o.deal.value, h);
      CountedLonger(o.accepted, n, o.deal.value, h);
    } else {
      i := n;
      CancelNowLast(p, o.deal, r);
      h := Explained(p, records);
      LifecycleFollowed(p, records);
      CancelPosted(p, records, o.deal.value, Fold(p, records).deal.value, h);
    }
  }

  lemma CancelPosted(p: Primitives, records: seq<Record>, c: Contract, d: Contract, h: History)
    requires records != [] && d == c.(status := Cancelled) && Sane(p, d) && Explains(p, records, d, h)
    requires IsParty(c, records[|records| - 1].sender) && KindOf(records[|records| - 1]) == Str("cancel")
    requires records[|records| - 1].room == (if d.id == None then OFFER_ROOM else DealRoom(d.id.value))
    ensures CancelAt(records, |records| - 1, d, h)
  {
    assert IsParty(d, records[|records| - 1].sender);
    PartiesPosted(p, records, d, h, records[|records| - 1].sender);
    hide IsParty, PostedBy, Sane, Explains, KindOf, DealRoom;
  }

  lemma CountedLonger(accepted: seq<nat>, n: nat, c: Contract, h: History)
    requires Counted(accepted, c, h)
    ensures Counted(accepted + [n], c, h)
  {
  }

  lemma CancelLonger(p: Primitives, records: seq<Record>, n: nat, i: int, c: Contract, h: History)
    requires n <= |records| && CancelAt(records[..n], i, c, h) && Explains(p, records[..n], c, h)
    ensures CancelAt(records, i, c, h) && Explains(p, records, c, h)
  {
    ExplainsLonger(p, records, n, c, h);
    hide Explains, KindOf, DealRoom;
  }

  lemma CancelNowLast(p: Primitives, deal: Option<Contract>, r: Record)
    requires Judge(p, deal, r) == Valid && Advance(deal, r).Some? && Advance(deal, r).value.status == Cancelled
    requires deal == None || deal.value.status != Cancelled
    ensures deal.Some? && (deal.value.status == Proposed || deal.value.status == Accepted)
    ensures Advance(deal, r) == Some(deal.value.(status := Cancelled))
    ensures IsParty(deal.value, r.sender) && KindOf(r) == Str("cancel")
    ensures r.room == (if deal.value.id == None then OFFER_ROOM else DealRoom(deal.value.id.value))
  {
    var f := JudgedValid(p, deal, r);
    hide Judge, Advance, Guard, Effect, ValidateFrame, DecodeFrame, DealRoom, KindOf, IsParty;
    if deal.Some? {
      CancelOnly(p, deal.value, f, r.timeMs);
    }
  }

  ghost predicate Truthful(c: Contract, f: Frame) {
    Get(f, "outcome") == Str(StatusText(c.status)) &&
    (Get(f, "rail") == Null || c.rail == None || c.rail == Some(StringAt(f, "rail"))) &&
    (Get(f, "ref") == Null || c.railRef == None || c.railRef == Some(StringAt(f, "ref"))) &&
    (c.status == Cancelled ==> Get(f, "rail") == Null && Get(f, "ref") == Null)
  }

  lemma ReceiptFacts(p: Primitives, c: Contract, f: Frame, now: int)
    requires Guard(p, c, f, now) == Valid && StringAt(f, "type") == "receipt"
    ensures Terminal(c.status) && c.id == Some(StringAt(f, "contract")) && IsParty(c, StringAt(f, "from")) && Truthful(c, f)
  {
    hide ValidateFrame, IsParty;
  }

  /** An accepted receipt tells the truth: it comes from the sender of the offer or of the accept,
      in the deal room, names the final status, and contradicts neither the rail nor the reference
      of the lock. */
  lemma ReceiptTruthful(p: Primitives, records: seq<Record>, r: Record) returns (h: History)
    requires Fold(p, records).deal.Some? && Judge(p, Fold(p, records).deal, r) == Valid && KindOf(r) == Str("receipt")
    ensures var c := Fold(p, records).deal.value;
      Explains(p, records, c, h) && Counted(Fold(p, records).accepted, c, h) && PostedBy(records, c, h, r.sender) &&
      Terminal(c.status) && c.id.Some? && r.room == DealRoom(c.id.value) && DecodeFrame(r.line).Some? &&
      Truthful(c, DecodeFrame(r.line).value)
  {
    var c := Fold(p, records).deal.value;
    var f := JudgedValid(p, Some(c), r);
    h := Explained(p, records);
    LifecycleFollowed(p, records);
    PartiesPosted(p, records, c, h, r.sender);
    hide Fold, Guard, ValidateFrame, DecodeFrame, DealRoom, Judge, Advance, Truthful, IsParty, Explains, Counted, PostedBy, Sane;
    ReceiptFacts(p, c, f, r.timeMs);
  }

  lemma HeartbeatFacts(p: Primitives, c: Contract, f: Frame, now: int)
    requires Guard(p, c, f, now) == Valid && StringAt(f, "type") == "heartbeat"
    ensures (c.status == Accepted || c.status == Locked) && c.id == Some(StringAt(f, "contract")) && IsParty(c, StringAt(f, "from"))
  {
    hide ValidateFrame, IsParty;
  }

  /** An accepted heartbeat comes from one of those two, in the room of the deal it names, while
      the deal is accepted or locked. */
  lemma HeartbeatMeans(p: Primitives, records: seq<Record>, r: Record) returns (h: History)
    requires Fold(p, records).deal.Some? && Judge(p, Fold(p, records).deal, r) == Valid && KindOf(r) == Str("heartbeat")
    ensures var c := Fold(p, records).deal.value;
      Explains(p, records, c, h) && Counted(Fold(p, records).accepted, c, h) && PostedBy(records, c, h, r.sender) &&
      (c.status == Accepted || c.status == Locked) && c.id.Some? && r.room == DealRoom(c.id.value)
  {
    var c := Fold(p, records).deal.value;
    var f := JudgedValid(p, Some(c), r);
    h := Explained(p, records);
    LifecycleFollowed(p, records);
    PartiesPosted(p, records, c, h, r.sender);
    hide Fold, Guard, ValidateFrame, DecodeFrame, DealRoom, Judge, Advance, IsParty, Explains, Counted, PostedBy, Sane;
    HeartbeatFacts(p, c, f, r.timeMs);
  }
}
