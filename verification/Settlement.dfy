/** A deal can always be carried through: what the parties may post next, and that it is accepted. */
module Settlement {
  import opened Text
  import opened Json
  import opened Frames
  import opened Deals
  import opened Transcripts
  import opened TranscriptTheorems
  import opened Connector

  // ----- every reachable contract names its parties and itself properly

  ghost predicate Named(c: Contract) {
    IsDid(c.offerFrom) && (c.payer.Some? ==> IsDid(c.payer.value)) && (c.payee.Some? ==> IsDid(c.payee.value)) &&
    (c.id.Some? ==> IsHex32(c.id.value))
  }

  lemma AcceptContractShape(p: Primitives, f: Frame)
    requires ValidateFrame(p, f) == Valid && StringAt(f, "type") == "accept"
    ensures IsHex32(StringAt(f, "contract"))
  {
    hide IsHex32, IsNonce, IsDid, IsStatement;
  }

  lemma EffectNamed(p: Primitives, c: Contract, f: Frame, now: int)
    requires Named(c) && Guard(p, c, f, now) == Valid
    ensures Named(Effect(c, f))
  {
    GuardValidates(p, c, f, now);
    ValidFrameType(p, f);
    hide ValidateFrame, Guard, Effect, IsDid, IsHex32, ContractId, AcceptCore, VerifyPreimage, RailOffered;
    match StringAt(f, "type")
    case "accept" =>
      AcceptFacts(p, c, f, now);
      AcceptContractShape(p, f);
    case "lock" => LockFacts(p, c, f, now);
    case "reveal" => RevealFacts(p, c, f, now);
    case "refund" => RefundFacts(p, c, f, now);
    case "cancel" => CancelFacts(p, c, f, now);
    case _ => OtherFacts(p, c, f, now);
  }

  lemma OpeningNamed(p: Primitives, f: Frame)
    requires ValidateFrame(p, f) == Valid
    ensures Named(Opened(f))
  {
    ValidFrameType(p, f);
    hide ValidateFrame, IsDid;
  }

  /** Identities and contract id of any open contract have the protocol's shape. */
  lemma {:induction false} AlwaysNamed(p: Primitives, records: seq<Record>)
    ensures Fold(p, records).deal != None ==> Named(Fold(p, records).deal.value)
    decreases |records|
  {
    hide Judge, Advance, Named;
    if records != [] {
      var n := |records| - 1;
      var o, r := Fold(p, records[..n]), records[n];
      AlwaysNamed(p, records[..n]);
      if !o.raised && Judge(p, o.deal, r) == Valid {
        var f := JudgedValid(p, o.deal, r);
        if o.deal == None {
          OpeningNamed(p, f);
        } else {
          EffectNamed(p, o.deal.value, f, r.timeMs);
        }
      }
    }
  }

  // ----- opening a deal

  function LineOf(f: Frame): string {
    PREFIX + Canonical(Obj(f), true)
  }

  /** Any valid offer, posted by its sender in the offer room, opens a contract. */
  lemma OfferOpens(p: Primitives, f: Frame, time: int)
    requires ValidateFrame(p, f) == Valid && Get(f, "type") == OFFER
    ensures Fold(p, [Record(OFFER_ROOM, time, StringAt(f, "from"), LineOf(f))]) == Outcome(Some(Opened(f)), [0], [], false)
  {
    var r := Record(OFFER_ROOM, time, StringAt(f, "from"), LineOf(f));
    FoldDecodesBuilt(f);
    ValidFrameType(p, f);
    hide ValidateFrame, Canonical, DecodeFrame, Opened;
    assert [] + [r] == [r];
    FoldSnoc(p, [], r);
  }

  // ----- locking and ending it

  function LockFrame(sender: string, contract: string, rail: string, ref: string): Frame {
    map["type" := Str("lock"), "from" := Str(sender), "contract" := Str(contract), "rail" := Str(rail), "ref" := Str(ref)]
  }

  function RevealFrame(sender: string, contract: string, secret: string): Frame {
    map["type" := Str("reveal"), "from" := Str(sender), "contract" := Str(contract), "secret" := Str(secret)]
  }

  function RefundFrame(sender: string, contract: string): Frame {
    map["type" := Str("refund"), "from" := Str(sender), "contract" := Str(contract)]
  }

  lemma LockFrameValid(p: Primitives, sender: string, contract: string, rail: string, ref: string)
    requires IsDid(sender) && IsHex32(contract) && IsRail(rail)
    ensures ValidateFrame(p, LockFrame(sender, contract, rail, ref)) == Valid
  {
    hide IsDid, IsHex32, IsRail, ValidateOffer;
    assert LockFrame(sender, contract, rail, ref).Keys == RequiredKeys("lock");
  }

  lemma RevealFrameValid(p: Primitives, sender: string, contract: string, secret: string)
    requires IsDid(sender) && IsHex32(contract) && IsHex32(secret)
    ensures ValidateFrame(p, RevealFrame(sender, contract, secret)) == Valid
  {
    hide IsDid, IsHex32, ValidateOffer;
    assert RevealFrame(sender, contract, secret).Keys == RequiredKeys("reveal");
  }

  lemma RefundFrameValid(p: Primitives, sender: string, contract: string)
    requires IsDid(sender) && IsHex32(contract)
    ensures ValidateFrame(p, RefundFrame(sender, contract)) == Valid
  {
    hide IsDid, IsHex32, ValidateOffer;
    assert RefundFrame(sender, contract).Keys == RequiredKeys("refund");
  }

  lemma {:induction false} RailsShaped(rails: seq<Json>, rail: string)
    requires RequireRails(rails) == Valid && Str(rail) in rails
    ensures IsRail(rail)
  {
    hide IsRail;
    if rails[0] != Str(rail) {
      RailsShaped(rails[1..], rail);
    }
  }

  lemma OfferedRail(p: Primitives, f: Frame, rail: string)
    requires ValidateFrame(p, f) == Valid && Get(f, "type") == OFFER && Str(rail) in RailsOf(f)
    ensures IsRail(rail)
  {
    assert RequireRails(RailsOf(f)) == Valid by {
      hide IsRail, IsDid, IsNonce, IsAmount, IsAsset, OfferId, RequireRails;
    }
    RailsShaped(RailsOf(f), rail);
  }

  /** The record a party posts in the deal room. */
  function InDeal(c: Contract, time: int, f: Frame): Record
    requires c.id.Some?
  {
    Record(DealRoom(c.id.value), time, StringAt(f, "from"), LineOf(f))
  }

  lemma InDealJudged(p: Primitives, c: Contract, time: int, f: Frame)
    requires c.id.Some? && Get(f, "from").Str? && Get(f, "type") != OFFER && Get(f, "type") != ACCEPT
    ensures Judge(p, Some(c), InDeal(c, time, f)) == Guard(p, c, f, time)
    ensures Advance(Some(c), InDeal(c, time, f)) == Some(Effect(c, f))
  {
    hide Canonical, DecodeFrame, Guard, Effect, DealRoom;
    FoldDecodesBuilt(f);
    JudgedByGuard(p, c, InDeal(c, time, f), f);
  }

  /** The payer's lock on a rail of the offer is accepted before the refund window. */
  lemma LockJudged(p: Primitives, c: Contract, rail: string, ref: string, time: int)
    requires Sane(p, c) && Named(c) && c.status == Accepted && Str(rail) in RailsOf(c.offer)
    ensures var r := InDeal(c, time, LockFrame(c.payer.value, c.id.value, rail, ref));
      (Judge(p, Some(c), r) == Valid <==> time < Instant(c.offer, "refundAfterMs")) &&
      Advance(Some(c), r) == Some(c.(status := Locked, rail := Some(rail), railRef := Some(ref)))
  {
    hide ValidateFrame, Judge, Advance, IsDid, IsHex32, IsRail, InDeal;
    var f := LockFrame(c.payer.value, c.id.value, rail, ref);
    OfferedRail(p, c.offer, rail);
    LockFrameValid(p, c.payer.value, c.id.value, rail, ref);
    InDealJudged(p, c, time, f);
    LockGuard(p, c, f, time);
  }

  lemma LockGuard(p: Primitives, c: Contract, f: Frame, now: int)
    requires ValidateFrame(p, f) == Valid && StringAt(f, "type") == "lock" && c.status == Accepted
    requires Some(StringAt(f, "contract")) == c.id && Some(StringAt(f, "from")) == c.payer
    requires Str(StringAt(f, "rail")) in RailsOf(c.offer)
    ensures Guard(p, c, f, now) == Valid <==> now < Instant(c.offer, "refundAfterMs")
  {
    hide ValidateFrame;
  }

  predicate IsClaim(p: Primitives, c: Contract, f: Frame)
    requires c.statement.Some?
  {
    StringAt(f, "type") == "reveal" && Some(StringAt(f, "from")) == c.payee &&
    VerifyPreimage(p, c.statement.value, StringAt(f, "secret"))
  }

  lemma EndGuards(p: Primitives, c: Contract, f: Frame, now: int)
    requires ValidateFrame(p, f) == Valid && c.status == Locked && Get(f, "ref") == Null
    requires Some(StringAt(f, "contract")) == c.id && c.statement.Some?
    ensures IsClaim(p, c, f) ==>
      (Guard(p, c, f, now) == Valid <==> now < Instant(c.offer, "refundAfterMs"))
    ensures StringAt(f, "type") == "refund" && Some(StringAt(f, "from")) == c.payer ==>
      (Guard(p, c, f, now) == Valid <==> now >= Instant(c.offer, "refundAfterMs"))
  {
    hide ValidateFrame, VerifyPreimage;
  }

  /** At every moment exactly one end of a locked deal is open: the payee's reveal of the
      opening secret before the refund window, the payer's refund from then on. */
  lemma EndJudged(p: Primitives, c: Contract, secret: string, time: int)
    requires Sane(p, c) && Named(c) && c.status == Locked && IsHex32(secret)
    requires VerifyPreimage(p, c.statement.value, secret)
    ensures var claim := InDeal(c, time, RevealFrame(c.payee.value, c.id.value, secret));
      var refund := InDeal(c, time, RefundFrame(c.payer.value, c.id.value));
      (Judge(p, Some(c), claim) == Valid <==> time < Instant(c.offer, "refundAfterMs")) &&
      (Judge(p, Some(c), refund) == Valid <==> time >= Instant(c.offer, "refundAfterMs")) &&
      Advance(Some(c), claim) == Some(c.(status := Claimed, secret := Some(secret))) &&
      Advance(Some(c), refund) == Some(c.(status := Refunded))
  {
    hide ValidateFrame, Judge, Advance, IsDid, IsHex32, InDeal, VerifyPreimage;
    var claim, refund := RevealFrame(c.payee.value, c.id.value, secret), RefundFrame(c.payer.value, c.id.value);
    RevealFrameValid(p, c.payee.value, c.id.value, secret);
    RefundFrameValid(p, c.payer.value, c.id.value);
    InDealJudged(p, c, time, claim);
    InDealJudged(p, c, time, refund);
    EndGuards(p, c, claim, time);
    EndGuards(p, c, refund, time);
  }

  /** After any transcript that leaves a deal accepted, the payer's lock on an offered rail and
      then, at whatever time, either the payee's reveal or the payer's refund settle it. */
  lemma DealSettles(p: Primitives, records: seq<Record>, rail: string, ref: string, secret: string, lockTime: int, endTime: int)
    requires !Fold(p, records).raised && Fold(p, records).deal.Some?
    requires Settleable(p, Fold(p, records).deal.value, rail, secret, lockTime)
    ensures Settled(p, records, rail, ref, secret, lockTime, endTime)
  {
    LifecycleFollowed(p, records);
    AlwaysNamed(p, records);
    var c := Fold(p, records).deal.value;
    hide Fold, Sane, Named, IsHex32, VerifyPreimage;
    SaneParties(p, c);
    SettledFrom(p, records, c, rail, ref, secret, lockTime, endTime);
  }

  /** An accepted deal, one of its rails, a time to lock it and a secret that opens it. */
  ghost predicate Settleable(p: Primitives, c: Contract, rail: string, secret: string, lockTime: int) {
    c.status == Accepted && Str(rail) in RailsOf(c.offer) && lockTime < Instant(c.offer, "refundAfterMs") &&
    IsHex32(secret) && c.statement.Some? && VerifyPreimage(p, c.statement.value, secret)
  }

  lemma SaneParties(p: Primitives, c: Contract)
    requires Sane(p, c) && (c.status == Accepted || c.status == Locked)
    ensures c.id.Some? && c.payer.Some? && c.payee.Some? && c.statement.Some?
  {
    hide ValidateFrame;
  }

  ghost predicate Settled(p: Primitives, records: seq<Record>, rail: string, ref: string, secret: string, lockTime: int, endTime: int)
  {
    var before := Fold(p, records);
    before.deal.Some? && before.deal.value.id.Some? && before.deal.value.payer.Some? && before.deal.value.payee.Some? &&
    var c := before.deal.value;
    var lock := InDeal(c, lockTime, LockFrame(c.payer.value, c.id.value, rail, ref));
    var end := if endTime < Instant(c.offer, "refundAfterMs")
      then InDeal(c, endTime, RevealFrame(c.payee.value, c.id.value, secret))
      else InDeal(c, endTime, RefundFrame(c.payer.value, c.id.value));
    var after := Fold(p, records + [lock] + [end]);
    !after.raised && after.rejections == before.rejections && after.deal.Some? &&
    after.deal.value.status == (if endTime < Instant(c.offer, "refundAfterMs") then Claimed else Refunded)
  }

  lemma SettledFrom(p: Primitives, records: seq<Record>, c: Contract, rail: string, ref: string, secret: string,
                    lockTime: int, endTime: int)
    requires !Fold(p, records).raised && Fold(p, records).deal == Some(c) && Sane(p, c) && Named(c)
    requires c.status == Accepted && Str(rail) in RailsOf(c.offer) && lockTime < Instant(c.offer, "refundAfterMs")
    requires c.id.Some? && c.payer.Some? && c.payee.Some? && c.statement.Some?
    requires IsHex32(secret) && VerifyPreimage(p, c.statement.value, secret)
    ensures Settled(p, records, rail, ref, secret, lockTime, endTime)
  {
    hide Fold, Judge, Advance, IsHex32, VerifyPreimage, InDeal, RailsOf, LockFrame, RevealFrame, RefundFrame, ValidateFrame;
    var lock := InDeal(c, lockTime, LockFrame(c.payer.value, c.id.value, rail, ref));
    LockJudged(p, c, rail, ref, lockTime);
    FoldSnoc(p, records, lock);
    var d := c.(status := Locked, rail := Some(rail), railRef := Some(ref));
    assert Fold(p, records + [lock]).deal == Some(d);
    SameRoom(c, d, endTime, RevealFrame(c.payee.value, c.id.value, secret));
    SameRoom(c, d, endTime, RefundFrame(c.payer.value, c.id.value));
    EndJudged(p, d, secret, endTime);
    FoldSnoc(p, records + [lock], InDeal(d, endTime, RevealFrame(c.payee.value, c.id.value, secret)));
    FoldSnoc(p, records + [lock], InDeal(d, endTime, RefundFrame(c.payer.value, c.id.value)));
  }

  lemma SameRoom(c: Contract, d: Contract, time: int, f: Frame)
    requires c.id.Some? && d.id == c.id
    ensures InDeal(c, time, f) == InDeal(d, time, f)
  {
  }

  // ----- the agent is paid

  lemma PreimageShaped(p: Primitives, offerId: string, seed: seq<byte>)
    requires p.Sound()
    ensures IsHex32(DerivedHashlock(p, offerId, seed).0)
  {
    var raw := p.hmac(seed, "tclk/1|claim|" + offerId);
    assert |ToHex(raw)| == 64;
    HexIdShape(ToHex(raw));
  }

  /** From any transcript with an offer open to the agent: its accept and heartbeat, the payer's
      lock on an offered rail, and a reveal of the derived preimage that names sender and
      contract end in a claimed deal, or, once the refund window is open, the payer's refund in a
      refunded one. The connector's own reveal names neither and would be rejected. */
  lemma AgentIsPaid(p: Primitives, records: seq<Record>, sender: string, seed: seq<byte>, nonce: string,
                    beat: string, note: string, time: int, beatTime: int, rail: string, ref: string, lockTime: int, endTime: int)
    requires p.Sound() && IsDid(sender) && IsNonce(nonce) && IsNonce(beat)
    requires !Fold(p, records).raised && Fold(p, records).deal.Some?
    requires Answerable(p, Fold(p, records).deal.value, sender)
    requires time < Instant(Fold(p, records).deal.value.offer, "expiresMs")
    requires Str(rail) in RailsOf(Fold(p, records).deal.value.offer)
    requires lockTime < Instant(Fold(p, records).deal.value.offer, "refundAfterMs")
    ensures var c := Fold(p, records).deal.value;
      var contract := AgentContract(p, c.offer, sender, seed, nonce);
      var accept := Record(OFFER_ROOM, time, sender, AgentAccept(p, c.offer, sender, seed, nonce));
      var heartbeat := Record(DealRoomOf(contract), beatTime, sender, BuildHeartbeat(sender, contract, beat, note));
      Settled(p, records + [accept] + [heartbeat], rail, ref, DerivedHashlock(p, StringAt(c.offer, "id"), seed).0, lockTime, endTime)
  {
    var c := Fold(p, records).deal.value;
    AgentInteroperates(p, records, sender, seed, nonce, beat, note, time, beatTime);
    PreimageShaped(p, StringAt(c.offer, "id"), seed);
    hide Fold, Answerable, AgentContract, AgentAccept, BuildHeartbeat, DealRoomOf, DerivedHashlock, VerifyPreimage, IsHex32,
      IsDid, IsNonce, Settled, RailsOf;
    var contract := AgentContract(p, c.offer, sender, seed, nonce);
    var accept := Record(OFFER_ROOM, time, sender, AgentAccept(p, c.offer, sender, seed, nonce));
    var heartbeat := Record(DealRoomOf(contract), beatTime, sender, BuildHeartbeat(sender, contract, beat, note));
    DealSettles(p, records + [accept] + [heartbeat], rail, ref, DerivedHashlock(p, StringAt(c.offer, "id"), seed).0, lockTime, endTime);
  }
}
