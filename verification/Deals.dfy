/** The contract machine: what one frame does to an open contract. */
module Deals {
  import opened Text
  import opened Json
  import opened Frames

  /** A contract as the fold's state dictionary holds it. */
  datatype Contract = Contract(
    status: Status, offer: Frame, offerFrom: string, payer: Option<string>, payee: Option<string>,
    id: Option<string>, statement: Option<string>, rail: Option<string>, railRef: Option<string>,
    secret: Option<string>)

  function RailsOf(offer: Frame): seq<Json> {
    match Get(offer, "rails")
    case Arr(rails) => rails
    case _ => []
  }

  predicate RailOffered(rails: seq<Json>, selected: string) {
    Str(selected) in rails || exists r :: r in rails && r.Str? && Lower(r.s) == Lower(selected)
  }

  predicate IsParty(c: Contract, did: string) {
    c.offerFrom == did || c.payer == Some(did) || c.payee == Some(did)
  }

  /** The contract a valid offer opens. */
  function Opened(f: Frame): Contract {
    var sender := StringAt(f, "from");
    Contract(Proposed, f, sender,
             if Get(f, "role") == Str("payer") then Some(sender) else None,
             if Get(f, "role") == Str("payee") then Some(sender) else None,
             None, None, None, None, None)
  }

  predicate Deadline(c: Contract, key: string, now: int) {
    now >= Instant(c.offer, key)
  }

  predicate RefersElsewhere(c: Contract, f: Frame) {
    Get(f, "ref") != Null && Some(StringAt(f, "ref")) != c.railRef
  }

  /** The guards of one frame in the order in which they are tried. */
  function Guard(p: Primitives, c: Contract, f: Frame, now: int): Verdict {
    var v := ValidateFrame(p, f);
    if v != Valid then v else
      var sender, named := StringAt(f, "from"), Some(StringAt(f, "contract"));
      match StringAt(f, "type")
      case "offer" => Rejected(AlreadyOpen)
      case "accept" =>
        if c.status != Proposed then Rejected(InStatus("accept", c.status))
        else if Get(f, "ref") != Get(c.offer, "id") then Rejected(OtherOffer)
        else if sender == c.offerFrom then Rejected(OwnOffer)
        else if Deadline(c, "expiresMs", now) then Rejected(OfferExpired)
        else if named != Some(ContractId(p, c.offer, AcceptCore(f))) then Rejected(ContractIdMismatch)
        else if Get(c.offer, "lock") == Str("point") && Get(f, "paymentKey") == Null then Rejected(AcceptorKeyMissing)
        else Valid
      case "lock" =>
        if c.status != Accepted then Rejected(InStatus("lock", c.status))
        else if named != c.id then Rejected(OtherContract)
        else if Some(sender) != c.payer then Rejected(NotPayer)
        else if Deadline(c, "refundAfterMs", now) then Rejected(RefundWindowOpen)
        else if !RailOffered(RailsOf(c.offer), StringAt(f, "rail")) then Rejected(RailNotOffered)
        else Valid
      case "reveal" =>
        if c.status != Locked then Rejected(InStatus("reveal", c.status))
        else if named != c.id then Rejected(OtherContract)
        else if RefersElsewhere(c, f) then Rejected(OtherRailRef)
        else if Some(sender) != c.payee then Rejected(NotPayee)
        else if Deadline(c, "refundAfterMs", now) then Rejected(RefundWindowOpen)
        else if c.statement == None || !VerifyPreimage(p, c.statement.value, StringAt(f, "secret")) then Rejected(SecretDoesNotOpen)
        else Valid
      case "refund" =>
        if c.status != Locked then Rejected(InStatus("refund", c.status))
        else if named != c.id then Rejected(OtherContract)
        else if RefersElsewhere(c, f) then Rejected(OtherRailRef)
        else if Some(sender) != c.payer then Rejected(NotPayer)
        else if !Deadline(c, "refundAfterMs", now) then Rejected(RefundWindowClosed)
        else Valid
      case "cancel" =>
        if c.status != Proposed && c.status != Accepted then Rejected(InStatus("cancel", c.status))
        else if c.status == Accepted && named != c.id then Rejected(OtherContract)
        else if !IsParty(c, sender) then Rejected(NotParty)
        else Valid
      case "receipt" =>
        if !Terminal(c.status) then Rejected(ReceiptTooEarly)
        else if named != c.id then Rejected(OtherContract)
        else if !IsParty(c, sender) then Rejected(NotParty)
        else if Get(f, "outcome") != Str(StatusText(c.status)) then Rejected(OutcomeMismatch)
        else if Get(f, "rail") != Null && c.rail != None && Some(StringAt(f, "rail")) != c.rail then Rejected(RailMismatch)
        else if c.railRef != None && RefersElsewhere(c, f) then Rejected(ReceiptRefMismatch)
        else if c.status == Cancelled && (Get(f, "rail") != Null || Get(f, "ref") != Null) then Rejected(RailOnCancelled)
        else Valid
      case _ =>
        if c.status != Accepted && c.status != Locked then Rejected(InStatus("heartbeat", c.status))
        else if named != c.id then Rejected(OtherContract)
        else if !IsParty(c, sender) then Rejected(NotParty)
        else Valid
  }

  /** What an accepted frame changes. */
  function Effect(c: Contract, f: Frame): Contract {
    match StringAt(f, "type")
    case "accept" =>
      var joined := c.(status := Accepted, id := Some(StringAt(f, "contract")), statement := Some(StringAt(f, "statement")));
      if Get(c.offer, "role") == Str("payee") then joined.(payer := Some(StringAt(f, "from")))
      else joined.(payee := Some(StringAt(f, "from")))
    case "lock" => c.(status := Locked, rail := Some(StringAt(f, "rail")), railRef := Some(StringAt(f, "ref")))
    case "reveal" => c.(status := Claimed, secret := Some(StringAt(f, "secret")))
    case "refund" => c.(status := Refunded)
    case "cancel" => c.(status := Cancelled)
    case _ => c
  }

  /** The state dictionary, updated in place. */
  class Deal {
    var status: Status
    const offer: Frame
    const offerFrom: string
    var payer: Option<string>
    var payee: Option<string>
    var id: Option<string>
    var statement: Option<string>
    var rail: Option<string>
    var railRef: Option<string>
    var secret: Option<string>

    function Snapshot(): Contract
      reads this
    {
      Contract(status, offer, offerFrom, payer, payee, id, statement, rail, railRef, secret)
    }

    /** `open_contract`, once the offer has been validated. */
    constructor (f: Frame)
      ensures Snapshot() == Opened(f)
    {
      status := Proposed;
      offer := f;
      offerFrom := StringAt(f, "from");
      payer := if Get(f, "role") == Str("payer") then Some(StringAt(f, "from")) else None;
      payee := if Get(f, "role") == Str("payee") then Some(StringAt(f, "from")) else None;
      id, statement, rail, railRef, secret := None, None, None, None, None;
    }

    /** The branch of `apply_frame` for an accept. */
    method Accept(p: Primitives, f: Frame, now: int) returns (v: Verdict)
      requires ValidateFrame(p, f) == Valid && StringAt(f, "type") == "accept"
      modifies this
      ensures v == Guard(p, old(Snapshot()), f, now)
      ensures Snapshot() == if v == Valid then Effect(old(Snapshot()), f) else old(Snapshot())
    {
      hide ValidateFrame, ContractId, AcceptCore, IsParty, RailOffered, RefersElsewhere, VerifyPreimage;
      if status != Proposed {
        return Rejected(InStatus("accept", status));
      }
      if Get(f, "ref") != Get(offer, "id") {
        return Rejected(OtherOffer);
      }
      if StringAt(f, "from") == offerFrom {
        return Rejected(OwnOffer);
      }
      if now >= Instant(offer, "expiresMs") {
        return Rejected(OfferExpired);
      }
      if StringAt(f, "contract") != ContractId(p, offer, AcceptCore(f)) {
        return Rejected(ContractIdMismatch);
      }
      if Get(offer, "lock") == Str("point") && Get(f, "paymentKey") == Null {
        return Rejected(AcceptorKeyMissing);
      }
      status := Accepted;
      id := Some(StringAt(f, "contract"));
      statement := Some(StringAt(f, "statement"));
      if Get(offer, "role") == Str("payee") {
        payer := Some(StringAt(f, "from"));
      } else {
        payee := Some(StringAt(f, "from"));
      }
      return Valid;
    }

    method Lock(p: Primitives, f: Frame, now: int) returns (v: Verdict)
      requires ValidateFrame(p, f) == Valid && StringAt(f, "type") == "lock"
      modifies this
      ensures v == Guard(p, old(Snapshot()), f, now)
      ensures Snapshot() == if v == Valid then Effect(old(Snapshot()), f) else old(Snapshot())
    {
      hide ValidateFrame;
      if status != Accepted {
        return Rejected(InStatus("lock", status));
      }
      if Some(StringAt(f, "contract")) != id {
        return Rejected(OtherContract);
      }
      if Some(StringAt(f, "from")) != payer {
        return Rejected(NotPayer);
      }
      if now >= Instant(offer, "refundAfterMs") {
        return Rejected(RefundWindowOpen);
      }
      if !RailOffered(RailsOf(offer), StringAt(f, "rail")) {
        return Rejected(RailNotOffered);
      }
      status := Locked;
      rail := Some(StringAt(f, "rail"));
      railRef := Some(StringAt(f, "ref"));
      return Valid;
    }

    method Reveal(p: Primitives, f: Frame, now: int) returns (v: Verdict)
      requires ValidateFrame(p, f) == Valid && StringAt(f, "type") == "reveal"
      modifies this
      ensures v == Guard(p, old(Snapshot()), f, now)
      ensures Snapshot() == if v == Valid then Effect(old(Snapshot()), f) else old(Snapshot())
    {
      hide ValidateFrame, VerifyPreimage;
      if status != Locked {
        return Rejected(InStatus("reveal", status));
      }
      if Some(StringAt(f, "contract")) != id {
        return Rejected(OtherContract);
      }
      if Get(f, "ref") != Null && Some(StringAt(f, "ref")) != railRef {
        return Rejected(OtherRailRef);
      }
      if Some(StringAt(f, "from")) != payee {
        return Rejected(NotPayee);
      }
      if now >= Instant(offer, "refundAfterMs") {
        return Rejected(RefundWindowOpen);
      }
      if statement == None || !VerifyPreimage(p, statement.value, StringAt(f, "secret")) {
        return Rejected(SecretDoesNotOpen);
      }
      status := Claimed;
      secret := Some(StringAt(f, "secret"));
      return Valid;
    }

    method Refund(p: Primitives, f: Frame, now: int) returns (v: Verdict)
      requires ValidateFrame(p, f) == Valid && StringAt(f, "type") == "refund"
      modifies this
      ensures v == Guard(p, old(Snapshot()), f, now)
      ensures Snapshot() == if v == Valid then Effect(old(Snapshot()), f) else old(Snapshot())
    {
      hide ValidateFrame;
      if status != Locked {
        return Rejected(InStatus("refund", status));
      }
      if Some(StringAt(f, "contract")) != id {
        return Rejected(OtherContract);
      }
      if Get(f, "ref") != Null && Some(StringAt(f, "ref")) != railRef {
        return Rejected(OtherRailRef);
      }
      if Some(StringAt(f, "from")) != payer {
        return Rejected(NotPayer);
      }
      if now < Instant(offer, "refundAfterMs") {
        return Rejected(RefundWindowClosed);
      }
      status := Refunded;
      return Valid;
    }

    method Cancel(p: Primitives, f: Frame, now: int) returns (v: Verdict)
      requires ValidateFrame(p, f) == Valid && StringAt(f, "type") == "cancel"
      modifies this
      ensures v == Guard(p, old(Snapshot()), f, now)
      ensures Snapshot() == if v == Valid then Effect(old(Snapshot()), f) else old(Snapshot())
    {
      hide ValidateFrame;
      if status != Proposed && status != Accepted {
        return Rejected(InStatus("cancel", status));
      }
      if status == Accepted && Some(StringAt(f, "contract")) != id {
        return Rejected(OtherContract);
      }
      if !IsParty(Snapshot(), StringAt(f, "from")) {
        return Rejected(NotParty);
      }
      status := Cancelled;
      return Valid;
    }

    /** The branches that change nothing: receipts and heartbeats. */
    method Notice(p: Primitives, f: Frame, now: int) returns (v: Verdict)
      requires ValidateFrame(p, f) == Valid
      requires StringAt(f, "type") !in {"offer", "accept", "lock", "reveal", "refund", "cancel"}
      ensures v == Guard(p, Snapshot(), f, now)
    {
      hide ValidateFrame;
      var receipt := StringAt(f, "type") == "receipt";
      if receipt && !Terminal(status) {
        return Rejected(ReceiptTooEarly);
      }
      if !receipt && status != Accepted && status != Locked {
        return Rejected(InStatus("heartbeat", status));
      }
      if Some(StringAt(f, "contract")) != id {
        return Rejected(OtherContract);
      }
      if !IsParty(Snapshot(), StringAt(f, "from")) {
        return Rejected(NotParty);
      }
      if !receipt {
        return Valid;
      }
      if Get(f, "outcome") != Str(StatusText(status)) {
        return Rejected(OutcomeMismatch);
      }
      if Get(f, "rail") != Null && rail != None && Some(StringAt(f, "rail")) != rail {
        return Rejected(RailMismatch);
      }
      if Get(f, "ref") != Null && railRef != None && Some(StringAt(f, "ref")) != railRef {
        return Rejected(ReceiptRefMismatch);
      }
      if status == Cancelled && (Get(f, "rail") != Null || Get(f, "ref") != Null) {
        return Rejected(RailOnCancelled);
      }
      return Valid;
    }

    /** `apply_frame`: on success the fields move on, otherwise nothing changes. */
    method Apply(p: Primitives, f: Frame, now: int) returns (v: Verdict)
      modifies this
      ensures v == Guard(p, old(Snapshot()), f, now)
      ensures Snapshot() == if v == Valid then Effect(old(Snapshot()), f) else old(Snapshot())
    {
      v := ValidateFrame(p, f);
      if v != Valid {
        return;
      }
      var kind := StringAt(f, "type");
      if kind == "offer" {
        return Rejected(AlreadyOpen);
      }
      hide Guard, ValidateFrame;
      if kind == "accept" {
        v := Accept(p, f, now);
      } else if kind == "lock" {
        v := Lock(p, f, now);
      } else if kind == "reveal" {
        v := Reveal(p, f, now);
      } else if kind == "refund" {
        v := Refund(p, f, now);
      } else if kind == "cancel" {
        v := Cancel(p, f, now);
      } else {
        v := Notice(p, f, now);
      }
    }
  }
}
