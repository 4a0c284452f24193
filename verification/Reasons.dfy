/** Every reason the fold gives for turning a record down is true of that record. */
module Reasons {
  import opened Text
  import opened Json
  import opened Frames
  import opened Deals
  import opened Transcripts

  ghost predicate SomeRail(f: Frame, bad: Json -> bool) {
    Get(f, "type") == Str("offer") && exists rail :: rail in RailsOf(f) && bad(rail)
  }

  /** What a reason of the structural checks says about the frame. */
  ghost predicate Misshapen(p: Primitives, f: Frame, reason: Reason) {
    var kind := StringAt(f, "type");
    match reason
    case UnknownFrameType => !Get(f, "type").Str? || !KnownType(kind)
    case MissingFields(k) => k == kind && KnownType(k) && exists key :: key in RequiredKeys(k) && key !in f
    case UnexpectedFields(k) => k == kind && KnownType(k) && exists key :: key in f && key !in RequiredKeys(k) + OptionalKeys(k)
    case NotAString(key) => !Get(f, key).Str? || (key == "rail" && SomeRail(f, (v: Json) => !v.Str?))
    case MalformedField(key) =>
      (key == "rail" && SomeRail(f, (v: Json) => v.Str? && !IsRail(v.s))) ||
      (Get(f, key).Str? && Malformed(key, StringAt(f, key)))
    case BadRole => Get(f, "role") != Str("payer") && Get(f, "role") != Str("payee")
    case BadLock => Get(f, "lock") != Str("hash") && Get(f, "lock") != Str("point")
    case NoRails => RailsOf(f) == []
    case BadInstant(key) => !Get(f, key).Int? || Get(f, key).n < 0
    case ClaimNotBeforeRefund => Instant(f, "claimByMs") >= Instant(f, "refundAfterMs")
    case PaymentKeyMissing => Get(f, "lock") == Str("point") && Get(f, "paymentKey") == Null
    case OfferIdMismatch => Get(f, "id") != Str(OfferId(p, f))
    case BadOutcome => Get(f, "outcome") !in {Str("claimed"), Str("refunded"), Str("cancelled")}
    case _ => false
  }

  predicate Malformed(key: string, s: string) {
    match key
    case "from" => !IsDid(s)
    case "amount" => !IsAmount(s)
    case "asset" => !IsAsset(s)
    case "nonce" => !IsNonce(s)
    case "statement" => !IsStatement(s)
    case "rail" => !IsRail(s)
    case "ref" => !IsHex32(s)
    case "contract" => !IsHex32(s)
    case "secret" => !IsHex32(s)
    case _ => false
  }

  /** The statuses in which a kind of frame may come. */
  predicate InPlace(kind: string, status: Status) {
    match kind
    case "accept" => status == Proposed
    case "lock" => status == Accepted
    case "reveal" => status == Locked
    case "refund" => status == Locked
    case "cancel" => status == Proposed || status == Accepted
    case _ => status == Accepted || status == Locked
  }

  /** What a reason of the state machine says about the frame and the contract. */
  ghost predicate Refused(p: Primitives, c: Contract, f: Frame, now: int, reason: Reason) {
    var kind, sender := StringAt(f, "type"), StringAt(f, "from");
    match reason
    case AlreadyOpen => kind == "offer"
    case InStatus(k, status) => k == kind && status == c.status && !InPlace(kind, status)
    case OtherOffer => Get(f, "ref") != Get(c.offer, "id")
    case OwnOffer => sender == c.offerFrom
    case OfferExpired => now >= Instant(c.offer, "expiresMs")
    case ContractIdMismatch => StringAt(f, "contract") != ContractId(p, c.offer, AcceptCore(f))
    case AcceptorKeyMissing => Get(c.offer, "lock") == Str("point") && Get(f, "paymentKey") == Null
    case OtherContract => Some(StringAt(f, "contract")) != c.id
    case NotPayer => Some(sender) != c.payer
    case NotPayee => Some(sender) != c.payee
    case NotParty => sender != c.offerFrom && Some(sender) != c.payer && Some(sender) != c.payee
    case RefundWindowOpen => now >= Instant(c.offer, "refundAfterMs")
    case RefundWindowClosed => now < Instant(c.offer, "refundAfterMs")
    case RailNotOffered => !RailOffered(RailsOf(c.offer), StringAt(f, "rail"))
    case OtherRailRef => Get(f, "ref") != Null && Some(StringAt(f, "ref")) != c.railRef
    case SecretDoesNotOpen => c.statement == None || !VerifyPreimage(p, c.statement.value, StringAt(f, "secret"))
    case ReceiptTooEarly => kind == "receipt" && c.status != Claimed && c.status != Refunded && c.status != Cancelled
    case OutcomeMismatch => Get(f, "outcome") != Str(StatusText(c.status))
    case RailMismatch => Get(f, "rail") != Null && c.rail != None && Some(StringAt(f, "rail")) != c.rail
    case ReceiptRefMismatch => Get(f, "ref") != Null && c.railRef != None && Some(StringAt(f, "ref")) != c.railRef
    case RailOnCancelled => c.status == Cancelled && (Get(f, "rail") != Null || Get(f, "ref") != Null)
    case _ => false
  }

  ghost predicate Tells(p: Primitives, deal: Option<Contract>, r: Record, reason: Reason) {
    match DecodeFrame(r.line)
    case None => reason == NotDecoded
    case Some(f) =>
      match reason
      case SenderMismatch => Get(f, "from") != Str(r.sender)
      case NoContractOpen => deal == None && Get(f, "type") != Str("offer")
      case OfferOutsideOfferRoom => deal == None && r.room != "tclk-offers"
      case WrongRoom(expected) => deal != None && r.room != expected && expected == ExpectedRoom(deal.value, Get(f, "type"))
      case _ => Misshapen(p, f, reason) || (deal != None && Refused(p, deal.value, f, r.timeMs, reason))
  }

  lemma {:induction false} RailsTell(rails: seq<Json>, reason: Reason)
    requires RequireRails(rails) == Rejected(reason)
    ensures reason == NotAString("rail") ==> exists rail :: rail in rails && !rail.Str?
    ensures reason == MalformedField("rail") ==> exists rail :: rail in rails && rail.Str? && !IsRail(rail.s)
    ensures reason == NotAString("rail") || reason == MalformedField("rail")
  {
    hide IsRail;
    assert rails[0] in rails;
    if RequireString(rails[0], "rail", IsRail) == Valid {
      RailsTell(rails[1..], reason);
    }
  }

  lemma StringTells(p: Primitives, f: Frame, key: string, ok: string -> bool, reason: Reason)
    requires forall s :: !ok(s) ==> Malformed(key, s)
    requires RequireString(Get(f, key), key, ok) == Rejected(reason) || OptionalString(Get(f, key), key, ok) == Rejected(reason)
    ensures Misshapen(p, f, reason)
  {
    hide Malformed, SomeRail;
  }

  /** The plain tests of an offer. */
  lemma PlainTells(p: Primitives, f: Frame)
    ensures Get(f, "role") != Str("payer") && Get(f, "role") != Str("payee") ==> Misshapen(p, f, BadRole)
    ensures Get(f, "lock") != Str("hash") && Get(f, "lock") != Str("point") ==> Misshapen(p, f, BadLock)
    ensures !Get(f, "rails").Arr? || Get(f, "rails").elems == [] ==> Misshapen(p, f, NoRails)
    ensures Instant(f, "claimByMs") >= Instant(f, "refundAfterMs") ==> Misshapen(p, f, ClaimNotBeforeRefund)
    ensures Get(f, "lock") == Str("point") && Get(f, "paymentKey") == Null ==> Misshapen(p, f, PaymentKeyMissing)
    ensures Get(f, "id") != Str(OfferId(p, f)) ==> Misshapen(p, f, OfferIdMismatch)
    ensures forall key :: RequireInstant(Get(f, key), key) != Valid ==>
      RequireInstant(Get(f, key), key) == Rejected(BadInstant(key)) && Misshapen(p, f, BadInstant(key))
  {
    hide OfferId;
  }

  lemma OfferTells(p: Primitives, f: Frame, reason: Reason)
    requires Get(f, "type") == Str("offer") && ValidateOffer(p, f) == Rejected(reason)
    ensures Misshapen(p, f, reason)
  {
    hide Misshapen, IsAmount, IsAsset, IsNonce, IsRail, OfferId, RequireRails, RequireString, RequireInstant;
    PlainTells(p, f);
    if RequireString(Get(f, "amount"), "amount", IsAmount) == Rejected(reason) {
      StringTells(p, f, "amount", IsAmount, reason);
    } else if RequireString(Get(f, "asset"), "asset", IsAsset) == Rejected(reason) {
      StringTells(p, f, "asset", IsAsset, reason);
    } else if RequireString(Get(f, "nonce"), "nonce", IsNonce) == Rejected(reason) {
      StringTells(p, f, "nonce", IsNonce, reason);
    } else if Get(f, "rails").Arr? && RequireRails(Get(f, "rails").elems) == Rejected(reason) {
      OfferRailsTell(p, f, Get(f, "rails").elems, reason);
    }
  }

  lemma OfferRailsTell(p: Primitives, f: Frame, rails: seq<Json>, reason: Reason)
    requires Get(f, "type") == Str("offer") && RailsOf(f) == rails && RequireRails(rails) == Rejected(reason)
    ensures Misshapen(p, f, reason)
  {
    RailsTell(rails, reason);
    hide IsRail, RequireRails;
  }

  lemma OutcomeTells(p: Primitives, f: Frame)
    ensures Get(f, "outcome") !in {Str("claimed"), Str("refunded"), Str("cancelled")} ==> Misshapen(p, f, BadOutcome)
  {
  }

  lemma FieldsTell(p: Primitives, kind: string, f: Frame, reason: Reason)
    requires KnownType(kind) && Get(f, "type") == Str(kind) && ValidateFields(p, kind, f) == Rejected(reason)
    ensures Misshapen(p, f, reason)
  {
    hide Misshapen, IsHex32, IsNonce, IsStatement, IsRail, ValidateOffer, RequireString, OptionalString;
    if kind == "offer" {
      OfferTells(p, f, reason);
    } else if RequireString(Get(f, "contract"), "contract", IsHex32) == Rejected(reason) {
      StringTells(p, f, "contract", IsHex32, reason);
    } else {
      match kind
      case "accept" =>
        TextTells(p, f, "ref", IsHex32, reason);
        TextTells(p, f, "statement", IsStatement, reason);
        TextTells(p, f, "nonce", IsNonce, reason);
      case "lock" =>
        TextTells(p, f, "rail", IsRail, reason);
        TextTells(p, f, "ref", ANY_TEXT, reason);
      case "reveal" =>
        TextTells(p, f, "ref", ANY_TEXT, reason);
        TextTells(p, f, "secret", IsHex32, reason);
      case "refund" =>
        TextTells(p, f, "ref", ANY_TEXT, reason);
        TextTells(p, f, "reason", ANY_TEXT, reason);
      case "cancel" => TextTells(p, f, "reason", ANY_TEXT, reason);
      case "receipt" =>
        OutcomeTells(p, f);
        TextTells(p, f, "rail", IsRail, reason);
        TextTells(p, f, "ref", ANY_TEXT, reason);
      case "heartbeat" =>
        TextTells(p, f, "nonce", IsNonce, reason);
        TextTells(p, f, "note", ANY_TEXT, reason);
    }
  }

  lemma TextTells(p: Primitives, f: Frame, key: string, ok: string -> bool, reason: Reason)
    requires forall s :: !ok(s) ==> Malformed(key, s)
    ensures RequireString(Get(f, key), key, ok) == Rejected(reason) ==> Misshapen(p, f, reason)
    ensures OptionalString(Get(f, key), key, ok) == Rejected(reason) ==> Misshapen(p, f, reason)
  {
    hide Misshapen, RequireString, OptionalString, Malformed;
    if RequireString(Get(f, key), key, ok) == Rejected(reason) || OptionalString(Get(f, key), key, ok) == Rejected(reason) {
      StringTells(p, f, key, ok, reason);
    }
  }

  lemma ShapeTells(p: Primitives, f: Frame, reason: Reason)
    requires ValidateFrame(p, f) == Rejected(reason)
    ensures Misshapen(p, f, reason)
  {
    var kind := StringAt(f, "type");
    if Get(f, "type").Str? && KnownType(kind) {
      if ValidateFields(p, kind, f) == Rejected(reason) {
        FieldsTell(p, kind, f, reason);
      }
      if !(f.Keys <= RequiredKeys(kind) + OptionalKeys(kind)) {
        var key :| key in f.Keys && key !in RequiredKeys(kind) + OptionalKeys(kind);
      }
    }
    hide ValidateFields, IsDid, RequiredKeys, OptionalKeys;
  }

  lemma AcceptTells(p: Primitives, c: Contract, f: Frame, now: int, reason: Reason)
    requires ValidateFrame(p, f) == Valid && StringAt(f, "type") == "accept" && Guard(p, c, f, now) == Rejected(reason)
    ensures Refused(p, c, f, now, reason)
  {
    hide ValidateFrame, ContractId, AcceptCore;
  }

  lemma LockTells(p: Primitives, c: Contract, f: Frame, now: int, reason: Reason)
    requires ValidateFrame(p, f) == Valid && StringAt(f, "type") == "lock" && Guard(p, c, f, now) == Rejected(reason)
    ensures Refused(p, c, f, now, reason)
  {
    hide ValidateFrame, RailOffered;
  }

  lemma RevealTells(p: Primitives, c: Contract, f: Frame, now: int, reason: Reason)
    requires ValidateFrame(p, f) == Valid && StringAt(f, "type") == "reveal" && Guard(p, c, f, now) == Rejected(reason)
    ensures Refused(p, c, f, now, reason)
  {
    hide ValidateFrame, VerifyPreimage;
  }

  lemma RefundTells(p: Primitives, c: Contract, f: Frame, now: int, reason: Reason)
    requires ValidateFrame(p, f) == Valid && StringAt(f, "type") == "refund" && Guard(p, c, f, now) == Rejected(reason)
    ensures Refused(p, c, f, now, reason)
  {
    hide ValidateFrame;
  }

  lemma CancelTells(p: Primitives, c: Contract, f: Frame, now: int, reason: Reason)
    requires ValidateFrame(p, f) == Valid && StringAt(f, "type") == "cancel" && Guard(p, c, f, now) == Rejected(reason)
    ensures Refused(p, c, f, now, reason)
  {
    hide ValidateFrame;
  }

  lemma ReceiptTells(p: Primitives, c: Contract, f: Frame, now: int, reason: Reason)
    requires ValidateFrame(p, f) == Valid && StringAt(f, "type") == "receipt" && Guard(p, c, f, now) == Rejected(reason)
    ensures Refused(p, c, f, now, reason)
  {
    hide ValidateFrame, StatusText;
  }

  lemma HeartbeatTells(p: Primitives, c: Contract, f: Frame, now: int, reason: Reason)
    requires ValidateFrame(p, f) == Valid && StringAt(f, "type") == "heartbeat" && Guard(p, c, f, now) == Rejected(reason)
    ensures Refused(p, c, f, now, reason)
  {
    hide ValidateFrame;
  }

  lemma GuardTells(p: Primitives, c: Contract, f: Frame, now: int, reason: Reason)
    requires Guard(p, c, f, now) == Rejected(reason)
    ensures if ValidateFrame(p, f) == Valid then Refused(p, c, f, now, reason) else ValidateFrame(p, f) == Rejected(reason)
  {
    GuardChecks(p, c, f, now);
    hide Guard, ValidateFrame, Refused;
    if ValidateFrame(p, f) == Valid {
      KnownKind(p, f);
      match StringAt(f, "type")
      case "accept" => AcceptTells(p, c, f, now, reason);
      case "lock" => LockTells(p, c, f, now, reason);
      case "reveal" => RevealTells(p, c, f, now, reason);
      case "refund" => RefundTells(p, c, f, now, reason);
      case "cancel" => CancelTells(p, c, f, now, reason);
      case "receipt" => ReceiptTells(p, c, f, now, reason);
      case "heartbeat" => HeartbeatTells(p, c, f, now, reason);
      case "offer" => OpenTells(p, c, f, now, reason);
    }
  }

  lemma GuardChecks(p: Primitives, c: Contract, f: Frame, now: int)
    ensures ValidateFrame(p, f) != Valid ==> Guard(p, c, f, now) == ValidateFrame(p, f)
  {
    hide ValidateFrame;
  }

  lemma OpenTells(p: Primitives, c: Contract, f: Frame, now: int, reason: Reason)
    requires ValidateFrame(p, f) == Valid && StringAt(f, "type") == "offer" && Guard(p, c, f, now) == Rejected(reason)
    ensures Refused(p, c, f, now, reason)
  {
    hide ValidateFrame;
  }

  lemma KnownKind(p: Primitives, f: Frame)
    requires ValidateFrame(p, f) == Valid
    ensures KnownType(StringAt(f, "type"))
  {
    hide ValidateFields, IsDid, RequiredKeys, OptionalKeys;
  }

  /** The first four reasons belong to the fold alone. */
  lemma OwnReasons(p: Primitives, deal: Option<Contract>, f: Frame, now: int, reason: Reason)
    requires Misshapen(p, f, reason) || (deal != None && Refused(p, deal.value, f, now, reason))
    ensures reason != SenderMismatch && reason != NoContractOpen && reason != OfferOutsideOfferRoom && !reason.WrongRoom?
  {
  }

  /** The fold never gives a false reason. */
  lemma RejectedTruly(p: Primitives, deal: Option<Contract>, r: Record, reason: Reason)
    requires Judge(p, deal, r) == Rejected(reason)
    ensures Tells(p, deal, r, reason)
  {
    hide Guard, ValidateFrame, Misshapen, Refused, DecodeFrame, ExpectedRoom;
    if DecodeFrame(r.line).Some? {
      var f := DecodeFrame(r.line).value;
      if deal == None {
        if ValidateFrame(p, f) == Rejected(reason) {
          ShapeTells(p, f, reason);
          OwnReasons(p, deal, f, r.timeMs, reason);
        }
      } else {
        if Guard(p, deal.value, f, r.timeMs) == Rejected(reason) {
          GuardTells(p, deal.value, f, r.timeMs, reason);
          if ValidateFrame(p, f) == Rejected(reason) {
            ShapeTells(p, f, reason);
          }
          OwnReasons(p, deal, f, r.timeMs, reason);
        }
      }
    }
  }

  /** So every entry of the fold's list of rejections is true of its record. */
  lemma {:induction false} RejectionsTrue(p: Primitives, records: seq<Record>)
    ensures forall x :: x in Fold(p, records).rejections ==>
      x.index < |records| && x.kind == KindOf(records[x.index]) &&
      Tells(p, Fold(p, records[..x.index]).deal, records[x.index], x.reason)
    decreases |records|
  {
    hide Judge, Advance, Tells, KindOf;
    if records != [] {
      var n := |records| - 1;
      var o := Fold(p, records[..n]);
      RejectionsTrue(p, records[..n]);
      forall x | x in Fold(p, records).rejections
        ensures x.index < |records| && x.kind == KindOf(records[x.index]) &&
          Tells(p, Fold(p, records[..x.index]).deal, records[x.index], x.reason)
      {
        if x in o.rejections {
          assert records[..n][..x.index] == records[..x.index];
        } else {
          RejectedTruly(p, o.deal, records[n], x.reason);
        }
      }
    }
  }
}
