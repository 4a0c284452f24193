/** The transcript fold: records in append order, some accepted, the others rejected. */
module Transcripts {
  import opened Text
  import opened Json
  import opened Frames
  import opened Deals

  datatype Record = Record(room: string, timeMs: int, sender: string, line: string)

  datatype Rejection = Rejection(index: nat, kind: Json, reason: Reason)

  /** The fold's result: final contract, indices of the accepted records (which the source
      does not report), rejections, and whether a TypeError ended the fold early. */
  datatype Outcome = Outcome(deal: Option<Contract>, accepted: seq<nat>, rejections: seq<Rejection>, raised: bool)

  function KindOf(r: Record): Json {
    match DecodeFrame(r.line)
    case None => Null
    case Some(f) => Get(f, "type")
  }

  function ExpectedRoom(c: Contract, kind: Json): string {
    if kind == Str("offer") || kind == Str("accept") || c.id == None then OFFER_ROOM else DealRoom(c.id.value)
  }

  /** What the fold makes of one record, given the contract so far. */
  function Judge(p: Primitives, deal: Option<Contract>, r: Record): Verdict {
    match DecodeFrame(r.line)
    case None => Rejected(NotDecoded)
    case Some(f) =>
      var kind := Get(f, "type");
      if Get(f, "from") != Str(r.sender) then Rejected(SenderMismatch)
      else
        match deal
        case None =>
          if kind != Str("offer") then Rejected(NoContractOpen)
          else if r.room != OFFER_ROOM then Rejected(OfferOutsideOfferRoom)
          else ValidateFrame(p, f)
        case Some(c) =>
          if r.room != ExpectedRoom(c, kind) then Rejected(WrongRoom(ExpectedRoom(c, kind)))
          else Guard(p, c, f, r.timeMs)
  }

  /** The contract after an accepted record. */
  function Advance(deal: Option<Contract>, r: Record): Option<Contract> {
    match DecodeFrame(r.line)
    case None => deal
    case Some(f) =>
      match deal
      case None => Some(Opened(f))
      case Some(c) => Some(Effect(c, f))
  }

  function Step(p: Primitives, o: Outcome, index: nat, r: Record): Outcome {
    if o.raised then o
    else
      match Judge(p, o.deal, r)
      case Valid => o.(deal := Advance(o.deal, r), accepted := o.accepted + [index])
      case Rejected(reason) => o.(rejections := o.rejections + [Rejection(index, KindOf(r), reason)])
      case Raised => o.(raised := true)
  }

  const START := Outcome(None, [], [], false)

  function Fold(p: Primitives, records: seq<Record>): Outcome {
    if records == [] then START
    else
      var n := |records| - 1;
      Step(p, Fold(p, records[..n]), n, records[n])
  }

  /** `fold` itself: a loop over the records with the contract updated in place. */
  method FoldRecords(p: Primitives, records: seq<Record>)
    returns (status: Option<Status>, rejections: seq<Rejection>, raised: bool)
    ensures var o := Fold(p, records);
      raised == o.raised && rejections == o.rejections &&
      status == match o.deal case None => None case Some(c) => Some(c.status)
  {
    var state: Deal? := null;
    rejections, raised := [], false;
    for i := 0 to |records|
      invariant !raised && !Fold(p, records[..i]).raised
      invariant rejections == Fold(p, records[..i]).rejections
      invariant Fold(p, records[..i]).deal == if state == null then None else Some(state.Snapshot())
      invariant state != null ==> fresh(state)
    {
      hide Guard, ValidateFrame, DecodeFrame, Effect, Opened;
      Extend(p, records, i);
      var r := records[i];
      var v := Rejected(NotDecoded);
      var decoded := DecodeFrame(r.line);
      if decoded.Some? {
        var f := decoded.value;
        var kind := Get(f, "type");
        if Get(f, "from") != Str(r.sender) {
          v := Rejected(SenderMismatch);
        } else if state == null {
          if kind != Str("offer") {
            v := Rejected(NoContractOpen);
          } else if r.room != OFFER_ROOM {
            v := Rejected(OfferOutsideOfferRoom);
          } else {
            v := ValidateFrame(p, f);
            if v == Valid {
              state := new Deal(f);
            }
          }
        } else {
          var expected := ExpectedRoom(state.Snapshot(), kind);
          if r.room != expected {
            v := Rejected(WrongRoom(expected));
          } else {
            v := state.Apply(p, f, r.timeMs);
          }
        }
      }
      match v
      case Raised =>
        StaysRaised(p, records, i + 1);
        status := if state == null then None else Some(state.status);
        return status, rejections, true;
      case Rejected(reason) =>
        rejections := rejections + [Rejection(i, KindOf(r), reason)];
      case Valid =>
    }
    assert records[..|records|] == records;
    status := if state == null then None else Some(state.status);
  }

  lemma Extend(p: Primitives, records: seq<Record>, i: nat)
    requires i < |records|
    ensures Fold(p, records[..i + 1]) == Step(p, Fold(p, records[..i]), i, records[i])
  {
    assert records[..i + 1][..i] == records[..i];
    hide Step;
  }

  lemma {:induction false} StaysRaised(p: Primitives, records: seq<Record>, i: nat)
    requires i <= |records| && Fold(p, records[..i]).raised
    ensures Fold(p, records) == Fold(p, records[..i])
    decreases |records| - i
  {
    if i < |records| {
      Extend(p, records, i);
      StaysRaised(p, records, i + 1);
    } else {
      assert records[..i] == records;
    }
  }
}
