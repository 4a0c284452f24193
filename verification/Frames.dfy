/** tclk frames as the fold sees them: decoding, structural validation and derived ids. */
module Frames {
  import opened Text
  import opened Json
  import opened JsonDecode

  /** A decoded frame: any JSON object, whatever its fields hold. */
  type Frame = map<string, Json>

  /** SHA-256 and HMAC-SHA-256 are left abstract: the digest of a text (UTF-8 encoded) and
      of bytes in hexadecimal, and the keyed digest of a text. */
  datatype Primitives = Primitives(
    sha256Text: string -> string,
    sha256Bytes: seq<byte> -> string,
    hmac: (seq<byte>, string) -> seq<byte>)
  {
    ghost predicate Sound() {
      (forall t :: IsDigest(sha256Text(t))) && (forall b :: IsDigest(sha256Bytes(b))) &&
      (forall k, t :: |hmac(k, t)| == 32)
    }
  }

  predicate IsDigest(s: string) {
    |s| == 64 && EveryChar(s, IsLowerHex)
  }

  const OFFER_ROOM := "tclk-offers"
  const DOMAIN := "FLOP::tclk::v1"
  const OFFER_KEYS := {"type", "from", "role", "amount", "asset", "lock", "rails", "expiresMs", "claimByMs",
                       "refundAfterMs", "nonce", "id"}

  predicate KnownType(kind: string) {
    kind in {"offer", "accept", "lock", "reveal", "refund", "cancel", "receipt", "heartbeat"}
  }

  function RequiredKeys(kind: string): set<string>
    requires KnownType(kind)
  {
    match kind
    case "offer" => OFFER_KEYS
    case "accept" => {"type", "from", "ref", "statement", "contract", "nonce"}
    case "lock" => {"type", "from", "contract", "rail", "ref"}
    case "reveal" => {"type", "from", "contract", "secret"}
    case "receipt" => {"type", "from", "contract", "outcome"}
    case "heartbeat" => {"type", "from", "contract", "nonce"}
    case _ => {"type", "from", "contract"}
  }

  function OptionalKeys(kind: string): set<string>
    requires KnownType(kind)
  {
    match kind
    case "offer" => {"paymentKey", "job"}
    case "accept" => {"paymentKey"}
    case "lock" => {"presig"}
    case "reveal" => {"ref"}
    case "refund" => {"ref", "reason"}
    case "cancel" => {"reason"}
    case "receipt" => {"rail", "ref"}
    case _ => {"note"}
  }

  datatype Status = Proposed | Accepted | Locked | Claimed | Refunded | Cancelled

  predicate Terminal(s: Status) {
    s == Claimed || s == Refunded || s == Cancelled
  }

  function StatusText(s: Status): string {
    match s
    case Proposed => "proposed"
    case Accepted => "accepted"
    case Locked => "locked"
    case Claimed => "claimed"
    case Refunded => "refunded"
    case Cancelled => "cancelled"
  }

  /** Why a record was turned down. */
  datatype Reason =
    | NotDecoded | SenderMismatch | NoContractOpen | OfferOutsideOfferRoom | WrongRoom(expected: string)
    | UnknownFrameType | MissingFields(kind: string) | UnexpectedFields(kind: string)
    | NotAString(field: string) | MalformedField(field: string) | BadRole | BadLock | NoRails
    | BadInstant(field: string) | ClaimNotBeforeRefund | PaymentKeyMissing | OfferIdMismatch | BadOutcome
    | AlreadyOpen | InStatus(kind: string, status: Status) | OtherOffer | OwnOffer | OfferExpired
    | ContractIdMismatch | AcceptorKeyMissing | OtherContract | NotPayer | NotPayee | NotParty
    | RefundWindowOpen | RefundWindowClosed | RailNotOffered | OtherRailRef | SecretDoesNotOpen
    | ReceiptTooEarly | OutcomeMismatch | RailMismatch | ReceiptRefMismatch | RailOnCancelled

  /** The outcome of looking at one frame. `Raised` is Python's TypeError, which testing an
      array or object for set membership raises and which the fold does not catch. */
  datatype Verdict = Valid | Rejected(reason: Reason) | Raised

  function Then(first: Verdict, second: Verdict): Verdict {
    if first == Valid then second else first
  }

  function Check(ok: bool, reason: Reason): Verdict {
    if ok then Valid else Rejected(reason)
  }

  /** `frame.get(key)`: JSON null when absent. */
  function Get(f: Frame, key: string): Json {
    if key in f then f[key] else Null
  }

  function StringAt(f: Frame, key: string): string {
    match Get(f, key)
    case Str(s) => s
    case _ => ""
  }

  function Instant(f: Frame, key: string): int {
    match Get(f, key)
    case Int(n) => n
    case _ => 0
  }

  predicate Unhashable(v: Json) {
    v.Arr? || v.Obj?
  }

  // --- Field patterns ---

  predicate IsBase58(c: char) {
    ('1' <= c <= '9' || 'A' <= c <= 'Z' || 'a' <= c <= 'z') && c != 'I' && c != 'O' && c != 'l'
  }

  predicate IsRailChar(c: char) {
    'A' <= c <= 'Z' || 'a' <= c <= 'z' || '0' <= c <= '9' || c == '.' || c == '_' || c == ':' || c == '-'
  }

  predicate IsDid(s: string) {
    var t := Chomp(s);
    "did:key:z" <= t && |t| > 9 && EveryChar(t[9..], IsBase58)
  }

  predicate IsHex32(s: string) {
    var t := Chomp(s);
    "0x" <= t && IsDigest(t[2..])
  }

  predicate IsStatement(s: string) {
    var t := Chomp(s);
    "0x" <= t && (|t| == 66 || |t| == 68) && EveryChar(t[2..], IsLowerHex)
  }

  predicate IsNonce(s: string) {
    var t := Chomp(s);
    8 <= |t| <= 64 && EveryChar(t, IsLowerHex)
  }

  predicate IsAmount(s: string) {
    var t := Chomp(s);
    t != "" && EveryChar(t, IsDigit)
  }

  predicate IsAsset(s: string) {
    var t := Chomp(s);
    1 <= |t| <= 32 && EveryChar(t, c => IsRailChar(c) && c != ':')
  }

  predicate IsRail(s: string) {
    var t := Chomp(s);
    1 <= |t| <= 64 && EveryChar(t, IsRailChar)
  }

  function RequireString(v: Json, field: string, matches: string -> bool): Verdict {
    match v
    case Str(s) => Check(matches(s), MalformedField(field))
    case _ => Rejected(NotAString(field))
  }

  function OptionalString(v: Json, field: string, matches: string -> bool): Verdict {
    if v == Null then Valid else RequireString(v, field, matches)
  }

  function RequireInstant(v: Json, field: string): Verdict {
    Check(v.Int? && v.n >= 0, BadInstant(field))
  }

  const ANY_TEXT: string -> bool := s => true

  function RequireRails(rails: seq<Json>): Verdict {
    if rails == [] then Valid
    else Then(RequireString(rails[0], "rail", IsRail), RequireRails(rails[1..]))
  }

  // --- Derived ids ---

  /** The text whose digest is a domain-tagged id. */
  function DomainText(tag: string, payload: string): string {
    DOMAIN + "|" + tag + "|" + payload
  }

  function DomainHash(p: Primitives, tag: string, payload: string): string {
    "0x" + p.sha256Text(DomainText(tag, payload))
  }

  function OfferId(p: Primitives, offer: Frame): string {
    DomainHash(p, "offer", Canonical(Obj(offer - {"id"}), false))
  }

  /** The accept fields the contract id commits to; an absent payment key is left out. */
  function AcceptCore(f: Frame): Frame {
    var core := map["from" := Get(f, "from"), "ref" := Get(f, "ref"), "statement" := Get(f, "statement"),
                    "nonce" := Get(f, "nonce")];
    if Get(f, "paymentKey") == Null then core else core["paymentKey" := Get(f, "paymentKey")]
  }

  function ContractText(offer: Frame, core: Frame, ascii: bool): string {
    Canonical(Obj(map["offer" := Obj(offer), "accept" := Obj(core)]), ascii)
  }

  function ContractId(p: Primitives, offer: Frame, core: Frame): string {
    DomainHash(p, "contract", ContractText(offer, core, false))
  }

  /** `deal_room` of the fold: sixteen characters after the "0x". */
  function DealRoom(contract: string): string {
    "mb-p-tclk-" + (if |contract| <= 2 then "" else if |contract| < 18 then contract[2..] else contract[2..18])
  }

  function VerifyPreimage(p: Primitives, statement: string, preimage: string): bool {
    match FromHex(if "0x" <= preimage then preimage[2..] else preimage)
    case None => false
    case Some(raw) => |raw| == 32 && "0x" + p.sha256Bytes(raw) == Lower(statement)
  }

  // --- `validate_frame` ---

  function ValidateOffer(p: Primitives, f: Frame): Verdict {
    Then(Check(Get(f, "role") == Str("payer") || Get(f, "role") == Str("payee"), BadRole),
    Then(RequireString(Get(f, "amount"), "amount", IsAmount),
    Then(RequireString(Get(f, "asset"), "asset", IsAsset),
    Then(Check(Get(f, "lock") == Str("hash") || Get(f, "lock") == Str("point"), BadLock),
    Then(match Get(f, "rails") case Arr(rails) => Then(Check(rails != [], NoRails), RequireRails(rails)) case _ => Rejected(NoRails),
    Then(RequireInstant(Get(f, "claimByMs"), "claimByMs"),
    Then(RequireInstant(Get(f, "refundAfterMs"), "refundAfterMs"),
    Then(RequireInstant(Get(f, "expiresMs"), "expiresMs"),
    Then(Check(Instant(f, "claimByMs") < Instant(f, "refundAfterMs"), ClaimNotBeforeRefund),
    Then(Check(Get(f, "lock") == Str("point") ==> Get(f, "paymentKey") != Null, PaymentKeyMissing),
    Then(RequireString(Get(f, "nonce"), "nonce", IsNonce),
         Check(Get(f, "id") == Str(OfferId(p, f)), OfferIdMismatch))))))))))))
  }

  function ValidateFields(p: Primitives, kind: string, f: Frame): Verdict
    requires KnownType(kind)
  {
    var contract := RequireString(Get(f, "contract"), "contract", IsHex32);
    match kind
    case "offer" => ValidateOffer(p, f)
    case "accept" =>
      Then(RequireString(Get(f, "ref"), "ref", IsHex32),
      Then(RequireString(Get(f, "statement"), "statement", IsStatement),
      Then(contract,
           RequireString(Get(f, "nonce"), "nonce", IsNonce))))
    case "lock" =>
      Then(contract,
      Then(RequireString(Get(f, "rail"), "rail", IsRail),
           RequireString(Get(f, "ref"), "ref", ANY_TEXT)))
    case "reveal" =>
      Then(contract,
      Then(OptionalString(Get(f, "ref"), "ref", ANY_TEXT),
           RequireString(Get(f, "secret"), "secret", IsHex32)))
    case "refund" =>
      Then(contract,
      Then(OptionalString(Get(f, "ref"), "ref", ANY_TEXT),
           OptionalString(Get(f, "reason"), "reason", ANY_TEXT)))
    case "cancel" =>
      Then(contract, OptionalString(Get(f, "reason"), "reason", ANY_TEXT))
    case "receipt" =>
      Then(contract,
      Then(if Unhashable(Get(f, "outcome")) then Raised
           else Check(Get(f, "outcome") in {Str("claimed"), Str("refunded"), Str("cancelled")}, BadOutcome),
      Then(OptionalString(Get(f, "rail"), "rail", IsRail),
           OptionalString(Get(f, "ref"), "ref", ANY_TEXT))))
    case _ =>
      Then(contract,
      Then(RequireString(Get(f, "nonce"), "nonce", IsNonce),
           OptionalString(Get(f, "note"), "note", ANY_TEXT)))
  }

  function ValidateFrame(p: Primitives, f: Frame): Verdict {
    match Get(f, "type")
    case Str(kind) =>
      if !KnownType(kind) then Rejected(UnknownFrameType)
      else
        Then(Check(RequiredKeys(kind) <= f.Keys, MissingFields(kind)),
        Then(Check(f.Keys <= RequiredKeys(kind) + OptionalKeys(kind), UnexpectedFields(kind)),
        Then(RequireString(Get(f, "from"), "from", IsDid),
             ValidateFields(p, kind, f))))
    case t => if Unhashable(t) then Raised else Rejected(UnknownFrameType)
  }

  // --- `decode_frame` ---

  /** A line is "tclk1", whitespace and one JSON object, whitespace around it allowed. */
  function DecodeFrame(line: string): Option<Frame> {
    var t := Strip(line);
    if !("tclk1" <= t) then None
    else
      var rest := t[5..];
      if rest == "" || !IsSpace(rest[0]) then None
      else
        var body := LeftStrip(rest);
        if body == "" || body[0] != '{' || body[|body| - 1] != '}' then None
        else
          match Decode(body)
          case Got(Obj(fields), _) => Some(fields)
          case _ => None
  }
}
