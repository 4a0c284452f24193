/** The protocol stated over the frames accepted so far, without any contract state, and the
    proof that the fold and its state machine accept exactly what it admits. */
module Protocol {
  import opened Text
  import opened Json
  import opened JsonDecode
  import opened Frames
  import opened Deals
  import opened Transcripts
  import opened TranscriptTheorems

  // --- Well-formed frames ---

  const DIGITS := "0123456789"
  const LOWER_HEX := DIGITS + "abcdef"
  const LETTERS := "ABCDEFGHIJKLM" + "NOPQRSTUVWXYZ" + "abcdefghijklm" + "nopqrstuvwxyz"
  const BASE58 := "123456789" + "ABCDEFGHJKLMN" + "PQRSTUVWXYZ" + "abcdefghijkm" + "nopqrstuvwxyz"

  ghost predicate Spells(s: string, prefix: string, letters: string, low: nat, high: nat) {
    prefix <= s && low <= |s| - |prefix| <= high && forall i :: |prefix| <= i < |s| ==> s[i] in letters
  }

  /** A string of that spelling, or with one newline after it. */
  ghost predicate Fits(v: Json, prefix: string, letters: string, low: nat, high: nat) {
    v.Str? && (Spells(v.s, prefix, letters, low, high) ||
               exists t: string :: v.s == t + "\n" && Spells(t, prefix, letters, low, high))
  }

  ghost predicate Fits32(v: Json) {
    Fits(v, "0x", LOWER_HEX, 64, 64)
  }

  ghost predicate FitsRail(v: Json) {
    Fits(v, "", LETTERS + DIGITS + "._:-", 1, 64)
  }

  ghost predicate OptionalText(v: Json) {
    v == Null || v.Str?
  }

  ghost predicate Named(f: Frame, required: set<string>, optional: set<string>) {
    required <= f.Keys && forall k :: k in f && k !in required ==> k in optional
  }

  ghost predicate Offers(p: Primitives, f: Frame) {
    Named(f, {"type", "from", "role", "amount", "asset", "lock", "rails", "expiresMs", "claimByMs", "refundAfterMs", "nonce", "id"},
          {"paymentKey", "job"}) &&
    (f["role"] == Str("payer") || f["role"] == Str("payee")) &&
    f["amount"].Str? && Fits(f["amount"], "", DIGITS, 1, |f["amount"].s|) &&
    Fits(f["asset"], "", LETTERS + DIGITS + "._-", 1, 32) &&
    (f["lock"] == Str("hash") || (f["lock"] == Str("point") && Get(f, "paymentKey") != Null)) &&
    f["rails"].Arr? && f["rails"].elems != [] &&
    (forall rail :: rail in f["rails"].elems ==> FitsRail(rail)) &&
    f["claimByMs"].Int? && f["refundAfterMs"].Int? && f["expiresMs"].Int? &&
    0 <= f["claimByMs"].n < f["refundAfterMs"].n && f["expiresMs"].n >= 0 &&
    Fits(f["nonce"], "", LOWER_HEX, 8, 64) &&
    f["id"] == Str("0x" + p.sha256Text("FLOP::tclk::v1|offer|" + Canonical(Obj(map k | k in f && k != "id" :: f[k]), false)))
  }

  /** What the fields of a frame of each kind must be. */
  ghost predicate WellFormed(p: Primitives, f: Frame) {
    Get(f, "type").Str? && Fits(Get(f, "from"), "did:key:z", BASE58, 1, |StringAt(f, "from")|) &&
    match StringAt(f, "type")
    case "offer" => Offers(p, f)
    case "accept" =>
      Named(f, {"type", "from", "ref", "statement", "contract", "nonce"}, {"paymentKey"}) &&
      Fits32(f["ref"]) && (Fits32(f["statement"]) || Fits(f["statement"], "0x", LOWER_HEX, 66, 66)) &&
      Fits32(f["contract"]) && Fits(f["nonce"], "", LOWER_HEX, 8, 64)
    case "lock" =>
      Named(f, {"type", "from", "contract", "rail", "ref"}, {"presig"}) &&
      Fits32(f["contract"]) && FitsRail(f["rail"]) && f["ref"].Str?
    case "reveal" =>
      Named(f, {"type", "from", "contract", "secret"}, {"ref"}) &&
      Fits32(f["contract"]) && OptionalText(Get(f, "ref")) && Fits32(f["secret"])
    case "refund" =>
      Named(f, {"type", "from", "contract"}, {"ref", "reason"}) &&
      Fits32(f["contract"]) && OptionalText(Get(f, "ref")) && OptionalText(Get(f, "reason"))
    case "cancel" =>
      Named(f, {"type", "from", "contract"}, {"reason"}) && Fits32(f["contract"]) && OptionalText(Get(f, "reason"))
    case "receipt" =>
      Named(f, {"type", "from", "contract", "outcome"}, {"rail", "ref"}) && Fits32(f["contract"]) &&
      (f["outcome"] == Str("claimed") || f["outcome"] == Str("refunded") || f["outcome"] == Str("cancelled")) &&
      (Get(f, "rail") == Null || FitsRail(Get(f, "rail"))) && OptionalText(Get(f, "ref"))
    case "heartbeat" =>
      Named(f, {"type", "from", "contract", "nonce"}, {"note"}) &&
      Fits32(f["contract"]) && Fits(f["nonce"], "", LOWER_HEX, 8, 64) && OptionalText(Get(f, "note"))
    case _ => false
  }

  lemma ChompSpells(s: string, prefix: string, letters: string, low: nat, high: nat)
    requires '\n' !in letters && (prefix == "" ==> low > 0) && (prefix != "" ==> prefix[|prefix| - 1] != '\n')
    ensures Fits(Str(s), prefix, letters, low, high) <==> Spells(Chomp(s), prefix, letters, low, high)
  {
    if Spells(Chomp(s), prefix, letters, low, high) && Chomp(s) != s {
      assert s == Chomp(s) + "\n";
    }
    if t: string :| s == t + "\n" && Spells(t, prefix, letters, low, high) {
      assert Chomp(s) == t;
    }
    if Spells(s, prefix, letters, low, high) && s != "" {
      assert s[|s| - 1] != '\n';
    }
  }

  lemma LetterClasses(c: char)
    ensures c in DIGITS <==> IsDigit(c)
    ensures c in LOWER_HEX <==> IsLowerHex(c)
    ensures c in BASE58 <==> IsBase58(c)
    ensures c in LETTERS + DIGITS + "._:-" <==> IsRailChar(c)
    ensures c in LETTERS + DIGITS + "._-" <==> IsRailChar(c) && c != ':'
  {
    Alphabet(c);
  }

  lemma Alphabet(c: char)
    ensures c in LETTERS <==> 'A' <= c <= 'Z' || 'a' <= c <= 'z'
    ensures c in DIGITS <==> '0' <= c <= '9'
  {
  }

  lemma SpellsEvery(s: string, prefix: string, letters: string, low: nat, high: nat, ok: char -> bool)
    requires forall c :: c in letters <==> ok(c)
    ensures Spells(s, prefix, letters, low, high) <==>
      prefix <= s && low <= |s| - |prefix| <= high && EveryChar(s[|prefix|..], ok)
  {
    if prefix <= s {
      var t := s[|prefix|..];
      assert forall i :: |prefix| <= i < |s| ==> s[i] == t[i - |prefix|];
      assert forall i :: 0 <= i < |t| ==> t[i] == s[i + |prefix|];
    }
  }

  lemma DidAgrees(s: string)
    ensures Fits(Str(s), "did:key:z", BASE58, 1, |s|) <==> IsDid(s)
  {
    forall c ensures c in BASE58 <==> IsBase58(c) { LetterClasses(c); }
    ChompSpells(s, "did:key:z", BASE58, 1, |s|);
    SpellsEvery(Chomp(s), "did:key:z", BASE58, 1, |s|, IsBase58);
    hide Fits, Spells, EveryChar, BASE58;
  }

  lemma HexAgrees(s: string)
    ensures Fits32(Str(s)) <==> IsHex32(s)
    ensures Fits32(Str(s)) || Fits(Str(s), "0x", LOWER_HEX, 66, 66) <==> IsStatement(s)
    ensures Fits(Str(s), "", LOWER_HEX, 8, 64) <==> IsNonce(s)
  {
    forall c ensures c in LOWER_HEX <==> IsLowerHex(c) { LetterClasses(c); }
    ChompSpells(s, "0x", LOWER_HEX, 64, 64);
    ChompSpells(s, "0x", LOWER_HEX, 66, 66);
    ChompSpells(s, "", LOWER_HEX, 8, 64);
    var t := Chomp(s);
    SpellsEvery(t, "0x", LOWER_HEX, 64, 64, IsLowerHex);
    SpellsEvery(t, "0x", LOWER_HEX, 66, 66, IsLowerHex);
    SpellsEvery(t, "", LOWER_HEX, 8, 64, IsLowerHex);
    assert t[0..] == t;
    hide Fits, Spells, EveryChar, LOWER_HEX, Chomp;
  }

  lemma PatternsAgree(s: string)
    ensures Fits(Str(s), "did:key:z", BASE58, 1, |s|) <==> IsDid(s)
    ensures Fits32(Str(s)) <==> IsHex32(s)
    ensures Fits32(Str(s)) || Fits(Str(s), "0x", LOWER_HEX, 66, 66) <==> IsStatement(s)
    ensures Fits(Str(s), "", LOWER_HEX, 8, 64) <==> IsNonce(s)
  {
    hide *;
    DidAgrees(s);
    HexAgrees(s);
  }

  lemma NamesAgree(s: string)
    ensures FitsRail(Str(s)) <==> IsRail(s)
    ensures Fits(Str(s), "", LETTERS + DIGITS + "._-", 1, 32) <==> IsAsset(s)
    ensures Fits(Str(s), "", DIGITS, 1, |s|) <==> IsAmount(s)
  {
    forall c
      ensures c in LETTERS + DIGITS + "._:-" <==> IsRailChar(c)
      ensures c in LETTERS + DIGITS + "._-" <==> IsRailChar(c) && c != ':'
      ensures c in DIGITS <==> IsDigit(c)
    {
      LetterClasses(c);
    }
    ChompSpells(s, "", LETTERS + DIGITS + "._:-", 1, 64);
    ChompSpells(s, "", LETTERS + DIGITS + "._-", 1, 32);
    ChompSpells(s, "", DIGITS, 1, |s|);
  }

  lemma {:induction false} RailsAgree(rails: seq<Json>)
    ensures RequireRails(rails) == Valid <==> forall rail :: rail in rails ==> FitsRail(rail)
  {
    hide IsRail, FitsRail;
    if rails != [] {
      RailsAgree(rails[1..]);
      OneRail(rails[0]);
      assert forall rail :: rail in rails <==> rail == rails[0] || rail in rails[1..];
    }
  }

  lemma OneRail(v: Json)
    ensures RequireString(v, "rail", IsRail) == Valid <==> FitsRail(v)
  {
    if v.Str? {
      NamesAgree(v.s);
    }
  }

  lemma OfferIdSpelt(p: Primitives, f: Frame)
    ensures OfferId(p, f) ==
      "0x" + p.sha256Text("FLOP::tclk::v1|offer|" + Canonical(Obj(map k | k in f && k != "id" :: f[k]), false))
  {
    assert f - {"id"} == map k | k in f && k != "id" :: f[k];
    assert DomainText("offer", "") == "FLOP::tclk::v1|offer|";
    hide Canonical;
    var t := Canonical(Obj(f - {"id"}), false);
    assert DomainText("offer", t) == "FLOP::tclk::v1|offer|" + t;
  }

  lemma OffersExactly(p: Primitives, f: Frame)
    requires Named(f, {"type", "from", "role", "amount", "asset", "lock", "rails", "expiresMs", "claimByMs", "refundAfterMs", "nonce", "id"},
                   {"paymentKey", "job"})
    ensures ValidateOffer(p, f) == Valid <==> Offers(p, f)
  {
    OfferTexts(f["amount"], f["asset"], f["nonce"]);
    if f["rails"].Arr? { RailsAgree(f["rails"].elems); }
    OfferIdSpelt(p, f);
    hide OfferId, RequireString, RequireRails, Canonical, Fits, FitsRail;
  }

  lemma OfferTexts(amount: Json, asset: Json, nonce: Json)
    ensures RequireString(amount, "amount", IsAmount) == Valid <==> amount.Str? && Fits(amount, "", DIGITS, 1, |amount.s|)
    ensures RequireString(asset, "asset", IsAsset) == Valid <==> Fits(asset, "", LETTERS + DIGITS + "._-", 1, 32)
    ensures RequireString(nonce, "nonce", IsNonce) == Valid <==> Fits(nonce, "", LOWER_HEX, 8, 64)
  {
    if amount.Str? { NamesAgree(amount.s); }
    if asset.Str? { NamesAgree(asset.s); }
    if nonce.Str? { PatternsAgree(nonce.s); }
    hide IsAmount, IsAsset, IsNonce, Spells;
  }

  lemma TextExactly(v: Json, field: string)
    ensures RequireString(v, field, IsHex32) == Valid <==> Fits32(v)
    ensures RequireString(v, field, IsNonce) == Valid <==> Fits(v, "", LOWER_HEX, 8, 64)
    ensures RequireString(v, field, IsStatement) == Valid <==> Fits32(v) || Fits(v, "0x", LOWER_HEX, 66, 66)
    ensures RequireString(v, field, IsRail) == Valid <==> FitsRail(v)
    ensures OptionalString(v, field, IsRail) == Valid <==> v == Null || FitsRail(v)
    ensures RequireString(v, field, ANY_TEXT) == Valid <==> v.Str?
    ensures OptionalString(v, field, ANY_TEXT) == Valid <==> OptionalText(v)
    ensures !RequireString(v, field, IsHex32).Raised? && !RequireString(v, field, IsNonce).Raised?
  {
    if v.Str? {
      PatternsAgree(v.s);
      NamesAgree(v.s);
    }
    hide IsHex32, IsNonce, IsStatement, IsRail, Spells;
  }

  lemma FieldsExactly(p: Primitives, kind: string, f: Frame)
    requires KnownType(kind) && kind != "offer" && Get(f, "type") == Str(kind)
    requires RequiredKeys(kind) <= f.Keys <= RequiredKeys(kind) + OptionalKeys(kind)
    requires Fits(Get(f, "from"), "did:key:z", BASE58, 1, |StringAt(f, "from")|)
    ensures ValidateFields(p, kind, f) == Valid <==> WellFormed(p, f)
  {
    TextExactly(Get(f, "contract"), "contract");
    TextExactly(Get(f, "ref"), "ref");
    TextExactly(Get(f, "nonce"), "nonce");
    TextExactly(Get(f, "reason"), "reason");
    hide RequireString, OptionalString, FitsRail, Fits, OptionalText, ValidateOffer, Offers, IsHex32, IsNonce, IsStatement, IsRail;
    match kind
    case "accept" => TextExactly(Get(f, "statement"), "statement");
    case "lock" => TextExactly(Get(f, "rail"), "rail");
    case "reveal" => TextExactly(Get(f, "secret"), "secret");
    case "receipt" => TextExactly(Get(f, "rail"), "rail");
    case "heartbeat" => TextExactly(Get(f, "note"), "note");
    case _ =>
  }

  lemma WrongKeys(p: Primitives, f: Frame)
    requires Get(f, "type").Str? && KnownType(StringAt(f, "type")) && WellFormed(p, f)
    ensures RequiredKeys(StringAt(f, "type")) <= f.Keys <= RequiredKeys(StringAt(f, "type")) + OptionalKeys(StringAt(f, "type"))
  {
    hide Fits, FitsRail, Fits32, OptionalText;
  }

  lemma CheckedFirst(p: Primitives, f: Frame)
    requires Get(f, "type").Str? && KnownType(StringAt(f, "type"))
    ensures var kind := StringAt(f, "type");
      ValidateFrame(p, f) == Valid <==>
      RequiredKeys(kind) <= f.Keys <= RequiredKeys(kind) + OptionalKeys(kind) &&
      Get(f, "from").Str? && IsDid(StringAt(f, "from")) && ValidateFields(p, kind, f) == Valid
  {
    hide ValidateFields, IsDid, RequiredKeys, OptionalKeys;
  }

  lemma UnknownKind(p: Primitives, f: Frame)
    requires !(Get(f, "type").Str? && KnownType(StringAt(f, "type")))
    ensures ValidateFrame(p, f) != Valid && !WellFormed(p, f)
  {
    hide ValidateFields, Offers, Fits, FitsRail, Fits32;
  }

  /** The chain of checks lets through exactly the well-formed frames. */
  lemma WellFormedExactly(p: Primitives, f: Frame)
    ensures ValidateFrame(p, f) == Valid <==> WellFormed(p, f)
  {
    hide ValidateFrame, ValidateFields, WellFormed, IsDid, Fits, RequiredKeys, OptionalKeys, ValidateOffer, Offers;
    var kind := StringAt(f, "type");
    if !(Get(f, "type").Str? && KnownType(kind)) {
      UnknownKind(p, f);
    } else {
      CheckedFirst(p, f);
      SenderFits(p, f);
      if WellFormed(p, f) {
        WrongKeys(p, f);
      }
      if RequiredKeys(kind) <= f.Keys <= RequiredKeys(kind) + OptionalKeys(kind) && Get(f, "from").Str? && IsDid(StringAt(f, "from")) {
        if kind == "offer" {
          OfferFields(p, f);
        } else {
          FieldsExactly(p, kind, f);
        }
      }
    }
  }

  lemma SenderFits(p: Primitives, f: Frame)
    ensures Fits(Get(f, "from"), "did:key:z", BASE58, 1, |StringAt(f, "from")|) <==> Get(f, "from").Str? && IsDid(StringAt(f, "from"))
    ensures WellFormed(p, f) ==> Get(f, "from").Str? && IsDid(StringAt(f, "from"))
  {
    if Get(f, "from").Str? {
      PatternsAgree(StringAt(f, "from"));
    }
    hide Spells, IsDid, Offers, FitsRail, Fits32;
  }

  lemma OfferFields(p: Primitives, f: Frame)
    requires Get(f, "type") == Str("offer") && RequiredKeys("offer") <= f.Keys <= RequiredKeys("offer") + OptionalKeys("offer")
    requires Fits(Get(f, "from"), "did:key:z", BASE58, 1, |StringAt(f, "from")|)
    ensures ValidateFields(p, "offer", f) == Valid <==> WellFormed(p, f)
  {
    OffersExactly(p, f);
    hide ValidateOffer, Offers, Fits;
  }

  // --- Admission by the frames accepted before ---

  /** The accepted frames that moved the deal on: an offer, then an accept or a cancel, and so on. */
  ghost function KindAt(past: seq<Frame>, i: nat): string {
    if i < |past| then StringAt(past[i], "type") else ""
  }

  ghost function Sender(f: Frame): string {
    StringAt(f, "from")
  }

  /** The payer is the offering side or the accepting one, as the offer says; the payee the other. */
  ghost function PayerOf(offer: Frame, accept: Frame): string {
    if Get(offer, "role") == Str("payer") then Sender(offer) else Sender(accept)
  }

  ghost function PayeeOf(offer: Frame, accept: Frame): string {
    if Get(offer, "role") == Str("payer") then Sender(accept) else Sender(offer)
  }

  ghost predicate SameLetter(a: char, b: char) {
    a == b || ('A' <= a <= 'Z' && b as int == a as int + 32) || ('A' <= b <= 'Z' && a as int == b as int + 32)
  }

  /** Some offered rail is the named one up to the case of its letters. */
  ghost predicate OnOfferedRail(offer: Frame, rail: string) {
    exists i :: 0 <= i < |RailsOf(offer)| && RailsOf(offer)[i].Str? && |RailsOf(offer)[i].s| == |rail| &&
      forall k :: 0 <= k < |rail| ==> SameLetter(RailsOf(offer)[i].s[k], rail[k])
  }

  /** The secret spells 32 bytes whose digest is the statement. */
  ghost predicate Unlocks(p: Primitives, statement: string, secret: string) {
    exists raw: seq<byte> {:trigger p.sha256Bytes(raw)} ::
      |raw| == 32 && Chomp(secret) == "0x" + ToHex(raw) && statement == "0x" + p.sha256Bytes(raw)
  }

  ghost function RoomOf(accept: Frame): string {
    var id := StringAt(accept, "contract");
    "mb-p-tclk-" + (if |id| < 18 then "" else id[2..18])
  }

  ghost predicate Follows(p: Primitives, past: seq<Frame>, f: Frame, room: string, time: int) {
    var kind := StringAt(f, "type");
    if past == [] then kind == "offer" && room == "tclk-offers"
    else
      var offer := past[0];
      if |past| == 1 then
        room == "tclk-offers" &&
        ((kind == "accept" && Answers(p, offer, f, time)) || (kind == "cancel" && Sender(f) == Sender(offer)))
      else
        var accept := past[1];
        Accepts(past) && room == RoomOf(accept) && StringAt(f, "contract") == StringAt(accept, "contract") &&
        InDeal(p, past, f, time)
  }

  ghost predicate Answers(p: Primitives, offer: Frame, f: Frame, time: int) {
    Get(f, "ref") == Get(offer, "id") && Sender(f) != Sender(offer) && time < Instant(offer, "expiresMs") &&
    StringAt(f, "contract") == "0x" + p.sha256Text("FLOP::tclk::v1|contract|" + Committed(offer, f)) &&
    (Get(offer, "lock") == Str("point") ==> Get(f, "paymentKey") != Null)
  }

  /** The text under a contract id: the offer, and of the accept the five fields the id commits to,
      an absent payment key left out. */
  ghost function Committed(offer: Frame, accept: Frame): string {
    var core := map k | k in {"from", "ref", "statement", "nonce", "paymentKey"} && Get(accept, k) != Null :: Get(accept, k);
    Canonical(Obj(map["offer" := Obj(offer), "accept" := Obj(core)]), false)
  }

  ghost predicate InDeal(p: Primitives, past: seq<Frame>, f: Frame, time: int)
    requires |past| >= 2
  {
    match StringAt(f, "type")
    case "lock" => MayLock(past, f, time)
    case "reveal" => MayReveal(p, past, f, time)
    case "refund" => MayRefund(past, f, time)
    case "cancel" => |past| == 2 && FromParty(past, f)
    case "receipt" => MayReceipt(past, f)
    case "heartbeat" => FromParty(past, f) && (|past| == 2 || (|past| == 3 && IsLocked(past)))
    case _ => false
  }

  ghost predicate Accepts(past: seq<Frame>) {
    |past| >= 2 && KindAt(past, 1) == "accept"
  }

  ghost predicate IsLocked(past: seq<Frame>) {
    KindAt(past, 2) == "lock"
  }

  ghost predicate IsClaimed(past: seq<Frame>) {
    KindAt(past, 3) == "reveal"
  }

  ghost predicate FromParty(past: seq<Frame>, f: Frame)
    requires |past| >= 2
  {
    Sender(f) == Sender(past[0]) || Sender(f) == Sender(past[1])
  }

  ghost predicate MayLock(past: seq<Frame>, f: Frame, time: int)
    requires |past| >= 2
  {
    |past| == 2 && Sender(f) == PayerOf(past[0], past[1]) && time < Instant(past[0], "refundAfterMs") &&
    OnOfferedRail(past[0], StringAt(f, "rail"))
  }

  ghost predicate MayReveal(p: Primitives, past: seq<Frame>, f: Frame, time: int)
    requires |past| >= 2
  {
    |past| == 3 && IsLocked(past) && Sender(f) == PayeeOf(past[0], past[1]) && time < Instant(past[0], "refundAfterMs") &&
    SameOrNone(f, past[2], "ref") && Unlocks(p, StringAt(past[1], "statement"), StringAt(f, "secret"))
  }

  ghost predicate MayRefund(past: seq<Frame>, f: Frame, time: int)
    requires |past| >= 2
  {
    |past| == 3 && IsLocked(past) && Sender(f) == PayerOf(past[0], past[1]) && time >= Instant(past[0], "refundAfterMs") &&
    SameOrNone(f, past[2], "ref")
  }

  /** A receipt names how the deal ended, and the rail and reference of its lock if any. */
  ghost predicate MayReceipt(past: seq<Frame>, f: Frame)
    requires |past| >= 2
  {
    FromParty(past, f) && |past| >= 3 &&
    if IsLocked(past) then
      |past| == 4 && SameOrNone(f, past[2], "rail") && SameOrNone(f, past[2], "ref") &&
      Get(f, "outcome") == (if IsClaimed(past) then Str("claimed") else Str("refunded"))
    else Get(f, "outcome") == Str("cancelled") && Get(f, "rail") == Null && Get(f, "ref") == Null
  }

  /** The frame leaves the field out or gives it the value the other frame gave it. */
  ghost predicate SameOrNone(f: Frame, other: Frame, key: string) {
    Get(f, key) == Null || Get(f, key) == Get(other, key)
  }

  /** A record is admitted when its line is a well-formed frame of its sender that follows. */
  ghost predicate Admissible(p: Primitives, past: seq<Frame>, r: Record) {
    DecodeFrame(r.line).Some? &&
    var f := DecodeFrame(r.line).value;
    Get(f, "from") == Str(r.sender) && WellFormed(p, f) && Follows(p, past, f, r.room, r.timeMs)
  }

  /** What was admitted: the positions, and the frames that moved the deal on. */
  datatype Log = Log(admitted: seq<nat>, past: seq<Frame>)

  ghost function Moved(past: seq<Frame>, r: Record): seq<Frame>
    requires DecodeFrame(r.line).Some?
  {
    var f := DecodeFrame(r.line).value;
    if StringAt(f, "type") == "receipt" || StringAt(f, "type") == "heartbeat" then past else past + [f]
  }

  ghost function Admitted(p: Primitives, records: seq<Record>): Log {
    if records == [] then Log([], [])
    else
      var n := |records| - 1;
      var log := Admitted(p, records[..n]);
      if Admissible(p, log.past, records[n]) then Log(log.admitted + [n], Moved(log.past, records[n])) else log
  }

  // --- The contract those frames describe ---

  ghost function StatusOf(past: seq<Frame>): Status
    requires past != []
  {
    match KindAt(past, |past| - 1)
    case "offer" => Proposed
    case "accept" => Accepted
    case "lock" => Locked
    case "reveal" => Claimed
    case "refund" => Refunded
    case _ => Cancelled
  }

  ghost function FieldAt(past: seq<Frame>, i: nat, kind: string, key: string): Option<string> {
    if i < |past| && KindAt(past, i) == kind then Some(StringAt(past[i], key)) else None
  }

  ghost function ContractOf(past: seq<Frame>): Contract
    requires past != []
  {
    var offer, other := past[0], FieldAt(past, 1, "accept", "from");
    var asPayer := Get(offer, "role") == Str("payer");
    Contract(StatusOf(past), offer, Sender(offer),
             if asPayer then Some(Sender(offer)) else other, if asPayer then other else Some(Sender(offer)),
             FieldAt(past, 1, "accept", "contract"), FieldAt(past, 1, "accept", "statement"),
             FieldAt(past, 2, "lock", "rail"), FieldAt(past, 2, "lock", "ref"), FieldAt(past, 3, "reveal", "secret"))
  }

  ghost function DealOf(past: seq<Frame>): Option<Contract> {
    if past == [] then None else Some(ContractOf(past))
  }

  /** The kinds of the frames, as the protocol orders them. */
  ghost predicate InOrder(past: seq<Frame>) {
    |past| <= 4 && (|past| > 0 ==> KindAt(past, 0) == "offer") &&
    (|past| > 1 ==> KindAt(past, 1) == "accept" || (KindAt(past, 1) == "cancel" && |past| == 2)) &&
    (|past| > 2 ==> KindAt(past, 2) == "lock" || (KindAt(past, 2) == "cancel" && |past| == 3)) &&
    (|past| > 3 ==> KindAt(past, 3) == "reveal" || KindAt(past, 3) == "refund")
  }

  ghost predicate Sound(p: Primitives, past: seq<Frame>) {
    InOrder(past) && forall f :: f in past ==> WellFormed(p, f)
  }

  lemma SameWhenLowered(a: string, b: string)
    ensures Lower(a) == Lower(b) <==> |a| == |b| && forall k :: 0 <= k < |b| ==> SameLetter(a[k], b[k])
  {
    if Lower(a) == Lower(b) {
      assert |a| == |b|;
      forall k | 0 <= k < |b| ensures SameLetter(a[k], b[k]) {
        assert Lower(a)[k] == LowerChar(a[k]) && Lower(b)[k] == LowerChar(b[k]);
      }
    }
    if |a| == |b| && forall k :: 0 <= k < |b| ==> SameLetter(a[k], b[k]) {
      forall k | 0 <= k < |a| ensures Lower(a)[k] == Lower(b)[k] {
        assert SameLetter(a[k], b[k]);
      }
      assert Lower(a) == Lower(b);
    }
  }

  lemma RailsMatch(offer: Frame, rail: string)
    ensures RailOffered(RailsOf(offer), rail) <==> OnOfferedRail(offer, rail)
  {
    var rails := RailsOf(offer);
    hide Lower, SameLetter, RailsOf;
    forall i | 0 <= i < |rails| && rails[i].Str?
      ensures Lower(rails[i].s) == Lower(rail) <==> |rails[i].s| == |rail| && forall k :: 0 <= k < |rail| ==> SameLetter(rails[i].s[k], rail[k])
    {
      SameWhenLowered(rails[i].s, rail);
    }
  }

  lemma HexPair(a: char, b: char)
    requires IsLowerHex(a) && IsLowerHex(b)
    ensures HexDigit(a) < 16 && HexDigit(b) < 16 && a != ' ' && a as int > 13
    ensures var n := 16 * HexDigit(a) + HexDigit(b); HEX_DIGITS[n / 16] == a && HEX_DIGITS[n % 16] == b
  {
    var n := 16 * HexDigit(a) + HexDigit(b);
    assert n / 16 == HexDigit(a) && n % 16 == HexDigit(b);
  }

  function PairByte(a: char, b: char): (r: byte)
    requires IsLowerHex(a) && IsLowerHex(b)
    ensures r as int == 16 * HexDigit(a) + HexDigit(b)
  {
    HexPair(a, b);
    (16 * HexDigit(a) + HexDigit(b)) as byte
  }

  lemma PairFirst(s: string)
    requires |s| >= 2 && s[0] != ' ' && s[0] as int > 13 && HexDigit(s[0]) < 16 && HexDigit(s[1]) < 16 && FromHex(s[2..]).Some?
    ensures FromHex(s) == Some([(16 * HexDigit(s[0]) + HexDigit(s[1])) as byte] + FromHex(s[2..]).value)
  {
    hide HexDigit;
  }

  lemma PairRead(a: char, b: char, t: string)
    requires IsLowerHex(a) && IsLowerHex(b) && FromHex(t).Some?
    ensures FromHex([a, b] + t) == Some([PairByte(a, b)] + FromHex(t).value)
  {
    hide FromHex, HexDigit, IsLowerHex, HEX_DIGITS, PairByte;
    HexPair(a, b);
    assert ([a, b] + t)[2..] == t;
    PairFirst([a, b] + t);
  }

  lemma PairDigits(a: char, b: char)
    requires IsLowerHex(a) && IsLowerHex(b)
    ensures var n := PairByte(a, b) as int; HEX_DIGITS[n / 16] == a && HEX_DIGITS[n % 16] == b
  {
    hide *;
    HexPair(a, b);
  }

  lemma PairWritten(a: char, b: char, bytes: seq<byte>)
    requires IsLowerHex(a) && IsLowerHex(b)
    ensures ToHex([PairByte(a, b)] + bytes) == [a, b] + ToHex(bytes)
  {
    PairDigits(a, b);
    hide HexDigit, IsLowerHex, HEX_DIGITS, PairByte;
    var s := [PairByte(a, b)] + bytes;
    assert s[0] == PairByte(a, b) && s[1..] == bytes;
  }

  lemma {:induction false} FromLowerHex(t: string)
    requires |t| % 2 == 0 && EveryChar(t, IsLowerHex)
    ensures FromHex(t).Some? && ToHex(FromHex(t).value) == t
    ensures FromHex(t + "\n") == FromHex(t)
    decreases |t|
  {
    hide FromHex, ToHex, IsLowerHex, HexDigit;
    if t == "" {
      HexOfNothing();
      assert t + "\n" == "\n";
    } else {
      FromLowerHex(t[2..]);
      PairRead(t[0], t[1], t[2..]);
      PairRead(t[0], t[1], t[2..] + "\n");
      PairWritten(t[0], t[1], FromHex(t[2..]).value);
      assert t == [t[0], t[1]] + t[2..] && t + "\n" == [t[0], t[1]] + (t[2..] + "\n");
    }
  }

  lemma HexOfNothing()
    ensures FromHex("") == Some([]) && FromHex("\n") == Some([]) && ToHex([]) == ""
  {
    assert "\n"[1..] == "";
  }

  /** A secret of 32 bytes opens a statement that is spelt in lower case. */
  lemma UnlocksExactly(p: Primitives, statement: string, secret: string)
    requires IsHex32(secret) && IsStatement(statement)
    ensures VerifyPreimage(p, statement, secret) <==> Unlocks(p, statement, secret)
  {
    LowerStatement(statement);
    var t := SecretDigits(secret);
    hide IsHex32, IsStatement, Lower, FromHex, ToHex, Chomp;
    FromLowerHex(t);
    var raw := FromHex(t).value;
    assert VerifyPreimage(p, statement, secret) <==> statement == "0x" + p.sha256Bytes(raw);
    if other: seq<byte> {:trigger p.sha256Bytes(other)} :|
      |other| == 32 && Chomp(secret) == "0x" + ToHex(other) && statement == "0x" + p.sha256Bytes(other) {
      assert ("0x" + t)[2..] == t && ("0x" + ToHex(other))[2..] == ToHex(other);
      HexRoundTrip(other);
    }
  }

  /** The 64 digits of a secret, and what reading it as hexadecimal gives. */
  lemma SecretDigits(secret: string) returns (t: string)
    requires IsHex32(secret)
    ensures Chomp(secret) == "0x" + t && |t| == 64 && EveryChar(t, IsLowerHex)
    ensures "0x" <= secret && FromHex(secret[2..]) == FromHex(t) && FromHex(t).Some? && |FromHex(t).value| == 32
  {
    t := Chomp(secret)[2..];
    hide FromHex, ToHex, IsLowerHex, EveryChar;
    FromLowerHex(t);
    assert Chomp(secret) == "0x" + t;
    ChompedTail(secret, t);
  }

  lemma ChompedTail(s: string, t: string)
    requires Chomp(s) == "0x" + t
    ensures "0x" <= s && (s[2..] == t || s[2..] == t + "\n")
  {
    assert s == "0x" + t || s == "0x" + t + "\n";
  }

  lemma LowerStatement(statement: string)
    requires IsStatement(statement)
    ensures Lower(statement) == statement
  {
    var t := Chomp(statement);
    forall i | 0 <= i < |statement| ensures LowerChar(statement[i]) == statement[i] {
      if 2 <= i < |t| {
        assert IsLowerHex(t[2..][i - 2]);
      } else if i < 2 {
        assert t[i] == "0x"[i];
      }
    }
  }

  // --- The state machine admits the same frames ---

  /** What is known of a frame in the past of a deal. */
  lemma AcceptShape(p: Primitives, f: Frame)
    requires WellFormed(p, f) && StringAt(f, "type") == "accept"
    ensures |StringAt(f, "contract")| >= 18 && IsStatement(StringAt(f, "statement"))
  {
    hide Spells, IsStatement, IsHex32;
    PatternsAgree(StringAt(f, "contract"));
    PatternsAgree(StringAt(f, "statement"));
    ContractLength(StringAt(f, "contract"));
  }

  lemma ContractLength(s: string)
    requires IsHex32(s)
    ensures |s| >= 18
  {
  }

  lemma KindKnown(p: Primitives, f: Frame)
    requires WellFormed(p, f)
    ensures KnownType(StringAt(f, "type")) && Get(f, "type") == Str(StringAt(f, "type")) && Get(f, "from") == Str(Sender(f))
  {
    hide Spells;
  }

  lemma OfferShape(p: Primitives, f: Frame)
    requires WellFormed(p, f) && StringAt(f, "type") == "offer"
    ensures Get(f, "role") == Str("payer") || Get(f, "role") == Str("payee")
    ensures Get(f, "id") != Null
  {
    hide Fits, Fits32, FitsRail, Canonical;
  }

  /** The state the past describes, in each of its stages. */
  lemma DealFacts(p: Primitives, past: seq<Frame>)
    requires Sound(p, past) && past != []
    ensures var c := ContractOf(past);
      c.offer == past[0] && c.offerFrom == Sender(past[0]) && (c.id != None <==> Accepts(past))
    ensures !Accepts(past) ==> OnlyParty(ContractOf(past), Sender(past[0]))
    ensures Accepts(past) ==> Holds(ContractOf(past), past[0], past[1])
    ensures StatusOf(past) == ContractOf(past).status && |past| <= 4
  {
    hide WellFormed;
    OfferShape(p, past[0]);
    if Accepts(past) {
      AcceptShape(p, past[1]);
    }
    hide IsStatement;
  }

  ghost predicate OnlyParty(c: Contract, did: string) {
    (c.payer == Some(did) && c.payee == None) || (c.payee == Some(did) && c.payer == None)
  }

  ghost predicate Holds(c: Contract, offer: Frame, accept: Frame) {
    c.id == Some(StringAt(accept, "contract")) && c.statement == Some(StringAt(accept, "statement")) &&
    c.payer == Some(PayerOf(offer, accept)) && c.payee == Some(PayeeOf(offer, accept)) && DealRoom(c.id.value) == RoomOf(accept)
  }

  lemma StageFacts(p: Primitives, past: seq<Frame>)
    requires Sound(p, past) && past != []
    ensures var c := ContractOf(past);
      (c.status == Proposed <==> |past| == 1) && (c.status == Accepted <==> |past| == 2 && Accepts(past)) &&
      (c.status == Locked <==> |past| == 3 && IsLocked(past)) &&
      (c.status == Claimed <==> |past| == 4 && IsClaimed(past)) && (c.status == Refunded <==> |past| == 4 && !IsClaimed(past))
    ensures |past| == 4 ==> IsLocked(past)
    ensures |past| >= 3 ==> Accepts(past)
    ensures var c := ContractOf(past);
      if IsLocked(past) then |past| >= 3 && c.rail == Some(StringAt(past[2], "rail")) && c.railRef == Some(StringAt(past[2], "ref"))
      else c.rail == None && c.railRef == None
  {
    hide WellFormed, StringAt;
  }

  /** What a party's frame in the deal room must be. */
  lemma DealFrame(p: Primitives, past: seq<Frame>, f: Frame, room: string, now: int)
    requires past != [] && StringAt(f, "type") in {"lock", "reveal", "refund", "cancel", "receipt", "heartbeat"}
    ensures |past| == 1 ==>
      (Follows(p, past, f, room, now) <==> StringAt(f, "type") == "cancel" && room == OFFER_ROOM && Sender(f) == Sender(past[0]))
    ensures |past| >= 2 ==>
      (Follows(p, past, f, room, now) <==>
        Accepts(past) && room == RoomOf(past[1]) && StringAt(f, "contract") == StringAt(past[1], "contract") && InDeal(p, past, f, now))
  {
    hide InDeal, Answers, RoomOf;
  }

  lemma ExpectedAt(p: Primitives, past: seq<Frame>, kind: string)
    requires Sound(p, past) && past != [] && kind != "offer" && kind != "accept"
    ensures ExpectedRoom(ContractOf(past), Str(kind)) == if Accepts(past) then RoomOf(past[1]) else OFFER_ROOM
  {
    DealFacts(p, past);
    hide Sound, ContractOf, DealRoom, RoomOf;
  }

  lemma CoreSpelt(p: Primitives, f: Frame)
    requires WellFormed(p, f) && StringAt(f, "type") == "accept"
    ensures AcceptCore(f) == map k | k in {"from", "ref", "statement", "nonce", "paymentKey"} && Get(f, k) != Null :: Get(f, k)
  {
    hide Spells;
    assert Get(f, "from") != Null && Get(f, "ref") != Null && Get(f, "statement") != Null && Get(f, "nonce") != Null;
    hide WellFormed, Fits;
  }

  lemma ContractIdSpelt(p: Primitives, offer: Frame, f: Frame)
    requires WellFormed(p, f) && StringAt(f, "type") == "accept"
    ensures ContractId(p, offer, AcceptCore(f)) == "0x" + p.sha256Text("FLOP::tclk::v1|contract|" + Committed(offer, f))
  {
    CoreSpelt(p, f);
    assert ContractText(offer, AcceptCore(f), false) == Committed(offer, f) by { hide Canonical, AcceptCore, WellFormed; }
    assert DomainText("contract", "") == "FLOP::tclk::v1|contract|";
    hide ContractText, AcceptCore, WellFormed, Committed;
    var t := ContractText(offer, AcceptCore(f), false);
    assert DomainText("contract", t) == "FLOP::tclk::v1|contract|" + t;
  }

  ghost predicate Next(p: Primitives, past: seq<Frame>, f: Frame, kind: string) {
    Sound(p, past) && past != [] && WellFormed(p, f) && ValidateFrame(p, f) == Valid && StringAt(f, "type") == kind &&
    Get(f, "type") == Str(kind)
  }

  /** The guards of the state machine, in the room it expects. */
  ghost predicate Passes(p: Primitives, past: seq<Frame>, f: Frame, room: string, now: int)
    requires past != []
  {
    var c := ContractOf(past);
    room == ExpectedRoom(c, Get(f, "type")) && Guard(p, c, f, now) == Valid
  }

  lemma AcceptGuard(p: Primitives, c: Contract, f: Frame, now: int)
    requires ValidateFrame(p, f) == Valid && StringAt(f, "type") == "accept"
    ensures Guard(p, c, f, now) == Valid <==>
      c.status == Proposed && Get(f, "ref") == Get(c.offer, "id") && Sender(f) != c.offerFrom && now < Instant(c.offer, "expiresMs") &&
      StringAt(f, "contract") == ContractId(p, c.offer, AcceptCore(f)) &&
      (Get(c.offer, "lock") == Str("point") ==> Get(f, "paymentKey") != Null)
  {
    hide ValidateFrame, ContractId, AcceptCore;
  }

  lemma LockGuard(p: Primitives, c: Contract, f: Frame, now: int)
    requires ValidateFrame(p, f) == Valid && StringAt(f, "type") == "lock"
    ensures Guard(p, c, f, now) == Valid <==>
      c.status == Accepted && Some(StringAt(f, "contract")) == c.id && Some(Sender(f)) == c.payer &&
      now < Instant(c.offer, "refundAfterMs") && RailOffered(RailsOf(c.offer), StringAt(f, "rail"))
  {
    hide ValidateFrame, RailOffered;
  }

  lemma RevealGuard(p: Primitives, c: Contract, f: Frame, now: int)
    requires ValidateFrame(p, f) == Valid && StringAt(f, "type") == "reveal"
    ensures Guard(p, c, f, now) == Valid <==>
      c.status == Locked && Some(StringAt(f, "contract")) == c.id && !RefersElsewhere(c, f) && Some(Sender(f)) == c.payee &&
      now < Instant(c.offer, "refundAfterMs") && c.statement != None && VerifyPreimage(p, c.statement.value, StringAt(f, "secret"))
  {
    hide ValidateFrame, VerifyPreimage;
  }

  lemma RefundGuard(p: Primitives, c: Contract, f: Frame, now: int)
    requires ValidateFrame(p, f) == Valid && StringAt(f, "type") == "refund"
    ensures Guard(p, c, f, now) == Valid <==>
      c.status == Locked && Some(StringAt(f, "contract")) == c.id && !RefersElsewhere(c, f) && Some(Sender(f)) == c.payer &&
      now >= Instant(c.offer, "refundAfterMs")
  {
    hide ValidateFrame;
  }

  lemma CancelGuard(p: Primitives, c: Contract, f: Frame, now: int)
    requires ValidateFrame(p, f) == Valid && StringAt(f, "type") == "cancel"
    ensures Guard(p, c, f, now) == Valid <==>
      (c.status == Proposed || (c.status == Accepted && Some(StringAt(f, "contract")) == c.id)) && PartyOf(c, Sender(f))
  {
    hide ValidateFrame;
  }

  ghost predicate PartyOf(c: Contract, did: string) {
    did == c.offerFrom || Some(did) == c.payer || Some(did) == c.payee
  }

  lemma ReceiptGuard(p: Primitives, c: Contract, f: Frame, now: int)
    requires ValidateFrame(p, f) == Valid && StringAt(f, "type") == "receipt"
    ensures Guard(p, c, f, now) == Valid <==>
      Terminal(c.status) && Some(StringAt(f, "contract")) == c.id && PartyOf(c, Sender(f)) && Truthful(c, f)
  {
    hide ValidateFrame;
  }

  lemma HeartbeatGuard(p: Primitives, c: Contract, f: Frame, now: int)
    requires ValidateFrame(p, f) == Valid && StringAt(f, "type") == "heartbeat"
    ensures Guard(p, c, f, now) == Valid <==>
      (c.status == Accepted || c.status == Locked) && Some(StringAt(f, "contract")) == c.id && PartyOf(c, Sender(f))
  {
    hide ValidateFrame;
  }

  lemma AcceptRefines(p: Primitives, past: seq<Frame>, f: Frame, room: string, now: int)
    requires Next(p, past, f, "accept")
    ensures Passes(p, past, f, room, now) <==> Follows(p, past, f, room, now)
  {
    hide Sound, WellFormed, ValidateFrame, ContractOf, Guard, ContractId, Committed, AcceptCore, DealRoom, RoomOf;
    DealFacts(p, past);
    StageFacts(p, past);
    AcceptGuard(p, ContractOf(past), f, now);
    ContractIdSpelt(p, past[0], f);
    hide Holds, OnlyParty, StatusOf, Accepts, IsLocked, IsClaimed;
  }

  lemma LockRefines(p: Primitives, past: seq<Frame>, f: Frame, room: string, now: int)
    requires Next(p, past, f, "lock")
    ensures Passes(p, past, f, room, now) <==> Follows(p, past, f, room, now)
  {
    hide Sound, WellFormed, ValidateFrame, ContractOf, Guard, Follows, RailOffered, OnOfferedRail, DealRoom, RoomOf, ExpectedRoom,
      StatusOf, Accepts, IsLocked, IsClaimed, PayerOf, PayeeOf;
    DealFacts(p, past);
    StageFacts(p, past);
    ExpectedAt(p, past, "lock");
    DealFrame(p, past, f, room, now);
    LockGuard(p, ContractOf(past), f, now);
    RailsMatch(past[0], StringAt(f, "rail"));
  }

  lemma RevealRefines(p: Primitives, past: seq<Frame>, f: Frame, room: string, now: int)
    requires Next(p, past, f, "reveal")
    ensures Passes(p, past, f, room, now) <==> Follows(p, past, f, room, now)
  {
    hide Sound, WellFormed, ValidateFrame, ContractOf, Guard, Follows, VerifyPreimage, Unlocks, DealRoom, RoomOf, ExpectedRoom,
      StatusOf, Accepts, IsLocked, IsClaimed, PayerOf, PayeeOf;
    DealFacts(p, past);
    StageFacts(p, past);
    ExpectedAt(p, past, "reveal");
    DealFrame(p, past, f, room, now);
    RevealGuard(p, ContractOf(past), f, now);
    if |past| == 3 && IsLocked(past) {
      SecretShape(p, past, f);
      RefShape(p, past, f);
    }
  }

  lemma SecretShape(p: Primitives, past: seq<Frame>, f: Frame)
    requires Sound(p, past) && Accepts(past) && WellFormed(p, f) && StringAt(f, "type") == "reveal"
    ensures VerifyPreimage(p, StringAt(past[1], "statement"), StringAt(f, "secret")) <==>
            Unlocks(p, StringAt(past[1], "statement"), StringAt(f, "secret"))
  {
    hide WellFormed, IsStatement, IsHex32, VerifyPreimage, Unlocks;
    AcceptShape(p, past[1]);
    RevealShape(p, f);
    UnlocksExactly(p, StringAt(past[1], "statement"), StringAt(f, "secret"));
  }

  lemma RevealShape(p: Primitives, f: Frame)
    requires WellFormed(p, f) && StringAt(f, "type") == "reveal"
    ensures IsHex32(StringAt(f, "secret"))
  {
    hide Spells, IsHex32;
    PatternsAgree(StringAt(f, "secret"));
  }

  lemma RefShape(p: Primitives, past: seq<Frame>, f: Frame)
    requires Sound(p, past) && WellFormed(p, f) && |past| >= 3 && IsLocked(past)
    requires StringAt(f, "type") in {"reveal", "refund", "receipt"}
    ensures Get(f, "ref") == Null || Get(f, "ref") == Str(StringAt(f, "ref"))
    ensures Get(f, "rail") == Null || Get(f, "rail") == Str(StringAt(f, "rail"))
    ensures Get(past[2], "ref") == Str(StringAt(past[2], "ref")) && Get(past[2], "rail") == Str(StringAt(past[2], "rail"))
  {
    assert WellFormed(p, past[2]);
    OptionalFields(p, f);
    LockFields(p, past[2]);
    hide WellFormed;
  }

  lemma OptionalFields(p: Primitives, f: Frame)
    requires WellFormed(p, f) && StringAt(f, "type") in {"reveal", "refund", "receipt"}
    ensures Get(f, "ref") == Null || Get(f, "ref") == Str(StringAt(f, "ref"))
    ensures Get(f, "rail") == Null || Get(f, "rail") == Str(StringAt(f, "rail"))
  {
    hide Spells;
  }

  lemma LockFields(p: Primitives, f: Frame)
    requires WellFormed(p, f) && StringAt(f, "type") == "lock"
    ensures Get(f, "ref") == Str(StringAt(f, "ref")) && Get(f, "rail") == Str(StringAt(f, "rail"))
  {
    hide Spells;
  }

  lemma RefundRefines(p: Primitives, past: seq<Frame>, f: Frame, room: string, now: int)
    requires Next(p, past, f, "refund")
    ensures Passes(p, past, f, room, now) <==> Follows(p, past, f, room, now)
  {
    hide Sound, WellFormed, ValidateFrame, ContractOf, Guard, Follows, DealRoom, RoomOf, ExpectedRoom,
      StatusOf, Accepts, IsLocked, IsClaimed, PayerOf, PayeeOf;
    DealFacts(p, past);
    StageFacts(p, past);
    ExpectedAt(p, past, "refund");
    DealFrame(p, past, f, room, now);
    RefundGuard(p, ContractOf(past), f, now);
    if |past| == 3 && IsLocked(past) {
      RefShape(p, past, f);
    }
  }

  /** The parties are the senders of the offer and of the accept. */
  lemma PartiesAre(p: Primitives, past: seq<Frame>, f: Frame)
    requires Sound(p, past) && past != []
    ensures PartyOf(ContractOf(past), Sender(f)) <==>
      if Accepts(past) then FromParty(past, f) else Sender(f) == Sender(past[0])
  {
    DealFacts(p, past);
    hide Sound, ContractOf, Accepts, DealRoom, RoomOf;
  }

  lemma CancelRefines(p: Primitives, past: seq<Frame>, f: Frame, room: string, now: int)
    requires Next(p, past, f, "cancel")
    ensures Passes(p, past, f, room, now) <==> Follows(p, past, f, room, now)
  {
    hide Sound, WellFormed, ValidateFrame, ContractOf, Guard, Follows, DealRoom, RoomOf, ExpectedRoom,
      StatusOf, Accepts, IsLocked, IsClaimed, PartyOf, FromParty;
    DealFacts(p, past);
    StageFacts(p, past);
    ExpectedAt(p, past, "cancel");
    DealFrame(p, past, f, room, now);
    CancelGuard(p, ContractOf(past), f, now);
    PartiesAre(p, past, f);
    NotYetAccepted(past);
  }

  lemma NotYetAccepted(past: seq<Frame>)
    ensures Accepts(past) ==> |past| >= 2
  {
  }

  lemma ReceiptRefines(p: Primitives, past: seq<Frame>, f: Frame, room: string, now: int)
    requires Next(p, past, f, "receipt")
    ensures Passes(p, past, f, room, now) <==> Follows(p, past, f, room, now)
  {
    hide Sound, WellFormed, ValidateFrame, ContractOf, Guard, Follows, DealRoom, RoomOf, ExpectedRoom, Truthful, MayReceipt,
      StatusOf, Accepts, IsLocked, IsClaimed, PartyOf, FromParty;
    DealFacts(p, past);
    StageFacts(p, past);
    ExpectedAt(p, past, "receipt");
    DealFrame(p, past, f, room, now);
    ReceiptGuard(p, ContractOf(past), f, now);
    PartiesAre(p, past, f);
    NotYetAccepted(past);
    if Accepts(past) {
      ReceiptAgrees(p, past, f);
    }
  }

  /** Telling the truth about the state is telling it about the past. */
  lemma ReceiptAgrees(p: Primitives, past: seq<Frame>, f: Frame)
    requires Sound(p, past) && Accepts(past) && WellFormed(p, f) && StringAt(f, "type") == "receipt"
    ensures Terminal(ContractOf(past).status) && FromParty(past, f) && Truthful(ContractOf(past), f) <==> MayReceipt(past, f)
  {
    hide Sound, WellFormed, ContractOf, StatusOf, Accepts, IsClaimed, FromParty;
    NotYetAccepted(past);
    DealFacts(p, past);
    StageFacts(p, past);
    if |past| >= 3 && IsLocked(past) {
      RefShape(p, past, f);
    }
    hide IsLocked, Holds, OnlyParty;
  }

  lemma HeartbeatRefines(p: Primitives, past: seq<Frame>, f: Frame, room: string, now: int)
    requires Next(p, past, f, "heartbeat")
    ensures Passes(p, past, f, room, now) <==> Follows(p, past, f, room, now)
  {
    hide Sound, WellFormed, ValidateFrame, ContractOf, Guard, Follows, DealRoom, RoomOf, ExpectedRoom,
      StatusOf, Accepts, IsLocked, IsClaimed, PartyOf, FromParty;
    DealFacts(p, past);
    StageFacts(p, past);
    ExpectedAt(p, past, "heartbeat");
    DealFrame(p, past, f, room, now);
    HeartbeatGuard(p, ContractOf(past), f, now);
    PartiesAre(p, past, f);
    NotYetAccepted(past);
  }

  lemma FrameRefines(p: Primitives, past: seq<Frame>, f: Frame, room: string, now: int)
    requires Sound(p, past) && past != [] && WellFormed(p, f)
    ensures Passes(p, past, f, room, now) <==> Follows(p, past, f, room, now)
  {
    hide Sound, WellFormed, ValidateFrame, Passes, Follows;
    WellFormedExactly(p, f);
    KindKnown(p, f);
    match StringAt(f, "type")
    case "accept" => AcceptRefines(p, past, f, room, now);
    case "lock" => LockRefines(p, past, f, room, now);
    case "reveal" => RevealRefines(p, past, f, room, now);
    case "refund" => RefundRefines(p, past, f, room, now);
    case "cancel" => CancelRefines(p, past, f, room, now);
    case "receipt" => ReceiptRefines(p, past, f, room, now);
    case "heartbeat" => HeartbeatRefines(p, past, f, room, now);
    case "offer" => SecondOffer(p, past, f, room, now);
  }

  lemma SecondOffer(p: Primitives, past: seq<Frame>, f: Frame, room: string, now: int)
    requires Next(p, past, f, "offer")
    ensures !Passes(p, past, f, room, now) && !Follows(p, past, f, room, now)
  {
    hide Sound, WellFormed, ValidateFrame;
  }

  /** When a frame can follow. */
  ghost predicate InStage(past: seq<Frame>, kind: string) {
    match kind
    case "accept" => |past| == 1
    case "lock" => |past| == 2 && KindAt(past, 1) == "accept"
    case "reveal" => |past| == 3 && KindAt(past, 2) == "lock"
    case "refund" => |past| == 3 && KindAt(past, 2) == "lock"
    case "cancel" => |past| == 1 || (|past| == 2 && KindAt(past, 1) == "accept")
    case _ => kind == "receipt" || kind == "heartbeat"
  }

  lemma FollowsInStage(p: Primitives, past: seq<Frame>, f: Frame, room: string, now: int)
    requires past != [] && Follows(p, past, f, room, now)
    ensures InStage(past, StringAt(f, "type"))
  {
    hide Answers, OnOfferedRail, Unlocks, SameOrNone, RoomOf, PayerOf, PayeeOf;
  }

  lemma Longer(past: seq<Frame>, f: Frame, i: nat)
    ensures KindAt(past + [f], i) == if i == |past| then StringAt(f, "type") else KindAt(past, i)
    ensures forall kind, key ::
      FieldAt(past + [f], i, kind, key) ==
      (if i < |past| || StringAt(f, "type") != kind then FieldAt(past, i, kind, key)
       else if i == |past| then Some(StringAt(f, key)) else None)
  {
  }

  lemma NoField(past: seq<Frame>)
    ensures forall i, kind, key :: i >= |past| ==> FieldAt(past, i, kind, key) == None
    ensures forall i, kind, key :: KindAt(past, i) != kind ==> FieldAt(past, i, kind, key) == None
  {
  }

  /** The contract one frame later, field by field. */
  lemma ContractGrows(past: seq<Frame>, f: Frame)
    requires past != []
    ensures var c, kind := ContractOf(past), StringAt(f, "type");
      var joined := |past| == 1 && kind == "accept";
      var locked := |past| == 2 && kind == "lock";
      var revealed := |past| == 3 && kind == "reveal";
      var payee := Get(c.offer, "role") != Str("payer");
      ContractOf(past + [f]) == c.(
              status := StatusOf(past + [f]),
              payer := if joined && payee then Some(Sender(f)) else c.payer,
              payee := if joined && !payee then Some(Sender(f)) else c.payee,
              id := if joined then Some(StringAt(f, "contract")) else c.id,
              statement := if joined then Some(StringAt(f, "statement")) else c.statement,
              rail := if locked then Some(StringAt(f, "rail")) else c.rail,
              railRef := if locked then Some(StringAt(f, "ref")) else c.railRef,
              secret := if revealed then Some(StringAt(f, "secret")) else c.secret)
  {
    Longer(past, f, 1);
    Longer(past, f, 2);
    Longer(past, f, 3);
    NoField(past);
    hide FieldAt, KindAt, StringAt;
    assert (past + [f])[0] == past[0];
  }

  lemma OrderGrows(p: Primitives, past: seq<Frame>, f: Frame)
    requires Sound(p, past) && past != [] && WellFormed(p, f) && InStage(past, StringAt(f, "type"))
    requires StringAt(f, "type") != "receipt" && StringAt(f, "type") != "heartbeat"
    ensures Sound(p, past + [f])
  {
    hide WellFormed, KindAt, StringAt;
    Longer(past, f, 0);
    Longer(past, f, 1);
    Longer(past, f, 2);
    Longer(past, f, 3);
  }

  /** What a frame that follows adds to the past is what it changes in the contract. */
  lemma EffectRefines(p: Primitives, past: seq<Frame>, f: Frame)
    requires Sound(p, past) && past != [] && WellFormed(p, f) && InStage(past, StringAt(f, "type"))
    ensures var c := Effect(ContractOf(past), f);
      if StringAt(f, "type") == "receipt" || StringAt(f, "type") == "heartbeat" then c == ContractOf(past)
      else c == ContractOf(past + [f]) && Sound(p, past + [f])
  {
    hide WellFormed, FieldAt, KindAt, ContractOf;
    DealFacts(p, past);
    FirstIsOffer(p, past);
    ContractGrows(past, f);
    if StringAt(f, "type") != "receipt" && StringAt(f, "type") != "heartbeat" {
      OrderGrows(p, past, f);
      LastKind(past, f);
    }
    hide Sound, Holds, OnlyParty, Accepts, StringAt;
  }

  lemma FirstIsOffer(p: Primitives, past: seq<Frame>)
    requires Sound(p, past) && past != []
    ensures Get(past[0], "role") == Str("payer") || Get(past[0], "role") == Str("payee")
  {
    OfferShape(p, past[0]) by { hide WellFormed; }
    hide WellFormed;
  }

  lemma LastKind(past: seq<Frame>, f: Frame)
    ensures KindAt(past + [f], |past + [f]| - 1) == StringAt(f, "type")
  {
  }

  lemma FirstFrame(p: Primitives, f: Frame)
    requires WellFormed(p, f) && StringAt(f, "type") == "offer"
    ensures Some(Opened(f)) == DealOf([f]) && Sound(p, [f])
  {
    OfferShape(p, f);
    hide WellFormed;
  }

  lemma FirstRefines(p: Primitives, r: Record)
    ensures Judge(p, None, r) == Valid <==> Admissible(p, [], r)
    ensures Judge(p, None, r) == Valid ==> Advance(None, r) == DealOf(Moved([], r)) && Sound(p, Moved([], r))
  {
    hide WellFormed, ValidateFrame, DecodeFrame, DealOf, Sound, Opened;
    if DecodeFrame(r.line).Some? {
      var f := DecodeFrame(r.line).value;
      WellFormedExactly(p, f);
      if WellFormed(p, f) {
        KindKnown(p, f);
        if StringAt(f, "type") == "offer" {
          FirstFrame(p, f);
          assert [] + [f] == [f];
        }
      }
    }
  }

  lemma NextRefines(p: Primitives, past: seq<Frame>, r: Record)
    requires Sound(p, past) && past != []
    ensures Judge(p, DealOf(past), r) == Valid <==> Admissible(p, past, r)
    ensures Admissible(p, past, r) ==> Advance(DealOf(past), r) == DealOf(Moved(past, r)) && Sound(p, Moved(past, r))
  {
    if DecodeFrame(r.line).Some? {
      var f := DecodeFrame(r.line).value;
      WellFormedExactly(p, f);
      GuardNeedsValid(p, ContractOf(past), f, r.timeMs);
      if WellFormed(p, f) {
        FrameRefines(p, past, f, r.room, r.timeMs);
        if Follows(p, past, f, r.room, r.timeMs) {
          FollowsInStage(p, past, f, r.room, r.timeMs);
          EffectRefines(p, past, f);
        }
      }
    }
    hide WellFormed, ValidateFrame, DecodeFrame, Follows, Guard, Effect, Sound, ExpectedRoom;
  }

  lemma GuardNeedsValid(p: Primitives, c: Contract, f: Frame, now: int)
    ensures Guard(p, c, f, now) == Valid ==> ValidateFrame(p, f) == Valid
  {
    hide ValidateFrame;
  }

  /** The fold is the protocol: unless a TypeError cuts it short, it accepts exactly the records
      that follow from the frames accepted before, and the contract it ends with is the one those
      frames describe. */
  lemma {:induction false} FoldRefines(p: Primitives, records: seq<Record>)
    requires !Fold(p, records).raised
    ensures Fold(p, records).accepted == Admitted(p, records).admitted
    ensures Fold(p, records).deal == DealOf(Admitted(p, records).past) && Sound(p, Admitted(p, records).past)
    decreases |records|
  {
    hide Judge, Advance, Sound, DealOf, Admissible, Moved, KindOf;
    if records == [] {
      NothingAdmitted(p);
    } else {
      var n := |records| - 1;
      NotRaisedBefore(p, Fold(p, records[..n]), n, records[n]) by { hide Judge, Advance; }
      FoldRefines(p, records[..n]);
      var past := Admitted(p, records[..n]).past;
      NothingIsNone(past);
      if past == [] {
        FirstRefines(p, records[n]);
      } else {
        NextRefines(p, past, records[n]);
      }
    }
  }

  lemma NothingAdmitted(p: Primitives)
    ensures DealOf([]) == None && Sound(p, [])
  {
  }

  lemma NothingIsNone(past: seq<Frame>)
    ensures DealOf(past) == None <==> past == []
  {
  }
}
