/** The connector's frame builders and parser, and their agreement with the fold. */
module Connector {
  import opened Text
  import opened Json
  import opened JsonDecode
  import opened CanonicalJson
  import opened AsciiAgreement
  import opened Frames
  import opened Deals
  import opened Transcripts
  import opened TranscriptTheorems

  const PREFIX := "tclk1 "

  predicate FrameKind(kind: string) {
    kind in {"offer", "accept", "lock", "reveal", "refund", "cancel", "heartbeat"}
  }

  /** The connector knows the fold's frame kinds except receipts. */
  lemma KindsExactly(kind: string)
    ensures FrameKind(kind) <==> KnownType(kind) && kind != "receipt"
  {
  }

  datatype TclkFrame = TclkFrame(kind: string, data: Frame, raw: string, signed: bool, author: string)

  /** `build_frame`; an unknown kind is refused. A field named "type" would replace the kind. */
  function BuildFrame(kind: string, fields: Frame): Option<string> {
    if FrameKind(kind) then Some(PREFIX + Canonical(Obj(map["type" := Str(kind)] + fields), true)) else None
  }

  function ParseFrame(text: string, author: string, signed: bool): Option<TclkFrame> {
    var t := Strip(text);
    if !(PREFIX <= t) || Strip(t[6..]) == "" then None
    else
      match Decode(Strip(t[6..]))
      case Got(Obj(data), _) =>
        if Get(data, "type").Str? && FrameKind(StringAt(data, "type")) then
          Some(TclkFrame(StringAt(data, "type"), data, t, signed, author))
        else None
      case _ => None
  }

  lemma ObjectTextEnds(fields: Frame, ascii: bool)
    ensures var t := Canonical(Obj(fields), ascii);
      |t| >= 2 && t[0] == '{' && t[|t| - 1] == '}'
  {
    hide SortedKeys, Members;
  }

  lemma BuiltStripped(fields: Frame)
    ensures var t := Canonical(Obj(fields), true); Strip(PREFIX + t) == PREFIX + t && Strip(t) == t && (PREFIX + t)[6..] == t
  {
    ObjectTextEnds(fields, true);
    var t := Canonical(Obj(fields), true);
    hide Canonical;
    StripTight(t);
    StripTight(PREFIX + t);
  }

  /** Parsing a built frame gives back its kind and fields; it fails exactly when a field
      named "type" smuggled in something that is not a frame kind. */
  lemma ParseBuilt(kind: string, fields: Frame, author: string, signed: bool)
    requires FrameKind(kind)
    ensures var data := map["type" := Str(kind)] + fields;
      var line := BuildFrame(kind, fields).value;
      ParseFrame(line, author, signed) ==
        if Get(data, "type").Str? && FrameKind(StringAt(data, "type"))
        then Some(TclkFrame(StringAt(data, "type"), data, line, signed, author)) else None
    ensures "type" !in fields ==>
      ParseFrame(BuildFrame(kind, fields).value, author, signed) ==
        Some(TclkFrame(kind, map["type" := Str(kind)] + fields, BuildFrame(kind, fields).value, signed, author))
  {
    var data := map["type" := Str(kind)] + fields;
    BuiltStripped(data);
    ObjectTextEnds(data, true);
    DecodeCanonical(Obj(data), true);
    hide Canonical, Decode, Strip;
  }

  /** The fold decodes a built line to the fields it was built from. */
  lemma FoldDecodesBuilt(fields: Frame)
    ensures DecodeFrame(PREFIX + Canonical(Obj(fields), true)) == Some(fields)
  {
    BuiltStripped(fields);
    ObjectTextEnds(fields, true);
    DecodeCanonical(Obj(fields), true);
    var t := Canonical(Obj(fields), true);
    hide Canonical, Decode, Strip;
    assert (PREFIX + t)[5..] == " " + t;
    assert (" " + t)[1..] == t;
    assert LeftStrip(" " + t) == LeftStrip(t) == t;
  }

  // --- A line that stops the fold ---

  lemma {:induction false} EscapePlain(s: string)
    requires forall i :: 0 <= i < |s| ==> ' ' <= s[i] <= '~' && s[i] != '"' && s[i] != '\\'
    ensures Escape(s, true) == s
  {
    if s != "" {
      EscapePlain(s[1..]);
    }
  }

  lemma FromBeforeType()
    ensures SortedKeys({"from", "type"}) == ["from", "type"]
  {
    var s := {"from", "type"};
    assert LexLeq("from", "type") && LexLeq("from", "from") by {
      LexReflexive("from");
      assert "from"[0] < "type"[0];
    }
    LeastIsUnique(s);
    assert IsLeast("from", s);
    assert Least(s) == "from";
    assert s - {"from"} == {"type"};
    assert IsLeast("type", {"type"}) by {
      LexReflexive("type");
    }
    LeastIsUnique({"type"});
    assert {"type"} - {"type"} == {};
    assert SortedKeys({"type"}) == ["type"] + SortedKeys({});
  }

  const LISTED_TYPE := map["from" := Str("did:key:z1"), "type" := Arr([])]
  const STOPPING_LINE := "tclk1 " + ("{" + ("\"from\"" + ":" + "\"did:key:z1\"" + ("," + ("\"type\"" + ":" + "[]"))) + "}")

  lemma TwoMembers(v: Json, k: string, m: string)
    requires v.Obj? && k in v.fields && m in v.fields
    ensures Members(v, [k, m], true) ==
      Quote(k, true) + ":" + Canonical(v.fields[k], true) + ("," + (Quote(m, true) + ":" + Canonical(v.fields[m], true)))
  {
    hide Members, Canonical, Quote;
    MembersUnfold(v, [k, m], true);
    MembersUnfold(v, [m], true);
    assert [k, m][1..] == [m];
    var tail := Quote(m, true) + ":" + Canonical(v.fields[m], true);
    assert tail + "" == tail;
  }

  lemma QuotePlain(s: string)
    requires forall i :: 0 <= i < |s| ==> ' ' <= s[i] <= '~' && s[i] != '"' && s[i] != '\\'
    ensures Quote(s, true) == "\"" + s + "\""
  {
    EscapePlain(s);
  }

  lemma ListedParts()
    ensures Quote("from", true) == "\"from\"" && Quote("type", true) == "\"type\""
    ensures Canonical(Str("did:key:z1"), true) == "\"did:key:z1\"" && Canonical(Arr([]), true) == "[]"
  {
    hide Quote;
    assert Canonical(Str("did:key:z1"), true) == Quote("did:key:z1", true);
    assert Elements(Arr([]), 0, true) == "" && Canonical(Arr([]), true) == "[" + "" + "]";
    hide Canonical;
    QuotePlain("from");
    QuotePlain("type");
    QuotePlain("did:key:z1");
  }

  lemma ListedText()
    ensures Canonical(Obj(LISTED_TYPE), true) == "{" + Members(Obj(LISTED_TYPE), ["from", "type"], true) + "}"
  {
    assert LISTED_TYPE.Keys == {"from", "type"};
    FromBeforeType();
    hide Members, SortedKeys;
  }

  lemma StoppingText()
    ensures PREFIX + Canonical(Obj(LISTED_TYPE), true) == STOPPING_LINE
  {
    ListedText();
    TwoMembers(Obj(LISTED_TYPE), "from", "type");
    ListedParts();
    hide Canonical, Members, Quote;
    assert LISTED_TYPE["from"] == Str("did:key:z1") && LISTED_TYPE["type"] == Arr([]);
  }

  /** With any contract open, this short line from its sender, in the room it is expected in,
      ends the fold with a TypeError. */
  lemma ListedTypeStops(p: Primitives, c: Contract, time: int)
    ensures Judge(p, Some(c), Record(ExpectedRoom(c, Arr([])), time, "did:key:z1", STOPPING_LINE)) == Raised
  {
    StoppingText();
    FoldDecodesBuilt(LISTED_TYPE);
    hide DecodeFrame, Canonical, STOPPING_LINE, ExpectedRoom;
  }

  // --- Ids ---

  function ContractIdOf(p: Primitives, offer: Frame, core: Frame): string {
    DomainHash(p, "contract", ContractText(offer, core, true))
  }

  function DealRoomOf(contract: string): string {
    var hexed := if "0x" <= contract then contract[2..] else contract;
    "mb-p-tclk-" + (if |hexed| < 16 then hexed else hexed[..16])
  }

  /** Preimage and statement derived from the offer id with the agent's claim seed. */
  function DerivedHashlock(p: Primitives, offerId: string, seed: seq<byte>): (string, string) {
    var raw := p.hmac(seed, "tclk/1|claim|" + offerId);
    ("0x" + ToHex(raw), "0x" + p.sha256Bytes(raw))
  }

  lemma DomainTextInjective(tag: string, payload: string, tag': string, payload': string)
    requires '|' !in tag && '|' !in tag' && DomainText(tag, payload) == DomainText(tag', payload')
    ensures tag == tag' && payload == payload'
  {
    var d := DOMAIN + "|";
    assert DomainText(tag, payload) == d + (tag + "|" + payload);
    assert DomainText(tag', payload') == d + (tag' + "|" + payload');
    assert DomainText(tag, payload)[|d|..] == tag + "|" + payload;
    assert DomainText(tag', payload')[|d|..] == tag' + "|" + payload';
    BarSplits(tag, tag', payload, payload');
  }

  /** The text under a contract id determines the offer and the accept core, and is never
      the text under an offer id. */
  lemma ContractTextInjective(offer: Frame, core: Frame, offer': Frame, core': Frame, other: string, ascii: bool)
    ensures DomainText("contract", ContractText(offer, core, ascii)) == DomainText("contract", ContractText(offer', core', ascii)) ==>
      offer == offer' && core == core'
    ensures DomainText("contract", ContractText(offer, core, ascii)) != DomainText("offer", other)
  {
    var t, t' := ContractText(offer, core, ascii), ContractText(offer', core', ascii);
    if DomainText("contract", t) == DomainText("contract", t') {
      DomainTextInjective("contract", t, "contract", t');
      var m, m' := map["offer" := Obj(offer), "accept" := Obj(core)], map["offer" := Obj(offer'), "accept" := Obj(core')];
      CanonicalInjective(Obj(m), Obj(m'), ascii);
      assert m["offer"] == m'["offer"] && m["accept"] == m'["accept"];
    }
    if DomainText("contract", t) == DomainText("offer", other) {
      DomainTextInjective("contract", t, "offer", other);
    }
  }

  /** Connector and fold hash the same contract text exactly when offer and core stay below 0x7f. */
  lemma ContractTextsAgree(offer: Frame, core: Frame)
    ensures ContractText(offer, core, true) == ContractText(offer, core, false) <==> Plain(Obj(offer)) && Plain(Obj(core))
  {
    ModesAgree(Obj(map["offer" := Obj(offer), "accept" := Obj(core)]));
    PlainPair(Obj(offer), Obj(core));
    hide Plain, Canonical;
  }

  /** Equal ids over different texts would be a SHA-256 collision. */
  lemma ContractIdsAgree(p: Primitives, offer: Frame, core: Frame)
    ensures Plain(Obj(offer)) && Plain(Obj(core)) ==> ContractIdOf(p, offer, core) == ContractId(p, offer, core)
    ensures !(Plain(Obj(offer)) && Plain(Obj(core))) && ContractIdOf(p, offer, core) == ContractId(p, offer, core) ==>
      exists x, y :: x != y && p.sha256Text(x) == p.sha256Text(y)
  {
    ContractTextsAgree(offer, core);
    var t, t' := ContractText(offer, core, true), ContractText(offer, core, false);
    hide Plain, ContractText, DomainText;
    if t != t' {
      var x, y := DomainText("contract", t), DomainText("contract", t');
      if x == y {
        DomainTextInjective("contract", t, "contract", t');
      }
      assert ContractIdOf(p, offer, core)[2..] == p.sha256Text(x);
      assert ContractId(p, offer, core)[2..] == p.sha256Text(y);
    }
  }

  /** Two different pairs of offer and accept core, for instance with different accept nonces,
      get the same contract id only by a SHA-256 collision. */
  lemma SameContractCollides(p: Primitives, offer: Frame, core: Frame, offer': Frame, core': Frame)
    requires offer != offer' || core != core'
    requires ContractIdOf(p, offer, core) == ContractIdOf(p, offer', core')
    ensures exists x, y :: x != y && p.sha256Text(x) == p.sha256Text(y)
  {
    ContractTextInjective(offer, core, offer', core', "", true);
    hide ContractText, DomainText;
    var x, y := DomainText("contract", ContractText(offer, core, true)), DomainText("contract", ContractText(offer', core', true));
    assert x != y;
    assert ContractIdOf(p, offer, core)[2..] == p.sha256Text(x);
    assert ContractIdOf(p, offer', core')[2..] == p.sha256Text(y);
  }

  lemma PlainPair(offer: Json, core: Json)
    ensures Plain(Obj(map["offer" := offer, "accept" := core])) <==> Plain(offer) && Plain(core)
  {
    var m := map["offer" := offer, "accept" := core];
    assert "offer" in m && "accept" in m && m["offer"] == offer && m["accept"] == core;
    assert IsAscii("offer") && IsAscii("accept");
  }

  // --- Builders ---

  function AcceptFields(sender: string, ref: string, statement: string, contract: string, nonce: string): Frame {
    map["from" := Str(sender), "ref" := Str(ref), "statement" := Str(statement), "contract" := Str(contract),
        "nonce" := Str(nonce)]
  }

  function HeartbeatFields(sender: string, contract: string, nonce: string, note: string): Frame {
    var fields := map["from" := Str(sender), "contract" := Str(contract), "nonce" := Str(nonce)];
    if note == "" then fields else fields["note" := Str(note)]
  }

  function BuildAccept(sender: string, ref: string, statement: string, contract: string, nonce: string): string {
    BuildFrame("accept", AcceptFields(sender, ref, statement, contract, nonce)).value
  }

  function BuildHeartbeat(sender: string, contract: string, nonce: string, note: string): string {
    BuildFrame("heartbeat", HeartbeatFields(sender, contract, nonce, note)).value
  }

  function BuildReveal(secret: string): string {
    BuildFrame("reveal", map["secret" := Str(secret)]).value
  }

  /** `build_reveal` leaves out "from" and "contract", so no fold accepts its line from anyone. */
  lemma BuiltRevealRejected(p: Primitives, deal: Option<Contract>, room: string, time: int, sender: string, secret: string)
    ensures Judge(p, deal, Record(room, time, sender, BuildReveal(secret))) == Rejected(SenderMismatch)
  {
    var f := map["type" := Str("reveal")] + map["secret" := Str(secret)];
    FoldDecodesBuilt(f);
    hide DecodeFrame, Canonical, Guard, ValidateFrame;
    assert "from" !in f;
  }

  /** The accept core an agent commits to. */
  function CoreOf(sender: string, ref: string, statement: string, nonce: string): Frame {
    map["from" := Str(sender), "ref" := Str(ref), "statement" := Str(statement), "nonce" := Str(nonce)]
  }

  lemma HexIdShape(digest: string)
    requires IsDigest(digest)
    ensures IsHex32("0x" + digest) && IsStatement("0x" + digest) && IsAscii("0x" + digest)
  {
    var s := "0x" + digest;
    assert s[|s| - 1] == digest[63];
    assert Chomp(s) == s && s[2..] == digest;
    forall i | 0 <= i < |s| ensures s[i] <= '~' {
      if i >= 2 { assert s[i] == digest[i - 2]; }
    }
  }

  lemma PatternsAscii(s: string)
    ensures IsDid(s) || IsNonce(s) || IsHex32(s) ==> IsAscii(s)
  {
    if IsDid(s) || IsNonce(s) || IsHex32(s) {
      var t := Chomp(s);
      forall i | 0 <= i < |s| ensures s[i] <= '~' {
        if i < |t| {
          assert s[i] == t[i];
          if IsNonce(s) {
            assert IsLowerHex(t[i]);
          } else if IsDid(s) {
            if i >= 9 { assert IsBase58(t[9..][i - 9]); } else { assert t[i] == "did:key:z"[i]; }
          } else {
            if i >= 2 { assert IsLowerHex(t[2..][i - 2]); } else { assert t[i] == "0x"[i]; }
          }
        }
      }
    }
  }

  lemma CorePlain(sender: string, ref: string, statement: string, nonce: string)
    requires IsAscii(sender) && IsAscii(ref) && IsAscii(statement) && IsAscii(nonce)
    ensures Plain(Obj(CoreOf(sender, ref, statement, nonce)))
  {
    var m := CoreOf(sender, ref, statement, nonce);
    assert IsAscii("from") && IsAscii("ref") && IsAscii("statement") && IsAscii("nonce");
    forall k | k in m ensures IsAscii(k) && Plain(m[k]) {
      assert k == "from" || k == "ref" || k == "statement" || k == "nonce";
    }
  }

  lemma AcceptFrameValid(p: Primitives, sender: string, ref: string, statement: string, contract: string, nonce: string)
    requires IsDid(sender) && IsHex32(ref) && IsStatement(statement) && IsHex32(contract) && IsNonce(nonce)
    ensures var f := map["type" := Str("accept")] + AcceptFields(sender, ref, statement, contract, nonce);
      ValidateFrame(p, f) == Valid && AcceptCore(f) == CoreOf(sender, ref, statement, nonce)
  {
    hide IsDid, IsHex32, IsStatement, IsNonce, ValidateOffer;
    var f := map["type" := Str("accept")] + AcceptFields(sender, ref, statement, contract, nonce);
    assert f.Keys == RequiredKeys("accept");
  }

  lemma HeartbeatFrameValid(p: Primitives, sender: string, contract: string, nonce: string, note: string)
    requires IsDid(sender) && IsHex32(contract) && IsNonce(nonce)
    ensures ValidateFrame(p, map["type" := Str("heartbeat")] + HeartbeatFields(sender, contract, nonce, note)) == Valid
  {
    hide IsDid, IsHex32, IsStatement, IsNonce, ValidateOffer;
    var f := map["type" := Str("heartbeat")] + HeartbeatFields(sender, contract, nonce, note);
    assert f.Keys == if note == "" then RequiredKeys("heartbeat") else RequiredKeys("heartbeat") + {"note"};
  }

  /** What the agent posts in answer to an open offer. */
  function AgentContract(p: Primitives, offer: Frame, sender: string, seed: seq<byte>, nonce: string): string {
    var ref := StringAt(offer, "id");
    ContractIdOf(p, offer, CoreOf(sender, ref, DerivedHashlock(p, ref, seed).1, nonce))
  }

  function AgentAccept(p: Primitives, offer: Frame, sender: string, seed: seq<byte>, nonce: string): string {
    var ref := StringAt(offer, "id");
    BuildAccept(sender, ref, DerivedHashlock(p, ref, seed).1, AgentContract(p, offer, sender, seed, nonce), nonce)
  }

  /** A hash-lock offer of the paying side, open for someone else to accept. */
  ghost predicate Answerable(p: Primitives, c: Contract, sender: string) {
    Sane(p, c) && c.status == Proposed && c.offerFrom != sender &&
    Get(c.offer, "role") == Str("payer") && Get(c.offer, "lock") == Str("hash") && Plain(Obj(c.offer))
  }

  /** What is used of an id: its shape, and that it is plain text. */
  ghost predicate IdShaped(id: string) {
    IsHex32(id) && IsStatement(id) && IsAscii(id) && "0x" <= id && |id| == 66
  }

  lemma DomainHashShaped(p: Primitives, tag: string, payload: string)
    requires p.Sound()
    ensures IdShaped(DomainHash(p, tag, payload))
  {
    HexIdShape(p.sha256Text(DomainText(tag, payload)));
  }

  lemma HashlockShaped(p: Primitives, ref: string, seed: seq<byte>)
    requires p.Sound()
    ensures IdShaped(DerivedHashlock(p, ref, seed).1)
  {
    HexIdShape(p.sha256Bytes(p.hmac(seed, "tclk/1|claim|" + ref)));
  }

  lemma OpenOfferId(p: Primitives, c: Contract)
    requires p.Sound() && Sane(p, c)
    ensures IdShaped(StringAt(c.offer, "id")) && Get(c.offer, "id") == Str(StringAt(c.offer, "id"))
  {
    OfferRole(p, c.offer) by { ValidFrameType(p, c.offer); }
    hide ValidateFrame, IdShaped, DomainHash;
    DomainHashShaped(p, "offer", Canonical(Obj(c.offer - {"id"}), false));
  }

  lemma AgentPieces(p: Primitives, c: Contract, sender: string, seed: seq<byte>, nonce: string)
    requires p.Sound() && Sane(p, c) && Plain(Obj(c.offer)) && IsDid(sender) && IsNonce(nonce)
    ensures var ref, statement := StringAt(c.offer, "id"), DerivedHashlock(p, StringAt(c.offer, "id"), seed).1;
      IdShaped(ref) && IdShaped(statement) && IdShaped(AgentContract(p, c.offer, sender, seed, nonce)) &&
      Get(c.offer, "id") == Str(ref) &&
      AgentContract(p, c.offer, sender, seed, nonce) == ContractId(p, c.offer, CoreOf(sender, ref, statement, nonce))
  {
    hide Sane, DomainHash, Plain, IsDid, IsNonce, IsHex32, IsStatement, DerivedHashlock, ContractId, IsAscii, CoreOf, ContractText;
    var ref := StringAt(c.offer, "id");
    var statement := DerivedHashlock(p, ref, seed).1;
    var core := CoreOf(sender, ref, statement, nonce);
    OpenOfferId(p, c);
    HashlockShaped(p, ref, seed);
    DomainHashShaped(p, "contract", ContractText(c.offer, core, true));
    PatternsAscii(sender);
    PatternsAscii(nonce);
    CorePlain(sender, ref, statement, nonce);
    ContractIdsAgree(p, c.offer, core);
  }

  lemma AcceptPasses(p: Primitives, c: Contract, f: Frame, now: int)
    requires ValidateFrame(p, f) == Valid && StringAt(f, "type") == "accept" && c.status == Proposed
    requires Get(f, "ref") == Get(c.offer, "id") && StringAt(f, "from") != c.offerFrom && now < Instant(c.offer, "expiresMs")
    requires StringAt(f, "contract") == ContractId(p, c.offer, AcceptCore(f)) && Get(c.offer, "lock") != Str("point")
    ensures Guard(p, c, f, now) == Valid
  {
    hide ValidateFrame, ContractId, AcceptCore;
  }

  lemma HeartbeatPasses(p: Primitives, c: Contract, f: Frame, now: int)
    requires ValidateFrame(p, f) == Valid && StringAt(f, "type") == "heartbeat" && c.status == Accepted
    requires Some(StringAt(f, "contract")) == c.id && Some(StringAt(f, "from")) == c.payee
    ensures Guard(p, c, f, now) == Valid && Effect(c, f) == c
  {
    hide ValidateFrame;
  }

  /** A decoded record of an open contract is judged by its guard once sender and room fit. */
  lemma JudgedByGuard(p: Primitives, c: Contract, r: Record, f: Frame)
    requires DecodeFrame(r.line) == Some(f) && Get(f, "from") == Str(r.sender) && r.room == ExpectedRoom(c, Get(f, "type"))
    ensures Judge(p, Some(c), r) == Guard(p, c, f, r.timeMs) && Advance(Some(c), r) == Some(Effect(c, f))
  {
    hide DecodeFrame, Guard, Effect, ExpectedRoom;
  }

  /** The fold accepts the agent's accept of an open offer that has not expired. */
  lemma AgentAcceptJudged(p: Primitives, c: Contract, sender: string, seed: seq<byte>, nonce: string, time: int)
    requires p.Sound() && Answerable(p, c, sender) && IsDid(sender) && IsNonce(nonce)
    requires time < Instant(c.offer, "expiresMs")
    ensures var r := Record(OFFER_ROOM, time, sender, AgentAccept(p, c.offer, sender, seed, nonce));
      Judge(p, Some(c), r) == Valid &&
      Advance(Some(c), r) == Some(c.(status := Accepted, id := Some(AgentContract(p, c.offer, sender, seed, nonce)),
        statement := Some(DerivedHashlock(p, StringAt(c.offer, "id"), seed).1), payee := Some(sender)))
  {
    hide DecodeFrame, ValidateFrame, Canonical, IsHex32, IsStatement, IsDid, IsNonce, IsAscii, Plain, Sane, Guard, Effect,
      Judge, Advance, AgentContract, DerivedHashlock, ContractId, AcceptCore, CoreOf, DomainHash;
    var ref := StringAt(c.offer, "id");
    var statement, contract := DerivedHashlock(p, ref, seed).1, AgentContract(p, c.offer, sender, seed, nonce);
    var f := map["type" := Str("accept")] + AcceptFields(sender, ref, statement, contract, nonce);
    var r := Record(OFFER_ROOM, time, sender, AgentAccept(p, c.offer, sender, seed, nonce));
    AgentPieces(p, c, sender, seed, nonce);
    AcceptFrameValid(p, sender, ref, statement, contract, nonce);
    FoldDecodesBuilt(f);
    AcceptPasses(p, c, f, time);
    AcceptFacts(p, c, f, time);
    JudgedByGuard(p, c, r, f);
  }

  /** Both sides derive the same deal room from an "0x" id. */
  lemma RoomsAgree(contract: string)
    requires "0x" <= contract
    ensures DealRoomOf(contract) == DealRoom(contract)
  {
    if |contract| >= 18 {
      assert contract[2..][..16] == contract[2..18];
    }
  }

  /** Next, the heartbeat it posts in the derived deal room. */
  lemma AgentHeartbeatJudged(p: Primitives, c: Contract, sender: string, contract: string, nonce: string, note: string, time: int)
    requires c.status == Accepted && c.id == Some(contract) && c.payee == Some(sender)
    requires IdShaped(contract) && IsDid(sender) && IsNonce(nonce)
    ensures var r := Record(DealRoomOf(contract), time, sender, BuildHeartbeat(sender, contract, nonce, note));
      Judge(p, Some(c), r) == Valid && Advance(Some(c), r) == Some(c)
  {
    hide DecodeFrame, ValidateFrame, Canonical, IsHex32, IsStatement, IsAscii, IsDid, IsNonce, Guard, Effect, Judge, Advance,
      DealRoomOf, DealRoom;
    RoomsAgree(contract);
    var f := map["type" := Str("heartbeat")] + HeartbeatFields(sender, contract, nonce, note);
    HeartbeatFrameValid(p, sender, contract, nonce, note);
    FoldDecodesBuilt(f);
    HeartbeatPasses(p, c, f, time);
    JudgedByGuard(p, c, Record(DealRoomOf(contract), time, sender, BuildHeartbeat(sender, contract, nonce, note)), f);
  }

  /** Interoperation: appended to any transcript that leaves a payer-side hash-lock offer of
      another identity open, the agent's accept (before expiry) and its heartbeat are both
      accepted, nothing else changes, and the derived preimage opens the stored statement. */
  lemma AgentInteroperates(p: Primitives, records: seq<Record>, sender: string, seed: seq<byte>, nonce: string,
                           beat: string, note: string, time: int, beatTime: int)
    requires p.Sound() && IsDid(sender) && IsNonce(nonce) && IsNonce(beat)
    requires !Fold(p, records).raised && Fold(p, records).deal.Some?
    requires Answerable(p, Fold(p, records).deal.value, sender)
    requires time < Instant(Fold(p, records).deal.value.offer, "expiresMs")
    ensures var before := Fold(p, records);
      var c := before.deal.value;
      var contract := AgentContract(p, c.offer, sender, seed, nonce);
      var (preimage, statement) := DerivedHashlock(p, StringAt(c.offer, "id"), seed);
      var accept := Record(OFFER_ROOM, time, sender, AgentAccept(p, c.offer, sender, seed, nonce));
      var heartbeat := Record(DealRoomOf(contract), beatTime, sender, BuildHeartbeat(sender, contract, beat, note));
      var after := Fold(p, records + [accept] + [heartbeat]);
      after.deal == Some(c.(status := Accepted, id := Some(contract), statement := Some(statement), payee := Some(sender))) &&
      after.rejections == before.rejections && !after.raised && |after.accepted| == |before.accepted| + 2 &&
      VerifyPreimage(p, statement, preimage)
  {
    var c := Fold(p, records).deal.value;
    var contract := AgentContract(p, c.offer, sender, seed, nonce);
    var accept := Record(OFFER_ROOM, time, sender, AgentAccept(p, c.offer, sender, seed, nonce));
    var heartbeat := Record(DealRoomOf(contract), beatTime, sender, BuildHeartbeat(sender, contract, beat, note));
    AgentPieces(p, c, sender, seed, nonce);
    AgentAcceptJudged(p, c, sender, seed, nonce, time);
    AgentHeartbeatJudged(p, Advance(Some(c), accept).value, sender, contract, beat, note, beatTime);
    HashlockOpens(p, StringAt(c.offer, "id"), seed);
    hide Judge, Advance, AgentContract, AgentAccept, BuildHeartbeat, DealRoomOf, DerivedHashlock, VerifyPreimage,
      IsHex32, IsStatement, IsDid, IsNonce, Answerable;
    FoldSnoc(p, records, accept);
    FoldSnoc(p, records + [accept], heartbeat);
  }

  lemma HashlockOpens(p: Primitives, offerId: string, seed: seq<byte>)
    requires p.Sound()
    ensures var (preimage, statement) := DerivedHashlock(p, offerId, seed); VerifyPreimage(p, statement, preimage)
  {
    var raw := p.hmac(seed, "tclk/1|claim|" + offerId);
    var (preimage, statement) := DerivedHashlock(p, offerId, seed);
    HexRoundTrip(raw);
    assert preimage[2..] == ToHex(raw);
    assert IsDigest(p.sha256Bytes(raw));
    LowerOfHex(p.sha256Bytes(raw));
  }

  lemma LowerOfHex(digest: string)
    requires IsDigest(digest)
    ensures Lower("0x" + digest) == "0x" + digest
  {
    var s := "0x" + digest;
    forall i | 0 <= i < |s| ensures LowerChar(s[i]) == s[i] {
      if i >= 2 { assert s[i] == digest[i - 2]; }
    }
  }
}
