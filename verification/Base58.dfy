/** Base58 text and the Ed25519 account keys of did:key identifiers. */
module Base58 {
  import opened Text
  import opened Numerals

  const DIGIT_CHARS := "123456789"
  const UPPER_CHARS := "ABCDEFGHJKLMNPQRSTUVWXYZ"
  const LOWER_CHARS := "abcdefghijkmnopqrstuvwxyz"
  const ALPHABET := DIGIT_CHARS + UPPER_CHARS + LOWER_CHARS

  /** `str.find` of one character. */
  function Find(s: string, c: char): (i: int)
    ensures -1 <= i < |s|
    ensures i >= 0 ==> s[i] == c
    ensures i == -1 <==> c !in s
  {
    if s == "" then -1
    else if s[0] == c then 0
    else var i := Find(s[1..], c); if i < 0 then -1 else i + 1
  }

  predicate Alphabetic(text: string) {
    forall i :: 0 <= i < |text| ==> text[i] in ALPHABET
  }

  function Indices(text: string): (digits: seq<nat>)
    requires Alphabetic(text)
    ensures |digits| == |text| && AllBelow(digits, 58)
    ensures forall i :: 0 <= i < |text| ==> ALPHABET[digits[i]] == text[i]
  {
    seq(|text|, i requires 0 <= i < |text| => Find(ALPHABET, text[i]) as nat)
  }

  function Chars(digits: seq<nat>): (text: string)
    requires AllBelow(digits, 58)
    ensures |text| == |digits| && Alphabetic(text)
    ensures forall i :: 0 <= i < |digits| ==> text[i] == ALPHABET[digits[i]]
  {
    seq(|digits|, i requires 0 <= i < |digits| => ALPHABET[digits[i]])
  }

  function Ints(data: seq<byte>): (digits: seq<nat>)
    ensures |digits| == |data| && AllBelow(digits, 256)
    ensures forall i :: 0 <= i < |data| ==> digits[i] == data[i] as nat
  {
    seq(|data|, i requires 0 <= i < |data| => data[i] as nat)
  }

  function Bytes(digits: seq<nat>): (data: seq<byte>)
    requires AllBelow(digits, 256)
    ensures |data| == |digits|
    ensures forall i :: 0 <= i < |digits| ==> data[i] as nat == digits[i]
  {
    seq(|digits|, i requires 0 <= i < |digits| => digits[i] as byte)
  }

  /** `len(s) - len(s.lstrip(x))`. */
  function LeadingRun<T(==)>(s: seq<T>, x: T): nat {
    if s != [] && s[0] == x then 1 + LeadingRun(s[1..], x) else 0
  }

  // ----- what the codec means

  function Encoded(data: seq<byte>): string {
    Chars(Transcode(Ints(data), 256, 58))
  }

  function Decoded(text: string): Option<seq<byte>> {
    if Alphabetic(text) then Some(Bytes(Transcode(Indices(text), 58, 256))) else None
  }

  lemma AlphabetSize()
    ensures |ALPHABET| == 58
  {
  }

  lemma UpperRises(i: nat)
    requires i < 24
    ensures 'A' <= UPPER_CHARS[i] <= 'Z' && (i < 23 ==> UPPER_CHARS[i] < UPPER_CHARS[i + 1])
  {
  }

  lemma LowerRises(i: nat)
    requires i < 25
    ensures 'a' <= LOWER_CHARS[i] <= 'z' && (i < 24 ==> LOWER_CHARS[i] < LOWER_CHARS[i + 1])
  {
  }

  /** No character occurs twice in the alphabet: it is in code point order. */
  lemma AlphabetRises(i: nat)
    requires i < 57
    ensures ALPHABET[i] < ALPHABET[i + 1]
  {
    if i < 9 {
      UpperRises(0);
    } else if i < 33 {
      UpperRises(i - 9);
      LowerRises(0);
      assert ALPHABET[i] == UPPER_CHARS[i - 9];
      assert i < 32 ==> ALPHABET[i + 1] == UPPER_CHARS[i - 9 + 1];
    } else {
      LowerRises(i - 33);
    }
  }

  lemma {:induction false} AlphabetOrdered(i: nat, j: nat)
    requires i < j < 58
    ensures ALPHABET[i] < ALPHABET[j]
    decreases j - i
  {
    hide DIGIT_CHARS, UPPER_CHARS, LOWER_CHARS;
    AlphabetRises(i);
    if i + 1 < j {
      AlphabetOrdered(i + 1, j);
    }
  }

  /** The alphabet is the digits and letters without zero, capital I, capital O and small l; with
      the order above that fixes the value of each character. */
  lemma AlphabetExactly(c: char)
    ensures |ALPHABET| == 58
    ensures c in ALPHABET <==>
      ('0' <= c <= '9' || 'A' <= c <= 'Z' || 'a' <= c <= 'z') && c != '0' && c != 'I' && c != 'O' && c != 'l'
  {
    UpperExactly(c);
    LowerExactly(c);
  }

  lemma UpperExactly(c: char)
    ensures c in UPPER_CHARS <==> 'A' <= c <= 'Z' && c != 'I' && c != 'O'
  {
  }

  lemma LowerExactly(c: char)
    ensures c in LOWER_CHARS <==> 'a' <= c <= 'z' && c != 'l'
  {
  }

  lemma IndicesOfChars(digits: seq<nat>)
    requires AllBelow(digits, 58)
    ensures Indices(Chars(digits)) == digits
  {
    hide ALPHABET;
    var back := Indices(Chars(digits));
    forall i | 0 <= i < |digits| ensures back[i] == digits[i] {
      if back[i] < digits[i] {
        AlphabetOrdered(back[i], digits[i]);
      } else if back[i] > digits[i] {
        AlphabetOrdered(digits[i], back[i]);
      }
    }
  }

  /** Decoding undoes encoding, for every byte string. */
  lemma DecodeEncode(data: seq<byte>)
    ensures Decoded(Encoded(data)) == Some(data)
  {
    hide ALPHABET, Transcode;
    IndicesOfChars(Transcode(Ints(data), 256, 58));
    TranscodeInverse(Ints(data), 256, 58);
    assert Bytes(Ints(data)) == data;
  }

  /** Encoding undoes decoding, for every text over the alphabet. */
  lemma EncodeDecode(text: string)
    requires Alphabetic(text)
    ensures Encoded(Decoded(text).value) == text
  {
    hide ALPHABET, Transcode;
    var digits := Transcode(Indices(text), 58, 256);
    assert Ints(Bytes(digits)) == digits;
    TranscodeInverse(Indices(text), 58, 256);
    assert Chars(Indices(text)) == text;
  }

  /** The text of some bytes is their number in base 58, with a leading one for each leading zero byte. */
  lemma EncodedMeans(data: seq<byte>)
    ensures Alphabetic(Encoded(data)) && Value(Indices(Encoded(data)), 58) == Value(Ints(data), 256)
    ensures LeadingZeros(Indices(Encoded(data))) == LeadingZeros(Ints(data))
    ensures var rest := Indices(Encoded(data))[LeadingZeros(Ints(data))..]; rest == [] || rest[0] > 0
  {
    hide ALPHABET, Value, Digits;
    var digits := Transcode(Ints(data), 256, 58);
    IndicesOfChars(digits);
    ValueOfZeros(LeadingZeros(Ints(data)), Digits(Value(Ints(data), 256), 58), 58);
    ValueOfDigits(Value(Ints(data), 256), 58);
    LeadingZerosOf(LeadingZeros(Ints(data)), Digits(Value(Ints(data), 256), 58));
  }

  // ----- the loops

  lemma {:induction false} RunOfZeros(data: seq<byte>)
    ensures LeadingRun(data, 0) == LeadingZeros(Ints(data))
  {
    if data != [] {
      RunOfZeros(data[1..]);
      assert Ints(data)[1..] == Ints(data[1..]);
    }
  }

  lemma OneIsZero()
    ensures ALPHABET[0] == '1' && Find(ALPHABET, '1') == 0
  {
  }

  lemma {:induction false} RunOfOnes(text: string)
    requires Alphabetic(text)
    ensures LeadingRun(text, '1') == LeadingZeros(Indices(text))
  {
    hide ALPHABET;
    OneIsZero();
    if text != "" {
      RunOfOnes(text[1..]);
      assert Indices(text)[1..] == Indices(text[1..]);
    }
  }

  method Decode(text: string) returns (r: Option<seq<byte>>)
    ensures r == Decoded(text)
  {
    hide ALPHABET, Push, Digits, Find;
    var number, i := 0, 0;
    while i < |text|
      invariant 0 <= i <= |text|
      invariant Alphabetic(text[..i])
      invariant number == Value(Indices(text[..i]), 58)
    {
      var index := Find(ALPHABET, text[i]);
      if index < 0 {
        return None;
      }
      ghost var shorter := Indices(text[..i]);
      assert text[..i + 1] == text[..i] + [text[i]];
      assert Indices(text[..i + 1]) == shorter + [index];
      assert (shorter + [index])[..|shorter|] == shorter;
      number := Push(number, 58, index);
      i := i + 1;
    }
    assert text[..i] == text;
    ByteLength(number);
    var raw := ToBytes(number, (BitLength(number) + 7) / 8);
    var pad := LeadingRun(text, '1');
    RunOfOnes(text);
    r := Some(Bytes(Zeros(pad) + raw.value));
  }

  method Encode(data: seq<byte>) returns (text: string)
    ensures text == Encoded(data)
  {
    hide DIGIT_CHARS, UPPER_CHARS, LOWER_CHARS, ALPHABET, Value;
    AlphabetSize();
    ghost var whole := Value(Ints(data), 256);
    var number := Value(Ints(data), 256);
    text := "";
    ghost var digits: seq<nat> := [];
    while number != 0
      invariant AllBelow(digits, 58) && text == Chars(digits)
      invariant Digits(whole, 58) == Digits(number, 58) + digits
    {
      var rem := number % 58;
      digits := [rem] + digits;
      text := [ALPHABET[rem]] + text;
      number := number / 58;
    }
    var pad := LeadingRun(data, 0);
    RunOfZeros(data);
    text := Chars(Zeros(pad)) + text;
  }

  // ----- account keys

  datatype Account = Key(key: seq<byte>) | NotDidKey | InvalidCharacter | NotEd25519 | WrongLength(length: nat)

  const SCHEME := "did:key:z"
  const ED25519: seq<byte> := [0xed, 0x01]

  method DidToAccount(did: string) returns (r: Account)
    ensures r == AccountOf(did)
  {
    if !(SCHEME <= did) {
      return NotDidKey;
    }
    var decoded := Decode(did[|SCHEME|..]);
    if decoded == None {
      return InvalidCharacter;
    }
    if !(ED25519 <= decoded.value) {
      return NotEd25519;
    }
    var key := decoded.value[|ED25519|..];
    if |key| != 32 {
      return WrongLength(|key|);
    }
    return Key(key);
  }

  function AccountOf(did: string): Account {
    if !(SCHEME <= did) then NotDidKey
    else
      match Decoded(did[|SCHEME|..])
      case None => InvalidCharacter
      case Some(raw) =>
        if !(ED25519 <= raw) then NotEd25519
        else if |raw| != 34 then WrongLength(|raw| - 2)
        else Key(raw[2..])
  }

  /** The did:key of an Ed25519 public key. */
  function DidOf(key: seq<byte>): string {
    SCHEME + Encoded(ED25519 + key)
  }

  /** A did is accepted for a key exactly when it is the did of that 32-byte key. */
  lemma AccountExactly(did: string, key: seq<byte>)
    ensures AccountOf(did) == Key(key) <==> |key| == 32 && did == DidOf(key)
    ensures DidOf(key) == "did:key:z" + Encoded([0xed, 0x01] + key)
  {
    hide Decoded, Encoded, Alphabetic;
    DecodeEncode(ED25519 + key);
    assert DidOf(key)[|SCHEME|..] == Encoded(ED25519 + key);
    if AccountOf(did) == Key(key) {
      var body := did[|SCHEME|..];
      DecodedAlphabetic(body);
      EncodeDecode(body);
      assert Decoded(body).value == ED25519 + key;
      assert did == SCHEME + body;
    }
  }

  lemma DecodedAlphabetic(text: string)
    ensures Alphabetic(text) <==> Decoded(text).Some?
  {
  }
}
