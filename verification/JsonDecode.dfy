/** The part of `json.loads` that reads float-free text, and its inversion of the
    canonical printer. Section numbers are those of RFC 8259. */
module JsonDecode {
  import opened Json
  import opened Text

  /** A value read from the front of a text, with the text that follows it. */
  datatype Parsed<+T> = Fail | Got(value: T, rest: string)

  predicate IsWs(c: char) {
    c == ' ' || c == '\t' || c == '\n' || c == '\r'
  }

  function SkipWs(s: string): (r: string)
    ensures |r| <= |s|
  {
    if s != "" && IsWs(s[0]) then SkipWs(s[1..]) else s
  }

  predicate IsDigit(c: char) {
    '0' <= c <= '9'
  }

  /** Value of the four hexadecimal digits at the front, or 0x10000 when they are not there. */
  function Hex4Value(s: string): (n: nat)
    ensures n <= 0x10000
  {
    if |s| < 4 then 0x10000
    else
      var a, b, c, d := HexDigit(s[0]), HexDigit(s[1]), HexDigit(s[2]), HexDigit(s[3]);
      if a < 16 && b < 16 && c < 16 && d < 16 then 0x1000 * a + 0x100 * b + 0x10 * c + d else 0x10000
  }

  /** After a backslash and 'u'. Unpaired surrogates have no scalar value and fail. */
  function UnicodeEscape(s: string): (p: Parsed<char>)
    ensures p.Got? ==> |p.rest| < |s|
  {
    var n := Hex4Value(s);
    if n < 0xD800 || 0xE000 <= n < 0x10000 then Got(n as char, s[4..])
    else if n < 0xDC00 && |s| >= 10 && s[4] == '\\' && s[5] == 'u' then
      var m := Hex4Value(s[6..]);
      if 0xDC00 <= m < 0xE000 then Got((0x10000 + (n - 0xD800) * 0x400 + (m - 0xDC00)) as char, s[10..])
      else Fail
    else Fail
  }

  /** After a backslash (section 7). */
  function Unescape(s: string): (p: Parsed<char>)
    ensures p.Got? ==> |p.rest| < |s|
  {
    if s == "" then Fail
    else
      var rest := s[1..];
      match s[0]
      case '"' => Got('"', rest)
      case '\\' => Got('\\', rest)
      case '/' => Got('/', rest)
      case 'b' => Got(8 as char, rest)
      case 'f' => Got(12 as char, rest)
      case 'n' => Got('\n', rest)
      case 'r' => Got('\r', rest)
      case 't' => Got('\t', rest)
      case 'u' => UnicodeEscape(rest)
      case _ => Fail
  }

  function Prepend(c: char, p: Parsed<string>): Parsed<string> {
    match p
    case Fail => Fail
    case Got(t, rest) => Got([c] + t, rest)
  }

  /** After an opening quote. */
  function ParseString(s: string): (p: Parsed<string>)
    ensures p.Got? ==> |p.rest| < |s|
    decreases |s|
  {
    if s == "" then Fail
    else if s[0] == '"' then Got("", s[1..])
    else if s[0] == '\\' then
      match Unescape(s[1..])
      case Fail => Fail
      case Got(c, rest) => Prepend(c, ParseString(rest))
    else if s[0] < ' ' then Fail
    else Prepend(s[0], ParseString(s[1..]))
  }

  function ReadDigits(s: string, acc: nat): (p: (nat, string))
    ensures |p.1| <= |s|
  {
    if s != "" && IsDigit(s[0]) then ReadDigits(s[1..], 10 * acc + (s[0] as int - '0' as int))
    else (acc, s)
  }

  /** Magnitude of an integer (section 6): no leading zeros. */
  function ParseNat(s: string): (p: Parsed<nat>)
    ensures p.Got? ==> |p.rest| < |s|
  {
    if s == "" || !IsDigit(s[0]) then Fail
    else if s[0] == '0' then Got(0, s[1..])
    else
      var (n, rest) := ReadDigits(s[1..], s[0] as int - '0' as int);
      Got(n, rest)
  }

  /** An integer; a fraction or an exponent would make it a float. */
  function ParseInt(s: string): (p: Parsed<int>)
    ensures p.Got? ==> |p.rest| < |s|
  {
    var negative := s != "" && s[0] == '-';
    match ParseNat(if negative then s[1..] else s)
    case Fail => Fail
    case Got(n, rest) =>
      if rest != "" && (rest[0] == '.' || rest[0] == 'e' || rest[0] == 'E') then Fail
      else
        var m: int := n;
        Got(if negative then -m else m, rest)
  }

  function ParseValue(s: string): (p: Parsed<Json>)
    ensures p.Got? ==> |p.rest| < |s|
    decreases |s|, 0
  {
    if s == "" then Fail
    else if s[0] == '"' then
      match ParseString(s[1..])
      case Fail => Fail
      case Got(t, rest) => Got(Str(t), rest)
    else if s[0] == '[' then
      var t := SkipWs(s[1..]);
      if t != "" && t[0] == ']' then Got(Arr([]), t[1..])
      else
        match ParseElements(t)
        case Fail => Fail
        case Got(elems, rest) => Got(Arr(elems), rest)
    else if s[0] == '{' then
      var t := SkipWs(s[1..]);
      if t != "" && t[0] == '}' then Got(Obj(map[]), t[1..])
      else
        match ParseMembers(t, map[])
        case Fail => Fail
        case Got(fields, rest) => Got(Obj(fields), rest)
    else if "null" <= s then Got(Null, s[4..])
    else if "true" <= s then Got(Bool(true), s[4..])
    else if "false" <= s then Got(Bool(false), s[5..])
    else
      match ParseInt(s)
      case Fail => Fail
      case Got(n, rest) => Got(Int(n), rest)
  }

  /** A non-empty list of values up to and including the closing bracket. */
  function ParseElements(s: string): (p: Parsed<seq<Json>>)
    ensures p.Got? ==> |p.rest| < |s|
    decreases |s|, 1
  {
    match ParseValue(s)
    case Fail => Fail
    case Got(v, rest) =>
      var t := SkipWs(rest);
      if t == "" then Fail
      else if t[0] == ']' then Got([v], t[1..])
      else if t[0] == ',' then
        match ParseElements(SkipWs(t[1..]))
        case Fail => Fail
        case Got(vs, rest') => Got([v] + vs, rest')
      else Fail
  }

  /** A non-empty list of members up to and including the closing brace; the last of
      several equal keys wins. */
  function ParseMembers(s: string, acc: map<string, Json>): (p: Parsed<map<string, Json>>)
    ensures p.Got? ==> |p.rest| < |s|
    decreases |s|, 1
  {
    if s == "" || s[0] != '"' then Fail
    else
      match ParseString(s[1..])
      case Fail => Fail
      case Got(k, afterKey) =>
        var t := SkipWs(afterKey);
        if t == "" || t[0] != ':' then Fail
        else
          match ParseValue(SkipWs(t[1..]))
          case Fail => Fail
          case Got(v, afterValue) =>
            var u := SkipWs(afterValue);
            if u == "" then Fail
            else if u[0] == '}' then Got(acc[k := v], u[1..])
            else if u[0] == ',' then ParseMembers(SkipWs(u[1..]), acc[k := v])
            else Fail
  }

  /** `json.loads` of a float-free text: one value and nothing but whitespace around it. */
  function Decode(s: string): Parsed<Json> {
    match ParseValue(SkipWs(s))
    case Fail => Fail
    case Got(v, rest) => if SkipWs(rest) == "" then Got(v, "") else Fail
  }

  // --- The printer is inverted ---

  /** A text after which no number could have gone on. */
  predicate Stops(rest: string) {
    rest != "" ==> rest[0] == ',' || rest[0] == ']' || rest[0] == '}'
  }

  lemma Nibbles(n: nat)
    requires n < 0x10000
    ensures n / 0x1000 < 16
    ensures 0x1000 * (n / 0x1000) + 0x100 * (n / 0x100 % 16) + 0x10 * (n / 0x10 % 16) + n % 16 == n
  {
    assert n / 0x100 == n / 0x10 / 16 && n / 0x1000 == n / 0x100 / 16;
  }

  lemma Hex4RoundTrip(n: nat, rest: string)
    requires n < 0x10000
    ensures Hex4Value(Hex4(n) + rest) == n
  {
    Nibbles(n);
    HexDigitInverse(n / 0x1000);
    HexDigitInverse(n / 0x100 % 16);
    HexDigitInverse(n / 0x10 % 16);
    HexDigitInverse(n % 16);
    hide HexDigit, HEX_DIGITS;
    var s := Hex4(n) + rest;
    assert s[0] == Hex4(n)[0] && s[1] == Hex4(n)[1] && s[2] == Hex4(n)[2] && s[3] == Hex4(n)[3];
  }

  lemma BackslashRead(body: string, c: char, rest: string)
    requires Unescape(body + rest) == Got(c, rest)
    ensures ParseString("\\" + body + rest) == Prepend(c, ParseString(rest))
  {
    hide Unescape;
    assert ("\\" + body + rest)[1..] == body + rest;
  }

  lemma LetterRead(letter: char, c: char, rest: string)
    requires forall r: string :: Unescape([letter] + r) == Got(c, ([letter] + r)[1..])
    ensures ParseString("\\" + [letter] + rest) == Prepend(c, ParseString(rest))
  {
    assert ([letter] + rest)[1..] == rest;
    BackslashRead([letter], c, rest);
  }

  lemma UnicodeRead(body: string, c: char, rest: string)
    requires UnicodeEscape(body + rest) == Got(c, rest)
    ensures ParseString("\\" + ("u" + body) + rest) == Prepend(c, ParseString(rest))
  {
    hide UnicodeEscape;
    assert "u" + body + rest == "u" + (body + rest);
    assert ("u" + (body + rest))[1..] == body + rest;
    BackslashRead("u" + body, c, rest);
  }

  lemma BasicRead(n: nat, rest: string)
    requires n < 0xD800 || 0xE000 <= n < 0x10000
    ensures UnicodeEscape(Hex4(n) + rest) == Got(n as char, rest)
  {
    Hex4RoundTrip(n, rest);
    assert (Hex4(n) + rest)[4..] == rest;
  }

  lemma EscapeRead(c: char, ascii: bool, rest: string)
    ensures ParseString(EscapeChar(c, ascii) + rest) == Prepend(c, ParseString(rest))
  {
    hide ParseString, UnicodeEscape, Hex4;
    var n := c as int;
    if c == '"' {
      LetterRead('"', c, rest);
      assert EscapeChar(c, ascii) == "\\" + ['"'];
    } else if c == '\\' {
      LetterRead('\\', c, rest);
      assert EscapeChar(c, ascii) == "\\" + ['\\'];
    } else if c == '\n' {
      LetterRead('n', c, rest);
      assert EscapeChar(c, ascii) == "\\" + ['n'];
    } else if c == '\r' {
      LetterRead('r', c, rest);
      assert EscapeChar(c, ascii) == "\\" + ['r'];
    } else if c == '\t' {
      LetterRead('t', c, rest);
      assert EscapeChar(c, ascii) == "\\" + ['t'];
    } else if n == 12 {
      LetterRead('f', c, rest);
      assert EscapeChar(c, ascii) == "\\" + ['f'];
    } else if n == 8 {
      LetterRead('b', c, rest);
      assert EscapeChar(c, ascii) == "\\" + ['b'];
    } else if c < ' ' || (ascii && c > '~') {
      if n < 0x10000 {
        BasicRead(n, rest);
        UnicodeRead(Hex4(n), c, rest);
        assert "\\u" + Hex4(n) == "\\" + ("u" + Hex4(n));
      } else {
        PairRead(n, rest);
        var hi, lo := Hex4(0xD800 + (n - 0x10000) / 0x400), Hex4(0xDC00 + (n - 0x10000) % 0x400);
        UnicodeRead(hi + ("\\u" + lo), c, rest);
        assert "\\u" + hi + "\\u" + lo == "\\" + ("u" + (hi + ("\\u" + lo)));
      }
    } else {
      PlainRead(c, rest);
    }
  }

  lemma PlainRead(c: char, rest: string)
    requires c != '"' && c != '\\' && c >= ' '
    ensures ParseString([c] + rest) == Prepend(c, ParseString(rest))
  {
    assert ([c] + rest)[1..] == rest;
  }

  lemma PairRead(n: nat, rest: string)
    requires 0x10000 <= n < 0x110000
    ensures UnicodeEscape(Hex4(0xD800 + (n - 0x10000) / 0x400) + ("\\u" + Hex4(0xDC00 + (n - 0x10000) % 0x400)) + rest)
         == Got(n as char, rest)
  {
    hide Hex4, Hex4Value;
    var h, l := 0xD800 + (n - 0x10000) / 0x400, 0xDC00 + (n - 0x10000) % 0x400;
    var s := Hex4(h) + ("\\u" + Hex4(l)) + rest;
    assert s == Hex4(h) + ("\\u" + Hex4(l) + rest);
    Hex4RoundTrip(h, "\\u" + Hex4(l) + rest);
    assert s[6..] == Hex4(l) + rest;
    Hex4RoundTrip(l, rest);
    assert s[10..] == rest;
  }

  lemma QuoteRead(rest: string)
    ensures ParseString("\"" + rest) == Got("", rest)
  {
    assert ("\"" + rest)[1..] == rest;
  }

  lemma {:induction false} StringRoundTrip(t: string, ascii: bool, rest: string)
    ensures ParseString(Escape(t, ascii) + ("\"" + rest)) == Got(t, rest)
  {
    hide ParseString, EscapeChar;
    if t == "" {
      assert Escape(t, ascii) + ("\"" + rest) == "\"" + rest;
      QuoteRead(rest);
    } else {
      var tail := Escape(t[1..], ascii) + ("\"" + rest);
      StringRoundTrip(t[1..], ascii, rest);
      EscapeRead(t[0], ascii, tail);
      assert Escape(t, ascii) + ("\"" + rest) == EscapeChar(t[0], ascii) + tail;
      assert [t[0]] + t[1..] == t;
    }
  }

  lemma {:induction false} DecimalShape(n: nat)
    ensures IsDigit(Decimal(n)[0]) && (n > 0 ==> Decimal(n)[0] != '0')
  {
    if n >= 10 {
      DecimalShape(n / 10);
    }
  }

  lemma {:induction false} DecimalRead(n: nat, tail: string)
    ensures ReadDigits(Decimal(n) + tail, 0) == ReadDigits(tail, n)
  {
    if n < 10 {
      assert (Decimal(n) + tail)[1..] == tail;
    } else {
      var d := [DigitChar(n % 10)];
      assert Decimal(n) + tail == Decimal(n / 10) + (d + tail);
      DecimalRead(n / 10, d + tail);
      assert (d + tail)[1..] == tail;
    }
  }

  lemma NatRoundTrip(n: nat, rest: string)
    requires Stops(rest)
    ensures ParseNat(Decimal(n) + rest) == Got(n, rest)
  {
    var s := Decimal(n) + rest;
    DecimalShape(n);
    DecimalRead(n, rest);
    if n == 0 {
      assert s[1..] == rest;
    }
  }

  lemma IntRoundTrip(n: int, rest: string)
    requires Stops(rest)
    ensures ParseInt(IntText(n) + rest) == Got(n, rest)
    ensures IntText(n) != "" && (IntText(n)[0] == '-' || IsDigit(IntText(n)[0]))
  {
    hide Decimal, ParseNat;
    if n < 0 {
      DecimalShape(-n);
      assert (IntText(n) + rest)[1..] == Decimal(-n) + rest;
      NatRoundTrip(-n, rest);
    } else {
      DecimalShape(n);
      NatRoundTrip(n, rest);
    }
  }

  /** Canonical texts start with a character that opens a value. */
  lemma FirstChar(v: Json, ascii: bool)
    ensures Canonical(v, ascii) != ""
    ensures var c := Canonical(v, ascii)[0]; !IsWs(c) && c != ']' && c != '}'
  {
    if v.Int? {
      IntRoundTrip(v.n, "");
    }
  }

  /** The members listed by keys, added to acc from left to right. */
  ghost function Collected(acc: map<string, Json>, fields: map<string, Json>, keys: seq<string>): map<string, Json>
    requires forall k :: k in keys ==> k in fields
    decreases |keys|
  {
    if keys == [] then acc else Collected(acc[keys[0] := fields[keys[0]]], fields, keys[1..])
  }

  lemma {:induction false} CollectedContents(acc: map<string, Json>, fields: map<string, Json>, keys: seq<string>)
    requires forall k :: k in keys ==> k in fields
    ensures forall k :: k in Collected(acc, fields, keys) <==> k in acc || k in keys
    ensures forall k :: k in keys ==> Collected(acc, fields, keys)[k] == fields[k]
    ensures forall k :: k in acc && k !in keys ==> Collected(acc, fields, keys)[k] == acc[k]
    decreases |keys|
  {
    if keys != [] {
      CollectedContents(acc[keys[0] := fields[keys[0]]], fields, keys[1..]);
      assert forall k :: k in keys <==> k == keys[0] || k in keys[1..];
    }
  }

  lemma AllCollected(fields: map<string, Json>)
    ensures Collected(map[], fields, SortedKeys(fields.Keys)) == fields
  {
    CollectedContents(map[], fields, SortedKeys(fields.Keys));
  }
}
