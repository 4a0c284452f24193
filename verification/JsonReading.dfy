/** The decoder reads exactly the JSON texts of RFC 8259 whose numbers are integers and whose
    surrogates are paired, whatever their whitespace and escapes, and reads them as what they mean. */
module JsonReading {
  import opened Text
  import opened Json
  import opened JsonDecode
  import JsonSyntax

  // --- What a text means ---

  /** The number four hexadecimal digits stand for. */
  function Quad(e: string): nat
    requires |e| == 5
  {
    4096 * HexDigit(e[1]) + 256 * HexDigit(e[2]) + 16 * HexDigit(e[3]) + HexDigit(e[4])
  }

  predicate IsQuad(u: JsonSyntax.Unit) {
    u.Escaped? && |u.text| == 5 && u.text[0] == 'u'
  }

  /** The character of a unit that is no \u escape. */
  function SimpleChar(u: JsonSyntax.Unit): char {
    match u
    case Plain(c) => c
    case Escaped(e) =>
      match e
      case "b" => 8 as char
      case "f" => 12 as char
      case "n" => 10 as char
      case "r" => 13 as char
      case "t" => 9 as char
      case _ => if e == "" then ' ' else e[0]
  }

  /** The characters of a string; None when a surrogate stands alone. */
  function Chars(units: seq<JsonSyntax.Unit>): Option<string>
    requires JsonSyntax.ValidUnits(units)
    decreases |units|
  {
    if units == [] then Some("")
    else
      var u := units[0];
      if !IsQuad(u) then Put(SimpleChar(u), Chars(Rest(units, 1)))
      else
        QuadValid(u);
        var n := Quad(u.text);
        if n < 0xD800 || 0xE000 <= n then Put(n as char, Chars(Rest(units, 1)))
        else if n < 0xDC00 && |units| > 1 && IsQuad(units[1]) && 0xDC00 <= Quad(units[1].text) < 0xE000 then
          Put((0x10000 + (n - 0xD800) * 0x400 + (Quad(units[1].text) - 0xDC00)) as char, Chars(Rest(units, 2)))
        else None
  }

  function Rest(units: seq<JsonSyntax.Unit>, n: nat): (rest: seq<JsonSyntax.Unit>)
    requires n <= |units| && JsonSyntax.ValidUnits(units)
    ensures JsonSyntax.ValidUnits(rest) && rest == units[n..]
  {
    units[n..]
  }

  lemma QuadValid(u: JsonSyntax.Unit)
    requires JsonSyntax.ValidUnit(u) && IsQuad(u)
    ensures Quad(u.text) < 0x10000
  {
    var e := u.text;
    assert HexDigit(e[1]) < 16 && HexDigit(e[2]) < 16 && HexDigit(e[3]) < 16 && HexDigit(e[4]) < 16;
    hide HexDigit;
  }

  function Put(c: char, t: Option<string>): Option<string> {
    match t
    case None => None
    case Some(s) => Some([c] + s)
  }

  predicate Numeral(digits: string) {
    forall i :: 0 <= i < |digits| ==> '0' <= digits[i] <= '9'
  }

  /** The number a numeral stands for. */
  function ValueOf(digits: string): nat
    requires Numeral(digits)
  {
    if digits == "" then 0
    else
      var d := digits[|digits| - 1];
      10 * ValueOf(digits[..|digits| - 1]) + (d as int - '0' as int)
  }

  /** The value of a text; None for numbers with fraction or exponent and for lone surrogates. */
  function Meaning(v: JsonSyntax.Node): Option<Json>
    requires JsonSyntax.Valid(v)
  {
    match v
    case Literal(name) => Some(if name == "null" then Null else Bool(name == "true"))
    case Number(negative, whole, fraction, exponent) =>
      if fraction != None || exponent != None then None
      else
        var n: int := ValueOf(whole);
        Some(Int(if negative then -n else n))
    case Str(units) => (match Chars(units) case None => None case Some(s) => Some(Str(s)))
    case Arr(_, items) => (match ItemsMean(items) case None => None case Some(vs) => Some(Arr(vs)))
    case Obj(_, members) => (match MembersMean(members, map[]) case None => None case Some(m) => Some(Obj(m)))
  }

  function ItemsMean(items: JsonSyntax.Items): Option<seq<Json>>
    requires JsonSyntax.ValidItems(items)
  {
    match items
    case NoItems => Some([])
    case Item(_, value, _, rest) =>
      match Meaning(value)
      case None => None
      case Some(v) => (match ItemsMean(rest) case None => None case Some(vs) => Some([v] + vs))
  }

  /** The last of several equal keys wins. */
  function MembersMean(members: JsonSyntax.Members, acc: map<string, Json>): Option<map<string, Json>>
    requires JsonSyntax.ValidMembers(members)
  {
    match members
    case NoMembers => Some(acc)
    case Member(_, key, _, _, value, _, rest) =>
      match Chars(key)
      case None => None
      case Some(k) => (match Meaning(value) case None => None case Some(v) => MembersMean(rest, acc[k := v]))
  }

  // --- Whitespace ---

  lemma {:induction false} SkipBlank(w: string, s: string)
    requires JsonSyntax.IsWhitespace(w)
    ensures SkipWs(w + s) == SkipWs(s)
    decreases |w|
  {
    if w == "" {
      assert w + s == s;
    } else {
      SkipBlank(w[1..], s);
      assert (w + s)[1..] == w[1..] + s;
    }
  }

  lemma {:induction false} BlankSkipped(s: string) returns (w: string)
    ensures JsonSyntax.IsWhitespace(w) && s == w + SkipWs(s)
    decreases |s|
  {
    if s != "" && IsWs(s[0]) {
      var t := BlankSkipped(s[1..]);
      w := [s[0]] + t;
      assert s == [s[0]] + s[1..];
      assert forall i :: 0 < i < |w| ==> w[i] == t[i - 1];
    } else {
      w := "";
    }
  }

  // --- Strings ---

  lemma QuadText(u: JsonSyntax.Unit)
    requires IsQuad(u)
    ensures JsonSyntax.UnitText(u) == "\\u" + u.text[1..]
  {
    assert u.text == ['u'] + u.text[1..];
  }

  lemma QuadRead(e: string, rest: string)
    requires |e| == 5 && HexDigit(e[1]) < 16 && HexDigit(e[2]) < 16 && HexDigit(e[3]) < 16 && HexDigit(e[4]) < 16
    ensures Hex4Value(e[1..] + rest) == Quad(e) < 0x10000 && (e[1..] + rest)[4..] == rest
  {
    var s := e[1..] + rest;
    assert s[0] == e[1] && s[1] == e[2] && s[2] == e[3] && s[3] == e[4];
    hide HexDigit;
  }

  lemma ReadSimple(u: JsonSyntax.Unit, rest: string)
    requires JsonSyntax.ValidUnit(u) && !IsQuad(u)
    ensures ParseString(JsonSyntax.UnitText(u) + rest) == Prepend(SimpleChar(u), ParseString(rest))
  {
    match u
    case Plain(c) => PlainRead(c, rest);
    case Escaped(e) =>
      assert e == [e[0]];
      assert ([e[0]] + rest)[1..] == rest;
      hide ParseString, UnicodeEscape;
      BackslashRead(e, SimpleChar(u), rest);
  }

  lemma ReadQuad(u: JsonSyntax.Unit, rest: string)
    requires JsonSyntax.ValidUnit(u) && IsQuad(u)
    ensures Quad(u.text) < 0x10000
    ensures var n := Quad(u.text);
      n < 0xD800 || 0xE000 <= n ==> ParseString(JsonSyntax.UnitText(u) + rest) == Prepend(n as char, ParseString(rest))
  {
    var e := u.text;
    QuadRead(e, rest);
    QuadText(u);
    hide ParseString, Hex4Value, HexDigit;
    var n := Quad(e);
    if n < 0xD800 || 0xE000 <= n {
      UnicodeRead(e[1..], n as char, rest);
      assert "\\" + ("u" + e[1..]) + rest == JsonSyntax.UnitText(u) + rest;
    }
  }

  lemma PairEscape(u: string, l: string, rest: string)
    requires |u| == 5 && HexDigit(u[1]) < 16 && HexDigit(u[2]) < 16 && HexDigit(u[3]) < 16 && HexDigit(u[4]) < 16
    requires |l| == 5 && HexDigit(l[1]) < 16 && HexDigit(l[2]) < 16 && HexDigit(l[3]) < 16 && HexDigit(l[4]) < 16
    requires 0xD800 <= Quad(u) < 0xDC00 <= Quad(l) < 0xE000
    ensures UnicodeEscape(u[1..] + ("\\u" + l[1..]) + rest) ==
      Got((0x10000 + (Quad(u) - 0xD800) * 0x400 + (Quad(l) - 0xDC00)) as char, rest)
  {
    var tail := "\\u" + (l[1..] + rest);
    QuadRead(u, tail);
    QuadRead(l, rest);
    hide Hex4Value, HexDigit, Quad;
    var s := u[1..] + tail;
    assert s[4..] == tail && s[6..] == tail[2..] == l[1..] + rest && s[10..] == rest;
    assert s[4] == tail[0] && s[5] == tail[1];
    assert u[1..] + ("\\u" + l[1..]) + rest == s;
  }

  lemma ReadPair(u: JsonSyntax.Unit, l: JsonSyntax.Unit, rest: string)
    requires JsonSyntax.ValidUnit(u) && IsQuad(u) && JsonSyntax.ValidUnit(l) && IsQuad(l)
    requires 0xD800 <= Quad(u.text) < 0xDC00 <= Quad(l.text) < 0xE000
    ensures ParseString(JsonSyntax.UnitText(u) + (JsonSyntax.UnitText(l) + rest)) ==
      Prepend((0x10000 + (Quad(u.text) - 0xD800) * 0x400 + (Quad(l.text) - 0xDC00)) as char, ParseString(rest))
  {
    PairEscape(u.text, l.text, rest);
    QuadText(u);
    QuadText(l);
    hide ParseString, HexDigit, Quad, UnicodeEscape, JsonSyntax.UnitText;
    var body := u.text[1..] + ("\\u" + l.text[1..]);
    UnicodeRead(body, (0x10000 + (Quad(u.text) - 0xD800) * 0x400 + (Quad(l.text) - 0xDC00)) as char, rest);
    PairText(u.text[1..], l.text[1..], rest);
  }

  lemma PairText(a: string, b: string, rest: string)
    ensures "\\" + ("u" + (a + ("\\u" + b))) + rest == ("\\u" + a) + (("\\u" + b) + rest)
  {
    assert "\\" + ("u" + (a + ("\\u" + b))) == "\\u" + a + ("\\u" + b);
    Assoc("\\u" + a, "\\u" + b, rest);
  }

  lemma UnitsMore(units: seq<JsonSyntax.Unit>)
    requires units != []
    ensures JsonSyntax.UnitsText(units) == JsonSyntax.UnitText(units[0]) + JsonSyntax.UnitsText(units[1..])
  {
  }

  lemma {:induction false} ReadUnits(units: seq<JsonSyntax.Unit>, rest: string)
    requires JsonSyntax.ValidUnits(units) && Chars(units).Some?
    ensures ParseString(JsonSyntax.UnitsText(units) + ("\"" + rest)) == Got(Chars(units).value, rest)
    decreases |units|
  {
    hide ParseString, Quad, SimpleChar, JsonSyntax.UnitText, JsonSyntax.ValidUnit;
    if units == [] {
      QuoteRead(rest);
      assert JsonSyntax.UnitsText(units) + ("\"" + rest) == "\"" + rest;
    } else {
      UnitsMore(units);
      var more := JsonSyntax.UnitsText(units[1..]) + ("\"" + rest);
      assert JsonSyntax.UnitsText(units) + ("\"" + rest) == JsonSyntax.UnitText(units[0]) + more;
      if !IsQuad(units[0]) {
        ReadUnits(units[1..], rest);
        ReadSimple(units[0], more);
      } else {
        ReadQuad(units[0], more);
        var n := Quad(units[0].text);
        if n < 0xD800 || 0xE000 <= n {
          ReadUnits(units[1..], rest);
        } else {
          UnitsMore(units[1..]);
          var last := JsonSyntax.UnitsText(units[2..]) + ("\"" + rest);
          assert units[1..][1..] == units[2..] && units[1..][0] == units[1];
          assert more == JsonSyntax.UnitText(units[1]) + last;
          ReadUnits(units[2..], rest);
          ReadPair(units[0], units[1], last);
        }
      }
    }
  }

  // --- Numbers ---

  /** A text with which no number goes on. */
  predicate Ends(rest: string) {
    rest != "" ==> !IsDigit(rest[0]) && rest[0] != '.' && rest[0] != 'e' && rest[0] != 'E'
  }

  lemma {:induction false} ReadNumeral(done: string, digits: string, rest: string)
    requires Numeral(done) && Numeral(digits) && Ends(rest)
    ensures Numeral(done + digits)
    ensures ReadDigits(digits + rest, ValueOf(done)) == (ValueOf(done + digits), rest)
    decreases |digits|
  {
    if digits == "" {
      assert done + digits == done && digits + rest == rest;
    } else {
      var more := done + [digits[0]];
      assert more[..|more| - 1] == done && done + digits == more + digits[1..];
      assert (digits + rest)[1..] == digits[1..] + rest;
      ReadNumeral(more, digits[1..], rest);
    }
  }

  lemma ReadZero(rest: string)
    ensures ParseNat("0" + rest) == Got(0, rest) && ValueOf("0") == 0
  {
    OneDigit('0');
    assert ("0" + rest)[1..] == rest;
  }

  lemma ReadNonZero(t: string, whole: string, rest: string)
    requires whole != "" && t != "" && t[0] == whole[0] != '0' && IsDigit(t[0]) && Numeral(whole) && Numeral([whole[0]])
    requires ReadDigits(t[1..], ValueOf([whole[0]])) == (ValueOf(whole), rest)
    ensures ParseNat(t) == Got(ValueOf(whole), rest)
  {
    OneDigit(whole[0]);
    hide ValueOf, ReadDigits, Numeral;
  }

  lemma Pieces(whole: string)
    requires JsonSyntax.IsDigits(whole)
    ensures Numeral(whole) && Numeral([whole[0]]) && Numeral(whole[1..]) && [whole[0]] + whole[1..] == whole && IsDigit(whole[0])
  {
  }

  lemma TailOf(whole: string, rest: string)
    requires whole != ""
    ensures (whole + rest)[0] == whole[0] && (whole + rest)[1..] == whole[1..] + rest
    ensures |whole| == 1 && whole[0] == '0' ==> whole == "0"
  {
  }

  lemma ReadWhole(whole: string, rest: string)
    requires JsonSyntax.IsDigits(whole) && (whole[0] == '0' ==> |whole| == 1) && Ends(rest)
    ensures Numeral(whole) && ParseNat(whole + rest) == Got(ValueOf(whole), rest)
  {
    Pieces(whole);
    TailOf(whole, rest);
    hide *;
    if whole[0] == '0' {
      ReadZero(rest);
    } else {
      ReadNumeral([whole[0]], whole[1..], rest);
      ReadNonZero(whole + rest, whole, rest);
    }
  }

  lemma OneDigit(c: char)
    requires IsDigit(c)
    ensures ValueOf([c]) == c as int - '0' as int
  {
    assert [c][..0] == "";
  }

  lemma SignedNat(negative: bool, t: string)
    requires t != "" && IsDigit(t[0]) && ParseNat(t).Got? && Ends(ParseNat(t).rest)
    ensures var n: int := ParseNat(t).value;
      ParseInt((if negative then "-" else "") + t) == Got(if negative then -n else n, ParseNat(t).rest)
  {
    hide ParseNat;
    if negative {
      assert ("-" + t)[1..] == t;
    } else {
      assert "" + t == t;
    }
  }

  lemma ReadNumber(v: JsonSyntax.Node, rest: string)
    requires JsonSyntax.Valid(v) && v.Number? && v.fraction == None && v.exponent == None && Ends(rest)
    ensures ParseInt(JsonSyntax.TextOf(v) + rest) == Got(Meaning(v).value.n, rest)
    ensures JsonSyntax.TextOf(v) != "" && (JsonSyntax.TextOf(v)[0] == '-' || IsDigit(JsonSyntax.TextOf(v)[0]))
  {
    var whole := v.whole;
    ReadWhole(whole, rest);
    NumberShape(v);
    Pieces(whole);
    TailOf(whole, rest);
    hide ParseNat, ParseInt, ValueOf, Numeral, Ends, JsonSyntax.TextOf, JsonSyntax.IsDigits;
    SignedNat(v.negative, whole + rest);
    Assoc(if v.negative then "-" else "", whole, rest);
  }

  lemma NumberShape(v: JsonSyntax.Node)
    requires v.Number? && v.fraction == None && v.exponent == None
    ensures JsonSyntax.TextOf(v) == (if v.negative then "-" else "") + v.whole
  {
  }

  // --- Values ---

  /** No text of a value begins with white space or a closing bracket. */
  lemma FirstOf(v: JsonSyntax.Node)
    requires JsonSyntax.Valid(v)
    ensures var t := JsonSyntax.TextOf(v); t != "" && !IsWs(t[0]) && t[0] != ']' && t[0] != '}'
  {
    hide JsonSyntax.ItemsText, JsonSyntax.MembersText, JsonSyntax.UnitsText;
    match v
    case Number(negative, whole, fraction, exponent) =>
      assert JsonSyntax.TextOf(v)[0] == if negative then '-' else whole[0];
    case _ =>
  }

  lemma NotBlank(s: string)
    requires s != "" && !IsWs(s[0])
    ensures SkipWs(s) == s
  {
  }

  /** White space or a bracket, brace or comma ends a number. */
  lemma BlankEnds(w: string, c: char, rest: string)
    requires JsonSyntax.IsWhitespace(w) && (c == ',' || c == ']' || c == '}')
    ensures Ends(w + ([c] + rest)) && SkipWs(w + ([c] + rest)) == [c] + rest
  {
    SkipBlank(w, [c] + rest);
    NotBlank([c] + rest);
  }

  lemma ReadLiteral(name: string, rest: string)
    requires name == "true" || name == "false" || name == "null"
    ensures ParseValue(name + rest) == Got(if name == "null" then Null else Bool(name == "true"), rest)
  {
    hide ParseString, ParseInt, ParseElements, ParseMembers, SkipWs;
    var s := name + rest;
    assert s[|name|..] == rest && name <= s && s[0] == name[0];
    if name != "null" { assert !("null" <= s); }
    if name == "false" { assert !("true" <= s); }
  }

  lemma NumberFirst(s: string)
    requires s != "" && (s[0] == '-' || IsDigit(s[0]))
    ensures ParseValue(s) == match ParseInt(s) case Fail => Fail case Got(n, rest) => Got(Int(n), rest)
  {
    hide ParseString, ParseInt, ParseElements, ParseMembers, SkipWs;
    assert !("null" <= s) && !("true" <= s) && !("false" <= s);
  }

  lemma QuoteFirst(s: string)
    requires s != "" && s[0] == '"'
    ensures ParseValue(s) == match ParseString(s[1..]) case Fail => Fail case Got(t, rest) => Got(Str(t), rest)
  {
    hide ParseString, ParseInt, ParseElements, ParseMembers, SkipWs;
  }

  lemma ReadLeaf(v: JsonSyntax.Node, rest: string)
    requires JsonSyntax.Valid(v) && Meaning(v).Some? && Ends(rest) && (v.Literal? || v.Number? || v.Str?)
    ensures ParseValue(JsonSyntax.TextOf(v) + rest) == Got(Meaning(v).value, rest)
  {
    var s := JsonSyntax.TextOf(v) + rest;
    hide ParseValue, ParseString, ParseInt, Chars, JsonSyntax.UnitsText;
    match v
    case Literal(name) => ReadLiteral(name, rest);
    case Number(negative, whole, fraction, exponent) =>
      ReadNumber(v, rest);
      assert s[0] == JsonSyntax.TextOf(v)[0];
      NumberFirst(s);
    case Str(units) =>
      ReadUnits(units, rest);
      assert s == "\"" + (JsonSyntax.UnitsText(units) + ("\"" + rest));
      assert s[1..] == JsonSyntax.UnitsText(units) + ("\"" + rest);
      QuoteFirst(s);
  }

  lemma {:induction false} ReadNode(v: JsonSyntax.Node, rest: string)
    requires JsonSyntax.Valid(v) && Meaning(v).Some? && Ends(rest)
    ensures ParseValue(JsonSyntax.TextOf(v) + rest) == Got(Meaning(v).value, rest)
    decreases v, 1
  {
    match v
    case Arr(pad, items) => ReadArray(v, rest);
    case Obj(pad, members) => ReadObject(v, rest);
    case _ => ReadLeaf(v, rest);
  }

  lemma {:induction false} ReadArray(v: JsonSyntax.Node, rest: string)
    requires JsonSyntax.Valid(v) && v.Arr? && Meaning(v).Some?
    ensures ParseValue(JsonSyntax.TextOf(v) + rest) == Got(Meaning(v).value, rest)
    decreases v, 0
  {
    hide ParseElements, SkipWs, JsonSyntax.ItemsText, JsonSyntax.ValidItems, JsonSyntax.IsWhitespace;
    var s := JsonSyntax.TextOf(v) + rest;
    var inner := if v.items == JsonSyntax.NoItems then v.pad else JsonSyntax.ItemsText(v.items);
    assert s == "[" + (inner + ("]" + rest)) && s[1..] == inner + ("]" + rest);
    if v.items == JsonSyntax.NoItems {
      BlankEnds(v.pad, ']', rest);
      assert ("]" + rest)[1..] == rest;
    } else {
      ReadItems(v.items, rest);
    }
  }

  lemma ElementStep(s: string, v: Json, afterValue: string, t: string)
    requires ParseValue(s) == Got(v, afterValue) && SkipWs(afterValue) == t && t != ""
    ensures t[0] == ']' ==> ParseElements(s) == Got([v], t[1..])
    ensures t[0] == ',' && ParseElements(SkipWs(t[1..])).Got? ==>
      ParseElements(s) == Got([v] + ParseElements(SkipWs(t[1..])).value, ParseElements(SkipWs(t[1..])).rest)
  {
    hide ParseValue, SkipWs;
  }

  lemma {:induction false} ReadItems(items: JsonSyntax.Items, rest: string)
    requires JsonSyntax.ValidItems(items) && items.Item? && ItemsMean(items).Some?
    ensures var t := SkipWs(JsonSyntax.ItemsText(items) + ("]" + rest));
      t != "" && t[0] != ']' && ParseElements(t) == Got(ItemsMean(items).value, rest)
    decreases items
  {
    hide ParseValue, ParseElements, JsonSyntax.TextOf, Meaning, SkipWs, JsonSyntax.IsWhitespace;
    var text := JsonSyntax.TextOf(items.value);
    var tail := if items.rest == JsonSyntax.NoItems then "]" + rest else "," + (JsonSyntax.ItemsText(items.rest) + ("]" + rest));
    var s := text + (items.after + tail);
    assert JsonSyntax.ItemsText(items) + ("]" + rest) == items.before + s;
    FirstOf(items.value);
    SkipBlank(items.before, s);
    NotBlank(s);
    assert s[0] == text[0];
    assert tail == [tail[0]] + tail[1..];
    BlankEnds(items.after, tail[0], tail[1..]);
    ReadNode(items.value, items.after + tail);
    ElementStep(s, Meaning(items.value).value, items.after + tail, tail);
    if items.rest != JsonSyntax.NoItems {
      assert tail[1..] == JsonSyntax.ItemsText(items.rest) + ("]" + rest);
      ReadItems(items.rest, rest);
    } else {
      assert tail[1..] == rest && [Meaning(items.value).value] + [] == [Meaning(items.value).value];
    }
  }

  lemma {:induction false} ReadObject(v: JsonSyntax.Node, rest: string)
    requires JsonSyntax.Valid(v) && v.Obj? && Meaning(v).Some?
    ensures ParseValue(JsonSyntax.TextOf(v) + rest) == Got(Meaning(v).value, rest)
    decreases v, 0
  {
    hide ParseMembers, SkipWs, JsonSyntax.MembersText, JsonSyntax.ValidMembers, JsonSyntax.IsWhitespace;
    var s := JsonSyntax.TextOf(v) + rest;
    var inner := if v.members == JsonSyntax.NoMembers then v.pad else JsonSyntax.MembersText(v.members);
    assert s == "{" + (inner + ("}" + rest)) && s[1..] == inner + ("}" + rest);
    if v.members == JsonSyntax.NoMembers {
      BlankEnds(v.pad, '}', rest);
      assert ("}" + rest)[1..] == rest;
    } else {
      ReadMembers(v.members, map[], rest);
    }
  }

  lemma MemberStep(s: string, acc: map<string, Json>, k: string, afterKey: string, t: string, v: Json, afterValue: string, u: string)
    requires s != "" && s[0] == '"' && ParseString(s[1..]) == Got(k, afterKey) && SkipWs(afterKey) == t && t != "" && t[0] == ':'
    requires ParseValue(SkipWs(t[1..])) == Got(v, afterValue) && SkipWs(afterValue) == u && u != ""
    ensures u[0] == '}' ==> ParseMembers(s, acc) == Got(acc[k := v], u[1..])
    ensures u[0] == ',' ==> ParseMembers(s, acc) == ParseMembers(SkipWs(u[1..]), acc[k := v])
  {
    hide ParseValue, ParseString, SkipWs;
  }

  /** What stands between a member's key and what follows the member. */
  lemma ReadField(m: JsonSyntax.Members, tail: string, acc: map<string, Json>) returns (s: string)
    requires JsonSyntax.ValidMembers(m) && m.Member? && Chars(m.key).Some? && Meaning(m.value).Some?
    requires tail != "" && (tail[0] == ',' || tail[0] == '}')
    requires forall rest :: Ends(rest) ==> ParseValue(JsonSyntax.TextOf(m.value) + rest) == Got(Meaning(m.value).value, rest)
    ensures s == JsonSyntax.Quoted(m.key) + (m.colon + (":" + (m.gap + (JsonSyntax.TextOf(m.value) + (m.after + tail)))))
    ensures s != "" && s[0] == '"'
    ensures tail[0] == '}' ==> ParseMembers(s, acc) == Got(acc[Chars(m.key).value := Meaning(m.value).value], tail[1..])
    ensures tail[0] == ',' ==>
      ParseMembers(s, acc) == ParseMembers(SkipWs(tail[1..]), acc[Chars(m.key).value := Meaning(m.value).value])
  {
    hide ParseValue, ParseString, ParseMembers, JsonSyntax.TextOf, Meaning, Chars, JsonSyntax.UnitsText, SkipWs, JsonSyntax.IsWhitespace;
    var text := JsonSyntax.TextOf(m.value);
    var afterColon := m.gap + (text + (m.after + tail));
    var afterKey := m.colon + (":" + afterColon);
    s := "\"" + (JsonSyntax.UnitsText(m.key) + ("\"" + afterKey));
    ReadUnits(m.key, afterKey);
    assert s[1..] == JsonSyntax.UnitsText(m.key) + ("\"" + afterKey);
    SkipBlank(m.colon, ":" + afterColon);
    NotBlank(":" + afterColon);
    assert (":" + afterColon)[1..] == afterColon;
    FirstOf(m.value);
    SkipBlank(m.gap, text + (m.after + tail));
    NotBlank(text + (m.after + tail));
    assert tail == [tail[0]] + tail[1..];
    BlankEnds(m.after, tail[0], tail[1..]);
    MemberStep(s, acc, Chars(m.key).value, afterKey, ":" + afterColon, Meaning(m.value).value, m.after + tail, tail);
  }

  function MembersTail(m: JsonSyntax.Members, rest: string): string
    requires m.Member?
  {
    if m.rest == JsonSyntax.NoMembers then "}" + rest else "," + (JsonSyntax.MembersText(m.rest) + ("}" + rest))
  }

  lemma Assoc(a: string, b: string, c: string)
    ensures a + b + c == a + (b + c)
  {
  }

  lemma Chain(b: string, q: string, c: string, g: string, t: string, a: string, x: string, y: string)
    ensures b + q + c + ":" + g + t + a + x + y == b + (q + (c + (":" + (g + (t + (a + (x + y)))))))
  {
    Assoc(b + q + c + ":" + g + t + a, x, y);
    Assoc(b + q + c + ":" + g + t, a, x + y);
    Assoc(b + q + c + ":" + g, t, a + (x + y));
    Assoc(b + q + c + ":", g, t + (a + (x + y)));
    Assoc(b + q + c, ":", g + (t + (a + (x + y))));
    Assoc(b + q, c, ":" + (g + (t + (a + (x + y)))));
    Assoc(b, q, c + (":" + (g + (t + (a + (x + y))))));
  }

  lemma MembersSplit(m: JsonSyntax.Members, rest: string)
    requires m.Member?
    ensures var s := JsonSyntax.Quoted(m.key) +
        (m.colon + (":" + (m.gap + (JsonSyntax.TextOf(m.value) + (m.after + MembersTail(m, rest))))));
      JsonSyntax.MembersText(m) + ("}" + rest) == m.before + s
    ensures var tail := MembersTail(m, rest);
      tail != "" && tail[0] == (if m.rest == JsonSyntax.NoMembers then '}' else ',') &&
      tail[1..] == if m.rest == JsonSyntax.NoMembers then rest else JsonSyntax.MembersText(m.rest) + ("}" + rest)
  {
    var x := if m.rest == JsonSyntax.NoMembers then "" else "," + JsonSyntax.MembersText(m.rest);
    Chain(m.before, JsonSyntax.Quoted(m.key), m.colon, m.gap, JsonSyntax.TextOf(m.value), m.after, x, "}" + rest);
    hide JsonSyntax.Quoted, JsonSyntax.TextOf;
    assert x + ("}" + rest) == MembersTail(m, rest) by {
      if m.rest != JsonSyntax.NoMembers {
        Assoc(",", JsonSyntax.MembersText(m.rest), "}" + rest);
      }
    }
  }

  lemma {:induction false} ReadMembers(members: JsonSyntax.Members, acc: map<string, Json>, rest: string)
    requires JsonSyntax.ValidMembers(members) && members.Member? && MembersMean(members, acc).Some?
    ensures var t := SkipWs(JsonSyntax.MembersText(members) + ("}" + rest));
      t != "" && t[0] != '}' && ParseMembers(t, acc) == Got(MembersMean(members, acc).value, rest)
    decreases members
  {
    hide ParseValue, ParseMembers, JsonSyntax.TextOf, Meaning, Chars, JsonSyntax.Quoted, SkipWs, JsonSyntax.IsWhitespace,
      JsonSyntax.ValidUnits, JsonSyntax.Valid, JsonSyntax.MembersText, MembersTail;
    var m := members;
    forall after | Ends(after) ensures ParseValue(JsonSyntax.TextOf(m.value) + after) == Got(Meaning(m.value).value, after) {
      ReadNode(m.value, after);
    }
    hide Ends;
    MembersSplit(m, rest);
    var s := ReadField(m, MembersTail(m, rest), acc);
    SkipBlank(m.before, s);
    NotBlank(s);
    if m.rest != JsonSyntax.NoMembers {
      ReadMembers(m.rest, acc[Chars(m.key).value := Meaning(m.value).value], rest);
    }
  }

  /** Every such text is read, with any white space around it, as what it means. */
  lemma ReadsText(v: JsonSyntax.Node, before: string, after: string)
    requires JsonSyntax.Valid(v) && Meaning(v).Some? && JsonSyntax.IsWhitespace(before) && JsonSyntax.IsWhitespace(after)
    ensures Decode(before + JsonSyntax.TextOf(v) + after) == Got(Meaning(v).value, "")
  {
    hide ParseValue, Meaning, JsonSyntax.TextOf;
    FirstOf(v);
    assert before + JsonSyntax.TextOf(v) + after == before + (JsonSyntax.TextOf(v) + after);
    SkipBlank(before, JsonSyntax.TextOf(v) + after);
    NotBlank(JsonSyntax.TextOf(v) + after);
    ReadNode(v, after);
    assert after + "" == after;
    SkipBlank(after, "");
  }

  // --- Nothing else is read ---

  lemma LetterWritten(s: string) returns (u: JsonSyntax.Unit)
    requires s != "" && s[0] != 'u' && Unescape(s).Got?
    ensures JsonSyntax.ValidUnit(u) && !IsQuad(u) && SimpleChar(u) == Unescape(s).value
    ensures "\\" + s == JsonSyntax.UnitText(u) + Unescape(s).rest
  {
    hide UnicodeEscape;
    u := JsonSyntax.Escaped([s[0]]);
    assert s == [s[0]] + s[1..];
  }

  lemma QuadWritten(s: string) returns (u: JsonSyntax.Unit)
    requires Hex4Value(s) < 0x10000
    ensures |s| >= 4 && JsonSyntax.ValidUnit(u) && IsQuad(u) && Quad(u.text) == Hex4Value(s)
    ensures "\\u" + s == JsonSyntax.UnitText(u) + s[4..]
  {
    assert |s| >= 4;
    var e := "u" + s[..4];
    assert e[1] == s[0] && e[2] == s[1] && e[3] == s[2] && e[4] == s[3];
    u := JsonSyntax.Escaped(e);
    assert s == s[..4] + s[4..];
    hide HexDigit;
  }

  lemma CharsFirst(u: JsonSyntax.Unit, units: seq<JsonSyntax.Unit>, c: char)
    requires JsonSyntax.ValidUnit(u) && JsonSyntax.ValidUnits(units)
    requires if IsQuad(u) then (Quad(u.text) < 0xD800 || 0xE000 <= Quad(u.text) < 0x10000) && c == Quad(u.text) as char else c == SimpleChar(u)
    ensures JsonSyntax.ValidUnits([u] + units) && Chars([u] + units) == Put(c, Chars(units))
    ensures JsonSyntax.UnitsText([u] + units) == JsonSyntax.UnitText(u) + JsonSyntax.UnitsText(units)
  {
    hide Quad, SimpleChar, JsonSyntax.UnitText, JsonSyntax.ValidUnit;
    assert ([u] + units)[1..] == units;
  }

  lemma CharsPair(u: JsonSyntax.Unit, l: JsonSyntax.Unit, units: seq<JsonSyntax.Unit>)
    requires JsonSyntax.ValidUnit(u) && IsQuad(u) && JsonSyntax.ValidUnit(l) && IsQuad(l) && JsonSyntax.ValidUnits(units)
    requires 0xD800 <= Quad(u.text) < 0xDC00 <= Quad(l.text) < 0xE000
    ensures JsonSyntax.ValidUnits([u, l] + units)
    ensures Chars([u, l] + units) ==
      Put((0x10000 + (Quad(u.text) - 0xD800) * 0x400 + (Quad(l.text) - 0xDC00)) as char, Chars(units))
    ensures JsonSyntax.UnitsText([u, l] + units) == JsonSyntax.UnitText(u) + (JsonSyntax.UnitText(l) + JsonSyntax.UnitsText(units))
  {
    hide Quad, SimpleChar, JsonSyntax.UnitText, JsonSyntax.ValidUnit;
    var all := [u, l] + units;
    assert all[2..] == units && all[1..] == [l] + units && all[1..][1..] == units;
    UnitsMore(all);
    UnitsMore(all[1..]);
  }

  lemma {:induction false} UnitsFrom(s: string) returns (units: seq<JsonSyntax.Unit>)
    requires ParseString(s).Got?
    ensures JsonSyntax.ValidUnits(units) && Chars(units) == Some(ParseString(s).value)
    ensures s == JsonSyntax.UnitsText(units) + ("\"" + ParseString(s).rest)
    decreases |s|
  {
    hide Unescape, Chars, Quad, SimpleChar, JsonSyntax.UnitText, JsonSyntax.UnitsText, JsonSyntax.ValidUnit, JsonSyntax.ValidUnits;
    assert s == [s[0]] + s[1..];
    if s[0] == '"' {
      units := [];
      NoUnits();
      assert JsonSyntax.UnitsText([]) + ("\"" + s[1..]) == s;
    } else if s[0] == '\\' {
      var p := Unescape(s[1..]);
      var more := UnitsFrom(p.rest);
      units := EscapedFrom(s, p.value, p.rest, more);
      assert [p.value] + ParseString(p.rest).value == ParseString(s).value;
    } else {
      var more := UnitsFrom(s[1..]);
      var u := JsonSyntax.Plain(s[0]);
      PlainUnit(s[0]);
      CharsFirst(u, more, s[0]);
      units := [u] + more;
      Assoc([s[0]], JsonSyntax.UnitsText(more), "\"" + ParseString(s[1..]).rest);
    }
  }

  lemma NoUnits()
    ensures JsonSyntax.ValidUnits([]) && Chars([]) == Some("") && JsonSyntax.UnitsText([]) == ""
  {
  }

  lemma PlainUnit(c: char)
    requires c >= ' ' && c != '"' && c != '\\'
    ensures var u := JsonSyntax.Plain(c); JsonSyntax.ValidUnit(u) && !IsQuad(u) && SimpleChar(u) == c && JsonSyntax.UnitText(u) == [c]
  {
  }

  lemma EscapedFrom(s: string, c: char, rest: string, more: seq<JsonSyntax.Unit>) returns (units: seq<JsonSyntax.Unit>)
    requires s != "" && s[0] == '\\' && Unescape(s[1..]) == Got(c, rest)
    requires JsonSyntax.ValidUnits(more) && ParseString(rest).Got? && Chars(more) == Some(ParseString(rest).value)
    requires rest == JsonSyntax.UnitsText(more) + ("\"" + ParseString(rest).rest)
    ensures JsonSyntax.ValidUnits(units) && Chars(units) == Some([c] + ParseString(rest).value)
    ensures s == JsonSyntax.UnitsText(units) + ("\"" + ParseString(rest).rest)
  {
    hide ParseString, Chars, Quad, SimpleChar, JsonSyntax.UnitText, JsonSyntax.UnitsText, JsonSyntax.ValidUnit, JsonSyntax.ValidUnits,
      UnicodeEscape;
    var end := "\"" + ParseString(rest).rest;
    assert s == "\\" + s[1..];
    if s[1..] == "" || s[1] != 'u' {
      UnescapeNeeds(s[1..]);
      hide Unescape;
      var u := LetterWritten(s[1..]);
      CharsFirst(u, more, c);
      units := [u] + more;
      Assoc(JsonSyntax.UnitText(u), JsonSyntax.UnitsText(more), end);
    } else {
      assert s == "\\u" + s[2..] && s[1..][1..] == s[2..];
      units := UnicodeFrom(s[2..], c, rest, more, end);
    }
  }

  lemma UnescapeNeeds(s: string)
    requires Unescape(s).Got?
    ensures s != ""
  {
  }

  lemma UnicodeFrom(s: string, c: char, rest: string, more: seq<JsonSyntax.Unit>, end: string) returns (units: seq<JsonSyntax.Unit>)
    requires UnicodeEscape(s) == Got(c, rest) && JsonSyntax.ValidUnits(more) && rest == JsonSyntax.UnitsText(more) + end
    ensures JsonSyntax.ValidUnits(units) && Chars(units) == Put(c, Chars(more)) && "\\u" + s == JsonSyntax.UnitsText(units) + end
  {
    hide Chars, Quad, Hex4Value, JsonSyntax.UnitText, JsonSyntax.UnitsText, JsonSyntax.ValidUnit, JsonSyntax.ValidUnits;
    var u := QuadWritten(s);
    var n := Hex4Value(s);
    if n < 0xD800 || 0xE000 <= n {
      CharsFirst(u, more, c);
      units := [u] + more;
      Assoc(JsonSyntax.UnitText(u), JsonSyntax.UnitsText(more), end);
    } else {
      var l := QuadWritten(s[6..]);
      assert s[4..] == "\\u" + s[6..] && s[6..][4..] == s[10..];
      CharsPair(u, l, more);
      units := [u, l] + more;
      Assoc(JsonSyntax.UnitText(u), JsonSyntax.UnitText(l) + JsonSyntax.UnitsText(more), end);
      Assoc(JsonSyntax.UnitText(l), JsonSyntax.UnitsText(more), end);
    }
  }

  lemma OneMoreDigit(s: string, done: string)
    requires Numeral(done) && s != "" && IsDigit(s[0])
    ensures Numeral(done + [s[0]])
    ensures ReadDigits(s, ValueOf(done)) == ReadDigits(s[1..], ValueOf(done + [s[0]]))
  {
    assert (done + [s[0]])[..|done|] == done;
  }

  lemma NoMoreDigits(s: string, acc: nat)
    requires s == "" || !IsDigit(s[0])
    ensures ReadDigits(s, acc) == (acc, s)
  {
  }

  lemma NumeralJoin(a: string, c: char, b: string)
    requires Numeral(b) && IsDigit(c)
    ensures Numeral([c] + b) && a + [c] + b == a + ([c] + b)
  {
    Assoc(a, [c], b);
  }

  lemma {:induction false} DigitsFrom(s: string, done: string) returns (digits: string)
    requires Numeral(done)
    ensures Numeral(digits) && Numeral(done + digits)
    ensures var (n, rest) := ReadDigits(s, ValueOf(done)); s == digits + rest && n == ValueOf(done + digits)
    decreases |s|
  {
    hide ReadDigits, ValueOf, Numeral;
    if s != "" && IsDigit(s[0]) {
      OneMoreDigit(s, done);
      var tail := DigitsFrom(s[1..], done + [s[0]]);
      digits := [s[0]] + tail;
      NumeralJoin(done, s[0], tail);
      assert s == [s[0]] + s[1..];
      Assoc([s[0]], tail, ReadDigits(s, ValueOf(done)).1);
    } else {
      NoMoreDigits(s, ValueOf(done));
      NothingNumeral();
      digits := "";
      assert done + digits == done;
    }
  }

  lemma NothingNumeral()
    ensures Numeral("")
  {
  }

  lemma WholeFrom(s: string) returns (whole: string)
    requires ParseNat(s).Got?
    ensures JsonSyntax.IsDigits(whole) && (whole[0] == '0' ==> |whole| == 1)
    ensures Numeral(whole) && s == whole + ParseNat(s).rest && ParseNat(s).value == ValueOf(whole)
  {
    assert s == [s[0]] + s[1..];
    OneDigit(s[0]);
    if s[0] == '0' {
      whole := "0";
    } else {
      var tail := DigitsFrom(s[1..], [s[0]]);
      whole := [s[0]] + tail;
      assert s == whole + ParseNat(s).rest;
      hide ValueOf, ReadDigits;
    }
  }

  lemma NumberFrom(s: string) returns (v: JsonSyntax.Node)
    requires ParseInt(s).Got?
    ensures JsonSyntax.Valid(v) && Meaning(v) == Some(Int(ParseInt(s).value)) && s == JsonSyntax.TextOf(v) + ParseInt(s).rest
  {
    var negative := s != "" && s[0] == '-';
    var whole := WholeFrom(if negative then s[1..] else s);
    v := JsonSyntax.Number(negative, whole, None, None);
    NumberShape(v);
    hide ParseNat, ValueOf, JsonSyntax.TextOf;
    if negative {
      assert s == "-" + s[1..];
      Assoc("-", whole, ParseInt(s).rest);
    }
  }

  /** A text that reads as a value begins with a text of that value. */
  ghost predicate Spells(v: JsonSyntax.Node, s: string, p: Parsed<Json>) {
    p.Got? && JsonSyntax.Valid(v) && Meaning(v) == Some(p.value) && s == JsonSyntax.TextOf(v) + p.rest
  }

  lemma {:induction false} ValueFrom(s: string) returns (v: JsonSyntax.Node)
    requires ParseValue(s).Got?
    ensures Spells(v, s, ParseValue(s))
    decreases |s|, 0
  {
    hide ParseString, ParseInt, ParseElements, ParseMembers, SkipWs, Chars, JsonSyntax.UnitsText, JsonSyntax.ValidUnits, ValueOf;
    assert s == [s[0]] + s[1..];
    if s[0] == '"' {
      var units := UnitsFrom(s[1..]);
      v := JsonSyntax.Node.Str(units);
      Assoc("\"", JsonSyntax.UnitsText(units), "\"" + ParseString(s[1..]).rest);
      Assoc("\"" + JsonSyntax.UnitsText(units), "\"", ParseString(s[1..]).rest);
    } else if s[0] == '[' {
      v := ArrayFrom(s);
    } else if s[0] == '{' {
      v := ObjectFrom(s);
    } else if "null" <= s {
      v := JsonSyntax.Literal("null");
      assert s == "null" + s[4..];
    } else if "true" <= s {
      v := JsonSyntax.Literal("true");
      assert s == "true" + s[4..];
    } else if "false" <= s {
      v := JsonSyntax.Literal("false");
      assert s == "false" + s[5..];
    } else {
      v := NumberFrom(s);
    }
  }

  lemma EmptyArray(w: string, rest: string)
    requires JsonSyntax.IsWhitespace(w)
    ensures var v := JsonSyntax.Node.Arr(w, JsonSyntax.NoItems);
      JsonSyntax.Valid(v) && Meaning(v) == Some(Json.Arr([])) && "[" + (w + ("]" + rest)) == JsonSyntax.TextOf(v) + rest
  {
    Around("[", w, "]", rest);
  }

  lemma FilledArray(items: JsonSyntax.Items, rest: string)
    requires JsonSyntax.ValidItems(items) && items.Item? && ItemsMean(items).Some?
    ensures var v := JsonSyntax.Node.Arr("", items);
      JsonSyntax.Valid(v) && Meaning(v) == Some(Json.Arr(ItemsMean(items).value)) &&
      "[" + (JsonSyntax.ItemsText(items) + ("]" + rest)) == JsonSyntax.TextOf(v) + rest
  {
    hide JsonSyntax.ItemsText, ItemsMean;
    Around("[", JsonSyntax.ItemsText(items), "]", rest);
  }

  lemma {:induction false} ArrayFrom(s: string) returns (v: JsonSyntax.Node)
    requires s != "" && s[0] == '[' && ParseValue(s).Got?
    ensures Spells(v, s, ParseValue(s))
    decreases |s|, 0, 0
  {
    hide ParseElements, SkipWs, JsonSyntax.ItemsText, JsonSyntax.IsWhitespace, JsonSyntax.TextOf, JsonSyntax.Valid, Meaning;
    var w := BlankSkipped(s[1..]);
    var t := SkipWs(s[1..]);
    assert s == "[" + (w + t);
    if t != "" && t[0] == ']' {
      v := JsonSyntax.Node.Arr(w, JsonSyntax.NoItems);
      assert t == "]" + t[1..];
      EmptyArray(w, t[1..]);
    } else {
      var items := ItemsFrom(t, w);
      v := JsonSyntax.Node.Arr("", items);
      FilledArray(items, ParseElements(t).rest);
    }
  }

  lemma Around(open: string, inner: string, close: string, rest: string)
    ensures open + inner + close + rest == open + (inner + (close + rest))
  {
    Assoc(open + inner, close, rest);
    Assoc(open, inner, close + rest);
  }

  /** The items that t, after white space w, reads as. */
  lemma {:induction false} ItemsFrom(t: string, w: string) returns (items: JsonSyntax.Items)
    requires ParseElements(t).Got? && JsonSyntax.IsWhitespace(w)
    ensures JsonSyntax.ValidItems(items) && items.Item? && ItemsMean(items) == Some(ParseElements(t).value)
    ensures w + t == JsonSyntax.ItemsText(items) + ("]" + ParseElements(t).rest)
    decreases |t|, 1
  {
    hide ParseValue, SkipWs, JsonSyntax.TextOf, Meaning, JsonSyntax.Valid, JsonSyntax.IsWhitespace;
    var v := ValueFrom(t);
    var x := ParseValue(t);
    var after := BlankSkipped(x.rest);
    var u := SkipWs(x.rest);
    assert u == [u[0]] + u[1..];
    if u[0] == ']' {
      items := JsonSyntax.Item(w, v, after, JsonSyntax.NoItems);
      assert [x.value] + [] == [x.value];
      ItemText(w, JsonSyntax.TextOf(v), after, "", u);
    } else {
      var w' := BlankSkipped(u[1..]);
      var rest := ItemsFrom(SkipWs(u[1..]), w');
      items := JsonSyntax.Item(w, v, after, rest);
      ItemText(w, JsonSyntax.TextOf(v), after, "," + JsonSyntax.ItemsText(rest), "]" + ParseElements(t).rest);
      Assoc(",", JsonSyntax.ItemsText(rest), "]" + ParseElements(t).rest);
    }
  }

  lemma ItemText(w: string, t: string, after: string, x: string, y: string)
    ensures w + t + after + x + y == w + (t + (after + (x + y)))
    ensures w + t + after + "" + y == w + (t + (after + y))
  {
    Assoc(w + t + after, x, y);
    Assoc(w + t, after, x + y);
    Assoc(w, t, after + (x + y));
    Assoc(w + t, after, y);
    Assoc(w, t, after + y);
    assert w + t + after + "" == w + t + after;
  }

  lemma EmptyObject(w: string, rest: string)
    requires JsonSyntax.IsWhitespace(w)
    ensures var v := JsonSyntax.Node.Obj(w, JsonSyntax.NoMembers);
      JsonSyntax.Valid(v) && Meaning(v) == Some(Json.Obj(map[])) && "{" + (w + ("}" + rest)) == JsonSyntax.TextOf(v) + rest
  {
    Around("{", w, "}", rest);
  }

  lemma FilledObject(members: JsonSyntax.Members, rest: string)
    requires JsonSyntax.ValidMembers(members) && members.Member? && MembersMean(members, map[]).Some?
    ensures var v := JsonSyntax.Node.Obj("", members);
      JsonSyntax.Valid(v) && Meaning(v) == Some(Json.Obj(MembersMean(members, map[]).value)) &&
      "{" + (JsonSyntax.MembersText(members) + ("}" + rest)) == JsonSyntax.TextOf(v) + rest
  {
    hide JsonSyntax.MembersText, MembersMean;
    Around("{", JsonSyntax.MembersText(members), "}", rest);
  }

  lemma {:induction false} ObjectFrom(s: string) returns (v: JsonSyntax.Node)
    requires s != "" && s[0] == '{' && ParseValue(s).Got?
    ensures Spells(v, s, ParseValue(s))
    decreases |s|, 0, 0
  {
    hide ParseMembers, SkipWs, JsonSyntax.MembersText, JsonSyntax.IsWhitespace, JsonSyntax.TextOf, JsonSyntax.Valid, Meaning;
    var w := BlankSkipped(s[1..]);
    var t := SkipWs(s[1..]);
    assert s == "{" + (w + t);
    if t != "" && t[0] == '}' {
      v := JsonSyntax.Node.Obj(w, JsonSyntax.NoMembers);
      assert t == "}" + t[1..];
      EmptyObject(w, t[1..]);
    } else {
      var members := MembersFrom(t, w, map[]);
      v := JsonSyntax.Node.Obj("", members);
      FilledObject(members, ParseMembers(t, map[]).rest);
    }
  }

  lemma {:induction false} MembersFrom(t: string, w: string, acc: map<string, Json>) returns (members: JsonSyntax.Members)
    requires ParseMembers(t, acc).Got? && JsonSyntax.IsWhitespace(w)
    ensures JsonSyntax.ValidMembers(members) && members.Member? && MembersMean(members, acc) == Some(ParseMembers(t, acc).value)
    ensures w + t == JsonSyntax.MembersText(members) + ("}" + ParseMembers(t, acc).rest)
    decreases |t|, 1
  {
    hide ParseValue, ParseString, SkipWs, JsonSyntax.TextOf, Meaning, JsonSyntax.Valid, JsonSyntax.IsWhitespace, Chars,
      JsonSyntax.UnitsText, JsonSyntax.ValidUnits;
    var key := UnitsFrom(t[1..]);
    var k := ParseString(t[1..]);
    var colon := BlankSkipped(k.rest);
    var afterColon := SkipWs(k.rest);
    var gap := BlankSkipped(afterColon[1..]);
    var s := SkipWs(afterColon[1..]);
    var v := ValueFrom(s);
    var x := ParseValue(s);
    var after := BlankSkipped(x.rest);
    var u := SkipWs(x.rest);
    assert t == "\"" + t[1..] && afterColon == ":" + afterColon[1..] && u == [u[0]] + u[1..];
    assert t == JsonSyntax.Quoted(key) + (colon + (":" + (gap + (JsonSyntax.TextOf(v) + (after + u))))) by {
      Around("\"", JsonSyntax.UnitsText(key), "\"", k.rest);
    }
    if u[0] == '}' {
      members := JsonSyntax.Member(w, key, colon, gap, v, after, JsonSyntax.NoMembers);
      MembersSplit(members, u[1..]);
    } else {
      var w' := BlankSkipped(u[1..]);
      var rest := MembersFrom(SkipWs(u[1..]), w', acc[k.value := x.value]);
      members := JsonSyntax.Member(w, key, colon, gap, v, after, rest);
      MembersSplit(members, ParseMembers(t, acc).rest);
    }
  }

  /** The decoder reads a text as a value exactly when the text spells that value: some text of
      the grammar that means it, with white space around it. */
  lemma DecodesExactly(s: string, x: Json)
    ensures Decode(s) == Got(x, "") <==>
      exists v, before, after ::
        JsonSyntax.Valid(v) && Meaning(v) == Some(x) && JsonSyntax.IsWhitespace(before) && JsonSyntax.IsWhitespace(after) &&
        s == before + JsonSyntax.TextOf(v) + after
  {
    hide ParseValue, Meaning, JsonSyntax.TextOf, JsonSyntax.Valid, JsonSyntax.IsWhitespace, SkipWs;
    if Decode(s) == Got(x, "") {
      var before := BlankSkipped(s);
      var v := ValueFrom(SkipWs(s));
      var after := BlankSkipped(ParseValue(SkipWs(s)).rest);
      assert after + "" == after;
      Assoc(before, JsonSyntax.TextOf(v), after);
      assert s == before + JsonSyntax.TextOf(v) + after;
    }
    if v, before, after :|
      JsonSyntax.Valid(v) && Meaning(v) == Some(x) && JsonSyntax.IsWhitespace(before) && JsonSyntax.IsWhitespace(after) &&
      s == before + JsonSyntax.TextOf(v) + after {
      ReadsText(v, before, after);
    }
  }
}
