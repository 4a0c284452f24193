/** What singles the canonical text out among all the texts of a value: none is shorter, its
    escapes are the short ones in lower case, and its keys are in code point order. */
module CanonicalShape {
  import opened Sets
  import opened Text
  import opened Json
  import opened JsonDecode

  /** In the escaping mode a text stays within printable ASCII. */
  predicate Within(s: string, ascii: bool) {
    ascii ==> forall i :: 0 <= i < |s| ==> s[i] <= '~'
  }

  // --- Escapes ---

  /** The text, inside quotes, reads as the one character. */
  predicate Reads(t: string, c: char, ascii: bool) {
    Within(t, ascii) && ParseString(t + "\"") == Got([c], "")
  }

  lemma EscapeLength(c: char, ascii: bool)
    ensures |EscapeChar(c, ascii)| <= (if c as int < 0x10000 then 6 else 12)
    ensures c == '"' || c == '\\' || c == '\n' || c == '\r' || c == '\t' || c as int == 8 || c as int == 12 ==>
      |EscapeChar(c, ascii)| == 2
    ensures c >= ' ' && c != '"' && c != '\\' && (ascii ==> c <= '~') ==> |EscapeChar(c, ascii)| == 1
  {
    hide Hex4;
  }

  lemma UnicodeCost(s: string, ascii: bool)
    requires UnicodeEscape(s).Got?
    ensures |EscapeChar(UnicodeEscape(s).value, ascii)| <= 2 + |s| - |UnicodeEscape(s).rest|
  {
    hide EscapeChar;
    EscapeLength(UnicodeEscape(s).value, ascii);
    assert Hex4Value(s) < 0x10000 ==> |s| >= 4;
    hide Hex4Value;
  }

  /** What an escape reads as never needs a longer text than it was read from. */
  lemma UnescapeCost(s: string, ascii: bool)
    requires Unescape(s).Got?
    ensures |EscapeChar(Unescape(s).value, ascii)| <= 1 + |s| - |Unescape(s).rest|
  {
    hide EscapeChar, UnicodeEscape;
    EscapeLength(Unescape(s).value, ascii);
    if s[0] == 'u' {
      UnicodeCost(s[1..], ascii);
    }
  }

  /** Reading a string takes at least as many characters as printing it. */
  lemma {:induction false} StringCost(s: string, ascii: bool)
    requires ParseString(s).Got? && Within(s, ascii)
    ensures |Escape(ParseString(s).value, ascii)| + 1 <= |s| - |ParseString(s).rest|
    decreases |s|
  {
    hide EscapeChar, Unescape;
    if s[0] == '"' {
      assert ParseString(s).value == "";
    } else if s[0] == '\\' {
      var c, rest := Unescape(s[1..]).value, Unescape(s[1..]).rest;
      UnescapeTail(s[1..]);
      TailOfTail(s, 1, rest);
      TailWithin(s, rest, ascii);
      StringCost(rest, ascii);
      UnescapeCost(s[1..], ascii);
      EscapeFirst(c, ParseString(rest).value, ascii);
    } else {
      StringCost(s[1..], ascii);
      EscapeLength(s[0], ascii);
      EscapeFirst(s[0], ParseString(s[1..]).value, ascii);
    }
  }

  lemma EscapeFirst(c: char, t: string, ascii: bool)
    ensures Escape([c] + t, ascii) == EscapeChar(c, ascii) + Escape(t, ascii)
  {
    assert ([c] + t)[1..] == t;
  }

  ghost predicate Tail(rest: string, s: string) {
    |rest| <= |s| && s[|s| - |rest|..] == rest
  }

  lemma TailOfTail(s: string, n: nat, rest: string)
    requires n <= |s| && Tail(rest, s[n..])
    ensures Tail(rest, s)
  {
  }

  lemma UnicodeTail(s: string)
    requires UnicodeEscape(s).Got?
    ensures Tail(UnicodeEscape(s).rest, s)
  {
    assert Hex4Value(s) < 0x10000 ==> |s| >= 4;
    hide Hex4Value;
  }

  /** What follows an escape is a tail of the text. */
  lemma UnescapeTail(s: string)
    requires Unescape(s).Got?
    ensures Tail(Unescape(s).rest, s)
  {
    hide UnicodeEscape;
    if s[0] == 'u' {
      UnicodeTail(s[1..]);
      TailOfTail(s, 1, Unescape(s).rest);
    }
  }

  lemma TailWithin(s: string, rest: string, ascii: bool)
    requires Tail(rest, s) && Within(s, ascii)
    ensures Within(rest, ascii)
  {
    assert forall i :: 0 <= i < |rest| ==> rest[i] == s[|s| - |rest| + i];
  }

  // --- Numbers ---

  lemma {:induction false} DigitsCost(s: string, acc: nat, ascii: bool)
    requires acc > 0 && Within(s, ascii)
    ensures var (n, rest) := ReadDigits(s, acc);
      n > 0 && |Decimal(n)| - |Decimal(acc)| <= |s| - |rest| && Within(rest, ascii)
    decreases |s|
  {
    if s != "" && IsDigit(s[0]) {
      var d := s[0] as int - '0' as int;
      assert Decimal(10 * acc + d) == Decimal((10 * acc + d) / 10) + [DigitChar((10 * acc + d) % 10)];
      assert (10 * acc + d) / 10 == acc;
      DigitsCost(s[1..], 10 * acc + d, ascii);
    }
  }

  lemma NatCost(s: string, ascii: bool)
    requires ParseNat(s).Got? && Within(s, ascii)
    ensures |Decimal(ParseNat(s).value)| <= |s| - |ParseNat(s).rest| && Within(ParseNat(s).rest, ascii)
  {
    if s[0] != '0' {
      DigitsCost(s[1..], s[0] as int - '0' as int, ascii);
    }
  }

  lemma IntCost(s: string, ascii: bool)
    requires ParseInt(s).Got? && Within(s, ascii)
    ensures |IntText(ParseInt(s).value)| <= |s| - |ParseInt(s).rest| && Within(ParseInt(s).rest, ascii)
  {
    var negative := s != "" && s[0] == '-';
    NatCost(if negative then s[1..] else s, ascii);
    hide ParseNat;
  }

  // --- Lists and members ---

  /** The length of a list of values between its brackets. */
  function ListLength(vs: seq<Json>, ascii: bool): nat {
    if vs == [] then 0
    else |Canonical(vs[0], ascii)| + (if |vs| == 1 then 0 else 1 + ListLength(vs[1..], ascii))
  }

  lemma {:induction false} ElementsLength(v: Json, i: nat, ascii: bool)
    requires v.Arr? && i <= |v.elems|
    ensures |Elements(v, i, ascii)| == ListLength(v.elems[i..], ascii)
    decreases |v.elems| - i
  {
    hide Canonical;
    if i < |v.elems| {
      ElementsLength(v, i + 1, ascii);
      assert v.elems[i..][1..] == v.elems[i + 1..];
    }
  }

  /** What a member takes with the comma or brace after it. */
  function MemberCost(k: string, v: Json, ascii: bool): nat {
    |Quote(k, ascii)| + 2 + |Canonical(v, ascii)|
  }

  ghost function Weight(fields: map<string, Json>, ascii: bool): nat
    decreases |fields|
  {
    if fields == map[] then 0
    else
      NonEmptyKeys(fields);
      var k := Pick(fields.Keys);
      MemberCost(k, fields[k], ascii) + Weight(fields - {k}, ascii)
  }

  lemma NonEmptyKeys(fields: map<string, Json>)
    requires fields != map[]
    ensures fields.Keys != {}
    ensures forall k :: k in fields ==> |fields - {k}| < |fields|
  {
    assert exists k :: k in fields;
    forall k | k in fields ensures |fields - {k}| < |fields| {
      assert fields.Keys == (fields - {k}).Keys + {k};
    }
  }

  lemma WeightPicked(fields: map<string, Json>, k: string, ascii: bool) returns (j: string)
    requires k in fields
    ensures j in fields && Weight(fields, ascii) == MemberCost(j, fields[j], ascii) + Weight(fields - {j}, ascii)
    ensures |fields - {j}| < |fields| && |fields - {k}| < |fields|
  {
    NonEmptyKeys(fields);
    j := Pick(fields.Keys);
  }

  lemma {:induction false} WeightWithout(fields: map<string, Json>, k: string, ascii: bool)
    requires k in fields
    ensures Weight(fields, ascii) == MemberCost(k, fields[k], ascii) + Weight(fields - {k}, ascii)
    decreases |fields|
  {
    hide MemberCost, Weight;
    var j := WeightPicked(fields, k, ascii);
    if j != k {
      var a, b := fields - {j}, fields - {k};
      assert a - {k} == b - {j} && a[k] == fields[k] && b[j] == fields[j];
      hide *;
      WeightWithout(a, k, ascii);
      WeightWithout(b, j, ascii);
    }
  }

  lemma WeightUpdate(fields: map<string, Json>, k: string, v: Json, ascii: bool)
    ensures Weight(fields[k := v], ascii) <= Weight(fields, ascii) + MemberCost(k, v, ascii)
  {
    hide MemberCost, Weight;
    WeightWithout(fields[k := v], k, ascii);
    assert fields[k := v] - {k} == fields - {k};
    if k in fields {
      WeightWithout(fields, k, ascii);
    } else {
      assert fields - {k} == fields;
    }
  }

  /** The same along the printed keys. */
  lemma {:induction false} MembersLength(v: Json, s: set<string>, ascii: bool)
    requires v.Obj? && s <= v.fields.Keys
    ensures |Members(v, SortedKeys(s), ascii)| == (if s == {} then 0 else Weight(Only(v.fields, s), ascii) - 1)
    decreases |s|
  {
    hide Canonical, Quote, Weight;
    if s != {} {
      var k := Least(s);
      var rest := s - {k};
      MembersLength(v, rest, ascii);
      WeightWithout(Only(v.fields, s), k, ascii);
      assert Only(v.fields, s) - {k} == Only(v.fields, rest);
      assert SortedKeys(s)[1..] == SortedKeys(rest);
      NothingWeighs(Only(v.fields, rest), ascii);
      if rest == {} {
        assert SortedKeys(rest) == [];
      } else {
        assert SortedKeys(rest) != [] by { assert Least(rest) in SortedKeys(rest); }
      }
    }
  }

  lemma NothingWeighs(fields: map<string, Json>, ascii: bool)
    ensures fields == map[] ==> Weight(fields, ascii) == 0
    ensures fields.Keys == {} ==> fields == map[]
  {
    if fields.Keys == {} {
      assert fields == map[];
    }
  }

  function Only(fields: map<string, Json>, s: set<string>): map<string, Json> {
    map k | k in fields && k in s :: fields[k]
  }

  lemma ObjectLength(fields: map<string, Json>, ascii: bool)
    ensures |Canonical(Obj(fields), ascii)| <= 2 + (if fields == map[] then 0 else Weight(fields, ascii) - 1)
    ensures fields != map[] ==> Weight(fields, ascii) > 0
  {
    MembersLength(Obj(fields), fields.Keys, ascii);
    assert Only(fields, fields.Keys) == fields;
    NothingWeighs(fields, ascii);
    hide Weight, Members;
    if fields != map[] {
      NonEmptyKeys(fields);
      var k := Pick(fields.Keys);
      WeightWithout(fields, k, ascii);
    }
  }

  lemma ArrayLength(vs: seq<Json>, ascii: bool)
    ensures |Canonical(Arr(vs), ascii)| == 2 + ListLength(vs, ascii)
  {
    ElementsLength(Arr(vs), 0, ascii);
    assert Arr(vs).elems[0..] == vs;
    hide Elements, ListLength;
  }

  // --- No text of a value is shorter than its canonical one ---

  lemma SkipWithin(s: string, ascii: bool)
    requires Within(s, ascii)
    ensures Within(SkipWs(s), ascii)
  {
  }

  lemma {:induction false} StringWithin(s: string, ascii: bool)
    requires ParseString(s).Got? && Within(s, ascii)
    ensures Within(ParseString(s).rest, ascii)
    decreases |s|
  {
    hide Unescape;
    if s[0] == '"' {
    } else if s[0] == '\\' {
      UnescapeTail(s[1..]);
      TailOfTail(s, 1, Unescape(s[1..]).rest);
      TailWithin(s, Unescape(s[1..]).rest, ascii);
      StringWithin(Unescape(s[1..]).rest, ascii);
    } else {
      StringWithin(s[1..], ascii);
    }
  }

  lemma QuotedCost(s: string, ascii: bool)
    requires s != "" && s[0] == '"' && ParseString(s[1..]).Got? && Within(s, ascii)
    ensures var p := ParseString(s[1..]); |Quote(p.value, ascii)| <= |s| - |p.rest| && Within(p.rest, ascii)
  {
    StringCost(s[1..], ascii);
    StringWithin(s[1..], ascii);
    hide ParseString, Escape;
  }

  lemma {:induction false} ValueCost(s: string, ascii: bool)
    requires ParseValue(s).Got? && Within(s, ascii)
    ensures |Canonical(ParseValue(s).value, ascii)| <= |s| - |ParseValue(s).rest| && Within(ParseValue(s).rest, ascii)
    decreases |s|, 0
  {
    hide Canonical, ParseString, ParseInt, ParseElements, ParseMembers, SkipWs, IntText;
    if s[0] == '"' {
      QuotedCost(s, ascii);
      assert Canonical(ParseValue(s).value, ascii) == Quote(ParseValue(s).value.s, ascii) by { LeafText(ParseValue(s).value, ascii); }
    } else if s[0] == '[' {
      var t := SkipWs(s[1..]);
      SkipWithin(s[1..], ascii);
      ArrayLength(ParseValue(s).value.elems, ascii);
      if t == "" || t[0] != ']' {
        ElementsCost(t, ascii);
      }
    } else if s[0] == '{' {
      var t := SkipWs(s[1..]);
      SkipWithin(s[1..], ascii);
      ObjectLength(ParseValue(s).value.fields, ascii);
      if t == "" || t[0] != '}' {
        MembersCost(t, map[], ascii);
        NothingWeighs(map[], ascii);
      }
    } else {
      LeafText(ParseValue(s).value, ascii);
      if !("null" <= s) && !("true" <= s) && !("false" <= s) {
        IntCost(s, ascii);
      }
    }
  }

  lemma LeafText(v: Json, ascii: bool)
    ensures v.Str? ==> Canonical(v, ascii) == Quote(v.s, ascii)
    ensures v.Int? ==> Canonical(v, ascii) == IntText(v.n)
    ensures v.Null? ==> Canonical(v, ascii) == "null"
    ensures v.Bool? ==> Canonical(v, ascii) == if v.b then "true" else "false"
  {
    hide Quote, IntText;
  }

  lemma {:induction false} ElementsCost(s: string, ascii: bool)
    requires ParseElements(s).Got? && Within(s, ascii)
    ensures var p := ParseElements(s);
      p.value != [] && ListLength(p.value, ascii) + 1 <= |s| - |p.rest| && Within(p.rest, ascii)
    decreases |s|, 1
  {
    hide Canonical, ParseValue, SkipWs;
    ValueCost(s, ascii);
    var v, rest := ParseValue(s).value, ParseValue(s).rest;
    SkipWithin(rest, ascii);
    var t := SkipWs(rest);
    if t[0] == ',' {
      SkipWithin(t[1..], ascii);
      ElementsCost(SkipWs(t[1..]), ascii);
      var vs := ParseElements(SkipWs(t[1..])).value;
      assert ([v] + vs)[1..] == vs;
    }
  }

  lemma {:induction false} MembersCost(s: string, acc: map<string, Json>, ascii: bool)
    requires ParseMembers(s, acc).Got? && Within(s, ascii)
    ensures var p := ParseMembers(s, acc);
      Weight(p.value, ascii) <= Weight(acc, ascii) + |s| - |p.rest| && Within(p.rest, ascii) && p.value != map[]
    decreases |s|, 1
  {
    hide Canonical, ParseValue, ParseString, SkipWs, Weight, Quote;
    QuotedCost(s, ascii);
    var k, afterKey := ParseString(s[1..]).value, ParseString(s[1..]).rest;
    SkipWithin(afterKey, ascii);
    var t := SkipWs(afterKey);
    SkipWithin(t[1..], ascii);
    ValueCost(SkipWs(t[1..]), ascii);
    var v, afterValue := ParseValue(SkipWs(t[1..])).value, ParseValue(SkipWs(t[1..])).rest;
    SkipWithin(afterValue, ascii);
    var u := SkipWs(afterValue);
    WeightUpdate(acc, k, v, ascii);
    if u[0] == ',' {
      SkipWithin(u[1..], ascii);
      MembersCost(SkipWs(u[1..]), acc[k := v], ascii);
    } else {
      assert k in acc[k := v];
    }
  }

  /** No text of a value is shorter than its canonical text, in either escaping mode. */
  lemma CanonicalShortest(s: string, ascii: bool)
    requires Decode(s).Got? && Within(s, ascii)
    ensures |Canonical(Decode(s).value, ascii)| <= |s|
  {
    SkipWithin(s, ascii);
    ValueCost(SkipWs(s), ascii);
    hide Canonical, ParseValue;
  }

  // --- The escapes are the short ones, in lower case ---

  /** No letter of it is in upper case. */
  predicate LowerCase(t: string) {
    forall i :: 0 <= i < |t| ==> !('A' <= t[i] <= 'Z')
  }

  lemma LowerDigit(c: char)
    requires HexDigit(c) < 16 && !('A' <= c <= 'Z')
    ensures HEX_DIGITS[HexDigit(c)] == c
  {
  }

  lemma NibblesOf(a: nat, b: nat, c: nat, d: nat)
    requires a < 16 && b < 16 && c < 16 && d < 16
    ensures var n := 0x1000 * a + 0x100 * b + 0x10 * c + d;
      n < 0x10000 && n / 0x1000 == a && n / 0x100 % 16 == b && n / 0x10 % 16 == c && n % 16 == d
  {
    var n := 0x1000 * a + 0x100 * b + 0x10 * c + d;
    assert n / 0x10 == 0x100 * a + 0x10 * b + c && n / 0x100 == 0x10 * a + b;
  }

  lemma PrintedDigits(a: nat, b: nat, c: nat, d: nat)
    requires a < 16 && b < 16 && c < 16 && d < 16
    ensures 0x1000 * a + 0x100 * b + 0x10 * c + d < 0x10000
    ensures Hex4(0x1000 * a + 0x100 * b + 0x10 * c + d) == [HEX_DIGITS[a], HEX_DIGITS[b], HEX_DIGITS[c], HEX_DIGITS[d]]
  {
    NibblesOf(a, b, c, d);
  }

  /** Four lower-case digits of a number are the four that are printed for it. */
  lemma Hex4Unique(s: string)
    requires Hex4Value(s) < 0x10000 && LowerCase(s[..4])
    ensures s[..4] == Hex4(Hex4Value(s))
  {
    hide HexDigit, HEX_DIGITS, Hex4;
    var t := s[..4];
    assert t[0] == s[0] && t[1] == s[1] && t[2] == s[2] && t[3] == s[3];
    LowerDigit(s[0]);
    LowerDigit(s[1]);
    LowerDigit(s[2]);
    LowerDigit(s[3]);
    PrintedDigits(HexDigit(s[0]), HexDigit(s[1]), HexDigit(s[2]), HexDigit(s[3]));
    assert t == [t[0], t[1], t[2], t[3]];
  }

  lemma Hex4Lower(n: nat)
    requires n < 0x10000
    ensures LowerCase(Hex4(n)) && Within(Hex4(n), true)
  {
    DigitLower(n / 0x1000);
    DigitLower(n / 0x100 % 16);
    DigitLower(n / 0x10 % 16);
    DigitLower(n % 16);
    hide HEX_DIGITS;
  }

  lemma DigitLower(d: nat)
    requires d < 16
    ensures !('A' <= HEX_DIGITS[d] <= 'Z') && HEX_DIGITS[d] <= '~'
  {
  }

  /** The printed escape is a text of its character, in lower case. */
  lemma EscapeReads(c: char, ascii: bool)
    ensures Reads(EscapeChar(c, ascii), c, ascii)
    ensures EscapeChar(c, ascii)[0] == '\\' ==> LowerCase(EscapeChar(c, ascii))
  {
    EscapeRead(c, ascii, "\"");
    QuoteRead("");
    assert "\"" + "" == "\"";
    assert [c] + "" == [c];
    EscapeInMode(c, ascii);
    hide ParseString, EscapeChar, Within;
  }

  predicate InMode(t: string) {
    LowerCase(t) && Within(t, true)
  }

  lemma EscapeInMode(c: char, ascii: bool)
    ensures Within(EscapeChar(c, ascii), ascii)
    ensures EscapeChar(c, ascii)[0] == '\\' ==> LowerCase(EscapeChar(c, ascii))
  {
    if EscapeChar(c, ascii) == [c] {
      OneInMode(c, ascii);
    } else {
      LongInMode(c, ascii);
      assert InMode(EscapeChar(c, ascii));
      hide EscapeChar;
    }
  }

  lemma OneInMode(c: char, ascii: bool)
    requires EscapeChar(c, ascii) == [c]
    ensures c != '\\' && Within([c], ascii)
  {
    hide Hex4;
  }

  lemma LongInMode(c: char, ascii: bool)
    requires EscapeChar(c, ascii) != [c]
    ensures InMode(EscapeChar(c, ascii))
  {
    hide Hex4, InMode;
    var n := c as int;
    ShortInMode();
    if n < 0x10000 {
      Hex4Lower(n);
      SingleInMode(Hex4(n));
    } else {
      var h, l := Hex4(0xD800 + (n - 0x10000) / 0x400), Hex4(0xDC00 + (n - 0x10000) % 0x400);
      Hex4Lower(0xD800 + (n - 0x10000) / 0x400);
      Hex4Lower(0xDC00 + (n - 0x10000) % 0x400);
      PairInMode(h, l);
    }
    hide Within, LowerCase;
  }

  lemma ShortInMode()
    ensures InMode("\\\"") && InMode("\\\\") && InMode("\\n") && InMode("\\r") && InMode("\\t") && InMode("\\f") && InMode("\\b")
  {
  }

  lemma SingleInMode(h: string)
    requires LowerCase(h) && Within(h, true)
    ensures InMode("\\u" + h)
  {
  }

  lemma PairInMode(h: string, l: string)
    requires LowerCase(h) && Within(h, true) && LowerCase(l) && Within(l, true)
    ensures InMode("\\u" + h + "\\u" + l)
  {
  }

  /** No text of the character is shorter. */
  lemma EscapeLeast(c: char, ascii: bool, t: string)
    requires Reads(t, c, ascii)
    ensures |EscapeChar(c, ascii)| <= |t|
  {
    StringCost(t + "\"", ascii) by { hide ParseString; }
    EscapeFirst(c, "", ascii);
    hide ParseString, EscapeChar;
    assert [c] + "" == [c];
    assert EscapeChar(c, ascii) + "" == EscapeChar(c, ascii);
  }

  lemma NothingRead(s: string)
    requires ParseString(s) == Got("", "")
    ensures s == "\""
  {
    hide Unescape;
    assert s[0] == '"' && s[1..] == "";
    assert s == [s[0]] + s[1..];
  }

  lemma OneChar(d: char, t: string, c: char)
    ensures [d] + t == [c] ==> d == c && t == ""
  {
    assert ([d] + t)[0] == d && |[d] + t| == 1 + |t|;
  }

  lemma LoneBackslash()
    ensures Unescape("\"") == Got('"', "")
  {
    assert "\""[1..] == "";
  }

  lemma ReadsOne(t: string, c: char, ascii: bool)
    requires Reads(t, c, ascii)
    ensures t != "" && (t[0] != '\\' ==> t == [c] && c >= ' ' && c != '"')
    ensures t[0] == '\\' ==> Unescape(t[1..] + "\"") == Got(c, "\"")
  {
    hide Unescape;
    var s := t + "\"";
    assert t != "";
    assert s[0] == t[0] && s[1..] == t[1..] + "\"";
    if t[0] == '\\' {
      var d, rest := Unescape(s[1..]).value, Unescape(s[1..]).rest;
      OneChar(d, ParseString(rest).value, c);
      NothingRead(rest);
    } else {
      NothingRead(s[1..]);
      assert t == [t[0]] + t[1..];
    }
  }

  /** A lower-case escape of the same length is the printed one. */
  lemma EscapeUnique(c: char, ascii: bool, t: string)
    requires Reads(t, c, ascii) && t != "" && t[0] == '\\' && LowerCase(t) && |t| == |EscapeChar(c, ascii)|
    ensures t == EscapeChar(c, ascii)
  {
    ReadsOne(t, c, ascii);
    hide Reads, ParseString, LowerCase;
    var s := t[1..] + "\"";
    LoneBackslash();
    assert |t| == 1 ==> s == "\"";
    assert s[0] == t[1];
    if t[1] == 'u' {
      assert s[1..] == t[2..] + "\"";
      UnicodeUnique(c, ascii, t);
    } else {
      hide UnicodeEscape;
      assert s[1..] == "\"";
      assert |t| == 2 && t == [t[0], t[1]];
      hide Hex4;
    }
  }

  lemma UnicodeUnique(c: char, ascii: bool, t: string)
    requires |t| > 1 && t[0] == '\\' && t[1] == 'u' && LowerCase(t) && |t| == |EscapeChar(c, ascii)|
    requires UnicodeEscape(t[2..] + "\"") == Got(c, "\"")
    ensures t == EscapeChar(c, ascii)
  {
    hide Hex4Value, Hex4, EscapeChar, LowerCase;
    var s := t[2..] + "\"";
    var n := Hex4Value(s);
    HexLength(s);
    if n < 0xD800 || 0xE000 <= n {
      assert s[4..] == "\"" && |t| == 6;
      assert s[..4] == t[2..6];
      LowerPart(t, 2, 6);
      Hex4Unique(s);
      assert t == [t[0], t[1]] + t[2..6];
      SixLong(c, ascii);
    } else {
      assert s[10..] == "\"" && |t| == 12;
      HexLength(s[6..]);
      assert s[..4] == t[2..6] && s[6..][..4] == t[8..12] && t[6] == s[4] && t[7] == s[5];
      LowerPart(t, 2, 6);
      LowerPart(t, 8, 12);
      Hex4Unique(s);
      Hex4Unique(s[6..]);
      assert t == [t[0], t[1]] + t[2..6] + [t[6], t[7]] + t[8..12];
      SurrogatesOf(n, Hex4Value(s[6..]));
      TwelveLong(c, ascii);
    }
  }

  lemma HexLength(s: string)
    ensures Hex4Value(s) < 0x10000 ==> |s| >= 4
  {
  }

  lemma LowerPart(t: string, i: nat, j: nat)
    requires i <= j <= |t| && LowerCase(t)
    ensures LowerCase(t[i..j])
  {
  }

  lemma SixLong(c: char, ascii: bool)
    requires |EscapeChar(c, ascii)| == 6
    ensures c as int < 0x10000 && EscapeChar(c, ascii) == ['\\', 'u'] + Hex4(c as int)
  {
    hide Hex4;
  }

  lemma TwelveLong(c: char, ascii: bool)
    requires |EscapeChar(c, ascii)| == 12
    ensures c as int >= 0x10000
    ensures var n := c as int;
      EscapeChar(c, ascii) ==
        ['\\', 'u'] + Hex4(0xD800 + (n - 0x10000) / 0x400) + ['\\', 'u'] + Hex4(0xDC00 + (n - 0x10000) % 0x400)
  {
    hide Hex4;
  }

  lemma SurrogatesOf(n: nat, m: nat)
    requires 0xD800 <= n < 0xDC00 && 0xDC00 <= m < 0xE000
    ensures var k := 0x10000 + (n - 0xD800) * 0x400 + (m - 0xDC00);
      0x10000 <= k < 0x110000 && 0xD800 + (k - 0x10000) / 0x400 == n && 0xDC00 + (k - 0x10000) % 0x400 == m
  {
  }

  /** A character is printed as the shortest text that reads as it in the mode, in lower case. */
  lemma EscapeExactly(c: char, ascii: bool, t: string)
    ensures t == EscapeChar(c, ascii) <==>
      Reads(t, c, ascii) && (t[0] == '\\' ==> LowerCase(t)) && forall s :: Reads(s, c, ascii) ==> |t| <= |s|
  {
    EscapeReads(c, ascii);
    forall s | Reads(s, c, ascii) ensures |EscapeChar(c, ascii)| <= |s| {
      EscapeLeast(c, ascii, s);
    }
    if Reads(t, c, ascii) && |t| == |EscapeChar(c, ascii)| {
      ReadsOne(t, c, ascii);
      if t[0] == '\\' {
        if LowerCase(t) {
          EscapeUnique(c, ascii, t);
        }
      } else {
        hide Reads, Hex4;
      }
    }
    hide Reads, EscapeChar, LowerCase;
  }

  // --- Keys and separators ---

  /** Code point order: at the first difference the smaller character, or the end of the text. */
  lemma {:induction false} LexExactly(a: string, b: string)
    ensures LexLeq(a, b) <==>
      exists n :: 0 <= n <= |a| && n <= |b| && a[..n] == b[..n] && (n == |a| || (n < |b| && a[n] < b[n]))
    decreases |a|
  {
    SameHead(a, b);
    if a == [] {
      assert a[..0] == b[..0];
    } else if b != [] && a[0] == b[0] {
      LexExactly(a[1..], b[1..]);
      if n :| 0 <= n <= |a[1..]| && n <= |b[1..]| && a[1..][..n] == b[1..][..n] && (n == |a[1..]| || (n < |b[1..]| && a[1..][n] < b[1..][n])) {
        assert a[..n + 1] == [a[0]] + a[1..][..n] && b[..n + 1] == [b[0]] + b[1..][..n];
        assert a[..n + 1] == b[..n + 1] && (n + 1 == |a| || (n + 1 < |b| && a[n + 1] < b[n + 1]));
      }
      if n :| 0 <= n <= |a| && n <= |b| && a[..n] == b[..n] && (n == |a| || (n < |b| && a[n] < b[n])) {
        assert n > 0;
        assert a[1..][..n - 1] == a[..n][1..] && b[1..][..n - 1] == b[..n][1..];
        assert a[1..][..n - 1] == b[1..][..n - 1];
        assert n - 1 == |a[1..]| || (n - 1 < |b[1..]| && a[1..][n - 1] < b[1..][n - 1]);
      }
    } else {
      assert a[..0] == b[..0];
    }
  }

  lemma SameHead(a: string, b: string)
    ensures forall n :: 0 < n <= |a| && n <= |b| && a[..n] == b[..n] ==> a[0] == b[0]
  {
    forall n | 0 < n <= |a| && n <= |b| && a[..n] == b[..n] ensures a[0] == b[0] {
      assert a[..n][0] == b[..n][0];
    }
  }

  /** Texts with commas between them. */
  function Joined(texts: seq<string>): string {
    if texts == [] then "" else if |texts| == 1 then texts[0] else Joined(texts[..|texts| - 1]) + "," + texts[|texts| - 1]
  }

  lemma {:induction false} JoinedFirst(texts: seq<string>)
    requires |texts| > 1
    ensures Joined(texts) == texts[0] + "," + Joined(texts[1..])
    decreases |texts|
  {
    var n := |texts| - 1;
    if n > 1 {
      JoinedFirst(texts[..n]);
      assert texts[..n][1..] == texts[1..][..n - 1];
      assert texts[1..][n - 1] == texts[n];
    }
  }

  /** There is one listing of a set of keys in code point order. */
  lemma {:induction false} OneListing(keys: seq<string>, s: set<string>)
    requires Increasing(keys) && forall k :: k in keys <==> k in s
    ensures keys == SortedKeys(s)
    decreases |s|
  {
    if keys == [] {
      assert s == {};
    } else {
      assert keys[0] in s;
      forall x | x in s ensures LexLeq(keys[0], x) {
        var i :| 0 <= i < |keys| && keys[i] == x;
        LexReflexive(x);
      }
      LeastIsUnique(s);
      assert IsLeast(keys[0], s);
      assert Least(s) == keys[0];
      assert forall k :: k in keys[1..] <==> k in s - {keys[0]};
      OneListing(keys[1..], s - {keys[0]});
    }
  }

  function MemberTexts(fields: map<string, Json>, keys: seq<string>, ascii: bool): seq<string>
    requires forall k :: k in keys ==> k in fields
  {
    seq(|keys|, i requires 0 <= i < |keys| => Quote(keys[i], ascii) + ":" + Canonical(fields[keys[i]], ascii))
  }

  lemma {:induction false} MembersJoined(v: Json, keys: seq<string>, ascii: bool)
    requires v.Obj? && forall k :: k in keys ==> k in v.fields
    ensures Members(v, keys, ascii) == Joined(MemberTexts(v.fields, keys, ascii))
    decreases |keys|
  {
    hide Canonical, Quote;
    var texts := MemberTexts(v.fields, keys, ascii);
    if |keys| > 1 {
      MembersJoined(v, keys[1..], ascii);
      JoinedFirst(texts);
      assert texts[1..] == MemberTexts(v.fields, keys[1..], ascii);
    }
  }

  /** An object's text is its members in code point order of the keys, with single commas and
      colons and nothing else between them. */
  lemma ObjectText(fields: map<string, Json>, keys: seq<string>, ascii: bool)
    requires Increasing(keys) && forall k :: k in keys <==> k in fields
    ensures Canonical(Obj(fields), ascii) == "{" + Joined(MemberTexts(fields, keys, ascii)) + "}"
  {
    OneListing(keys, fields.Keys);
    MembersJoined(Obj(fields), keys, ascii);
    hide Members, Joined;
  }

  lemma {:induction false} ElementsJoined(v: Json, i: nat, ascii: bool)
    requires v.Arr? && i <= |v.elems|
    ensures Elements(v, i, ascii) == Joined(seq(|v.elems| - i, j requires 0 <= j < |v.elems| - i => Canonical(v.elems[i + j], ascii)))
    decreases |v.elems| - i
  {
    hide Canonical;
    if i < |v.elems| {
      ElementsJoined(v, i + 1, ascii);
      var texts := seq(|v.elems| - i, j requires 0 <= j < |v.elems| - i => Canonical(v.elems[i + j], ascii));
      assert texts[1..] == seq(|v.elems| - (i + 1), j requires 0 <= j < |v.elems| - (i + 1) => Canonical(v.elems[i + 1 + j], ascii));
      if |texts| > 1 {
        JoinedFirst(texts);
      }
    }
  }

  /** Likewise an array's text. */
  lemma ArrayText(vs: seq<Json>, ascii: bool)
    ensures Canonical(Arr(vs), ascii) == "[" + Joined(seq(|vs|, j requires 0 <= j < |vs| => Canonical(vs[j], ascii))) + "]"
  {
    ElementsJoined(Arr(vs), 0, ascii);
    assert seq(|vs| - 0, j requires 0 <= j < |vs| - 0 => Canonical(Arr(vs).elems[0 + j], ascii)) ==
           seq(|vs|, j requires 0 <= j < |vs| => Canonical(vs[j], ascii));
    hide Elements, Joined;
  }
}
