/** The escaping printer of `tclk.canonical_json` and the raw one of `br_fold._canon`
    give the same text exactly when every string stays below code point 0x7f. */
module AsciiAgreement {
  import opened Json
  import opened Text

  predicate IsAscii(t: string) {
    forall i :: 0 <= i < |t| ==> t[i] <= '~'
  }

  /** Every string in the value, keys included, stays below 0x7f. */
  predicate Plain(v: Json) {
    match v
    case Str(s) => IsAscii(s)
    case Arr(elems) => forall e :: e in elems ==> Plain(e)
    case Obj(fields) => forall k :: k in fields ==> IsAscii(k) && Plain(fields[k])
    case _ => true
  }

  lemma AsciiConcat(a: string, b: string)
    ensures IsAscii(a + b) <==> IsAscii(a) && IsAscii(b)
  {
    if IsAscii(a + b) {
      forall i | 0 <= i < |a| ensures a[i] <= '~' { assert a[i] == (a + b)[i]; }
      forall i | 0 <= i < |b| ensures b[i] <= '~' { assert b[i] == (a + b)[|a| + i]; }
    }
  }

  lemma Hex4Ascii(n: nat)
    requires n < 0x10000
    ensures IsAscii(Hex4(n))
  {
    assert IsAscii(HEX_DIGITS);
    Nibble(n / 0x1000);
    Nibble(n / 0x100 % 16);
    Nibble(n / 0x10 % 16);
    Nibble(n % 16);
  }

  lemma Nibble(d: nat)
    requires d < 16
    ensures HEX_DIGITS[d] <= '~'
  {
  }

  lemma EscapedChar(c: char)
    ensures IsAscii(EscapeChar(c, true))
    ensures IsAscii(EscapeChar(c, false)) <==> c <= '~'
    ensures c <= '~' ==> EscapeChar(c, true) == EscapeChar(c, false)
  {
    var n := c as int;
    hide Hex4;
    if n < 0x10000 {
      Hex4Ascii(n);
      AsciiConcat("\\u", Hex4(n));
    } else {
      var hi, lo := 0xD800 + (n - 0x10000) / 0x400, 0xDC00 + (n - 0x10000) % 0x400;
      Hex4Ascii(hi);
      Hex4Ascii(lo);
      AsciiConcat("\\u", Hex4(hi));
      AsciiConcat("\\u" + Hex4(hi), "\\u");
      AsciiConcat("\\u" + Hex4(hi) + "\\u", Hex4(lo));
      assert EscapeChar(c, false) == [c] && [c][0] > '~';
    }
  }

  lemma {:induction false} Escaped(s: string)
    ensures IsAscii(Escape(s, true))
    ensures IsAscii(Escape(s, false)) <==> IsAscii(s)
    ensures IsAscii(s) ==> Escape(s, true) == Escape(s, false)
  {
    if s != "" {
      Escaped(s[1..]);
      EscapedChar(s[0]);
      AsciiConcat(EscapeChar(s[0], true), Escape(s[1..], true));
      AsciiConcat(EscapeChar(s[0], false), Escape(s[1..], false));
      AsciiConcat([s[0]], s[1..]);
      hide EscapeChar;
      assert s == [s[0]] + s[1..];
    }
  }

  lemma Quoted(s: string)
    ensures IsAscii(Quote(s, true))
    ensures IsAscii(Quote(s, false)) <==> IsAscii(s)
    ensures IsAscii(s) ==> Quote(s, true) == Quote(s, false)
  {
    hide Escape;
    Escaped(s);
    AsciiConcat("\"" + Escape(s, true), "\"");
    AsciiConcat("\"" + Escape(s, false), "\"");
    AsciiConcat("\"", Escape(s, true));
    AsciiConcat("\"", Escape(s, false));
  }

  lemma {:induction false} DecimalAscii(n: nat)
    ensures IsAscii(Decimal(n))
  {
    if n >= 10 {
      DecimalAscii(n / 10);
      AsciiConcat(Decimal(n / 10), [DigitChar(n % 10)]);
    }
  }

  /** What holds of a value's two texts. */
  ghost predicate Related(escaped: string, raw: string, plain: bool) {
    IsAscii(escaped) && (IsAscii(raw) <==> plain) && (plain ==> escaped == raw)
  }

  lemma RelatedConcat(e1: string, r1: string, p1: bool, e2: string, r2: string, p2: bool)
    requires Related(e1, r1, p1) && Related(e2, r2, p2)
    ensures Related(e1 + e2, r1 + r2, p1 && p2)
  {
    AsciiConcat(e1, e2);
    AsciiConcat(r1, r2);
  }

  lemma RelatedBracketed(open: string, e: string, r: string, p: bool, close: string)
    requires Related(e, r, p) && IsAscii(open) && IsAscii(close)
    ensures Related(open + e + close, open + r + close, p)
  {
    RelatedConcat(open, open, true, e, r, p);
    RelatedConcat(open + e, open + r, p, close, close, true);
  }

  lemma {:induction false} TextsRelated(v: Json)
    ensures Related(Canonical(v, true), Canonical(v, false), Plain(v))
    decreases v, 1, 0
  {
    match v
    case Str(s) => Quoted(s);
    case Int(n) =>
      DecimalAscii(if n < 0 then -n else n);
      AsciiConcat("-", Decimal(if n < 0 then -n else n));
    case Arr(elems) =>
      ElementsRelated(v, 0);
      RelatedBracketed("[", Elements(v, 0, true), Elements(v, 0, false), PlainFrom(v, 0), "]");
    case Obj(fields) =>
      var keys := SortedKeys(fields.Keys);
      MembersRelated(v, keys);
      RelatedBracketed("{", Members(v, keys, true), Members(v, keys, false), PlainMembers(v, keys), "}");
    case _ =>
  }

  ghost predicate PlainFrom(v: Json, i: nat)
    requires v.Arr? && i <= |v.elems|
  {
    forall j :: i <= j < |v.elems| ==> Plain(v.elems[j])
  }

  ghost predicate PlainMembers(v: Json, keys: seq<string>)
    requires v.Obj? && forall k :: k in keys ==> k in v.fields
  {
    forall k :: k in keys ==> IsAscii(k) && Plain(v.fields[k])
  }

  lemma {:induction false} ElementsRelated(v: Json, i: nat)
    requires v.Arr? && i <= |v.elems|
    ensures Related(Elements(v, i, true), Elements(v, i, false), PlainFrom(v, i))
    decreases v, 0, |v.elems| - i
  {
    if i < |v.elems| {
      var e := v.elems[i];
      TextsRelated(e);
      ElementsRelated(v, i + 1);
      hide Canonical, Plain, IsAscii;
      assert PlainFrom(v, i) <==> Plain(e) && PlainFrom(v, i + 1);
      if i + 1 < |v.elems| {
        CommaAscii();
        RelatedConcat(",", ",", true, Elements(v, i + 1, true), Elements(v, i + 1, false), PlainFrom(v, i + 1));
        RelatedConcat(Canonical(e, true), Canonical(e, false), Plain(e),
                      "," + Elements(v, i + 1, true), "," + Elements(v, i + 1, false), PlainFrom(v, i + 1));
      } else {
        assert Canonical(e, true) + "" == Canonical(e, true) && Canonical(e, false) + "" == Canonical(e, false);
      }
    }
  }

  lemma CommaAscii()
    ensures Related(",", ",", true) && Related(":", ":", true) && Related("", "", true)
  {
  }

  lemma {:induction false} MembersRelated(v: Json, keys: seq<string>)
    requires v.Obj? && forall k :: k in keys ==> k in v.fields
    ensures Related(Members(v, keys, true), Members(v, keys, false), PlainMembers(v, keys))
    decreases v, 0, |keys|
  {
    if keys != [] {
      var k, tail := keys[0], keys[1..];
      var x := v.fields[k];
      TextsRelated(x);
      MembersRelated(v, tail);
      Quoted(k);
      CommaAscii();
      hide Canonical, Plain, Quote;
      assert PlainMembers(v, keys) <==> IsAscii(k) && Plain(x) && PlainMembers(v, tail);
      hide IsAscii;
      RelatedConcat(Quote(k, true), Quote(k, false), IsAscii(k), ":", ":", true);
      RelatedConcat(Quote(k, true) + ":", Quote(k, false) + ":", IsAscii(k), Canonical(x, true), Canonical(x, false), Plain(x));
      RelatedConcat(",", ",", true, Members(v, tail, true), Members(v, tail, false), PlainMembers(v, tail));
      var more := |keys| > 1;
      RelatedConcat(Quote(k, true) + ":" + Canonical(x, true), Quote(k, false) + ":" + Canonical(x, false), IsAscii(k) && Plain(x),
                    if more then "," + Members(v, tail, true) else "",
                    if more then "," + Members(v, tail, false) else "",
                    more ==> PlainMembers(v, tail));
    }
  }

  /** The two id computations hash the same text exactly for values below 0x7f. */
  lemma ModesAgree(v: Json)
    ensures Canonical(v, true) == Canonical(v, false) <==> Plain(v)
  {
    TextsRelated(v);
  }
}
