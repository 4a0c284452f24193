/** Which lines carry a frame: the tag, white space and one JSON object, white space around them. */
module FrameLines {
  import opened Text
  import opened Json
  import opened JsonDecode
  import opened Frames
  import opened JsonReading
  import JsonSyntax

  predicate Blank(s: string) {
    forall i :: 0 <= i < |s| ==> IsSpace(s[i])
  }

  /** What `str.strip` removes, as the standard library lists white space. */
  lemma SpacesExactly(c: char)
    ensures IsSpace(c) <==>
      c as int in {0x09, 0x0A, 0x0B, 0x0C, 0x0D, 0x1C, 0x1D, 0x1E, 0x1F, 0x20, 0x85, 0xA0, 0x1680, 0x2000, 0x2001, 0x2002, 0x2003,
                   0x2004, 0x2005, 0x2006, 0x2007, 0x2008, 0x2009, 0x200A, 0x2028, 0x2029, 0x202F, 0x205F, 0x3000}
  {
  }

  lemma {:induction false} LeftStripped(s: string) returns (a: string)
    ensures Blank(a) && s == a + LeftStrip(s)
    decreases |s|
  {
    hide IsSpace;
    if s != "" && IsSpace(s[0]) {
      var b := LeftStripped(s[1..]);
      a := [s[0]] + b;
      assert s == [s[0]] + s[1..];
      Assoc([s[0]], b, LeftStrip(s[1..]));
    } else {
      a := "";
    }
  }

  lemma {:induction false} RightStripped(s: string) returns (c: string)
    ensures Blank(c) && s == RightStrip(s) + c
    decreases |s|
  {
    hide IsSpace;
    if s != "" && IsSpace(s[|s| - 1]) {
      var d := RightStripped(s[..|s| - 1]);
      c := d + [s[|s| - 1]];
      assert s == s[..|s| - 1] + [s[|s| - 1]];
      Assoc(RightStrip(s[..|s| - 1]), d, [s[|s| - 1]]);
    } else {
      c := "";
      assert s + "" == s;
    }
  }

  lemma {:induction false} LeftStripAll(a: string, s: string)
    requires Blank(a) && s != "" && !IsSpace(s[0])
    ensures LeftStrip(a + s) == s
    decreases |a|
  {
    hide IsSpace;
    if a == "" {
      assert a + s == s;
    } else {
      assert (a + s)[1..] == a[1..] + s;
      LeftStripAll(a[1..], s);
    }
  }

  lemma {:induction false} RightStripAll(s: string, c: string)
    requires Blank(c) && s != "" && !IsSpace(s[|s| - 1])
    ensures RightStrip(s + c) == s
    decreases |c|
  {
    hide IsSpace;
    if c == "" {
      assert s + c == s;
    } else {
      assert (s + c)[..|s + c| - 1] == s + c[..|c| - 1];
      RightStripAll(s, c[..|c| - 1]);
    }
  }

  /** The text of an object begins and ends with its braces. */
  lemma ObjectEnds(v: JsonSyntax.Node)
    requires v.Obj?
    ensures var t := JsonSyntax.TextOf(v); |t| >= 2 && t[0] == '{' && t[|t| - 1] == '}'
  {
    hide JsonSyntax.MembersText;
  }

  /** White space around a text that begins and ends with braces is empty. */
  lemma NoPadding(before: string, t: string, after: string)
    requires JsonSyntax.IsWhitespace(before) && JsonSyntax.IsWhitespace(after) && t != ""
    requires (before + t + after)[0] == '{' && (before + t + after)[|before + t + after| - 1] == '}'
    ensures before == "" && after == "" && before + t + after == t
  {
    EndsOf(before, t, after);
    assert "" + t + "" == t;
  }

  lemma EndsOf(before: string, t: string, after: string)
    requires t != ""
    ensures var s := before + t + after;
      (before != "" ==> s[0] == before[0]) && (after != "" ==> s[|s| - 1] == after[|after| - 1])
  {
  }

  lemma DecodeRest(s: string)
    ensures Decode(s).Got? ==> Decode(s).rest == ""
  {
    hide ParseValue, SkipWs;
  }

  /** Only an object's text begins with a brace. */
  lemma BraceIsObject(v: JsonSyntax.Node, rest: string)
    requires JsonSyntax.Valid(v) && (JsonSyntax.TextOf(v) + rest)[..1] == "{"
    ensures v.Obj?
  {
    FirstOf(v);
    hide JsonSyntax.ItemsText, JsonSyntax.MembersText, JsonSyntax.UnitsText;
    assert (JsonSyntax.TextOf(v) + rest)[..1][0] == JsonSyntax.TextOf(v)[0];
  }

  ghost predicate Carries(line: string, a: string, b: string, v: JsonSyntax.Node, c: string, f: Frame) {
    Blank(a) && Blank(b) && b != "" && Blank(c) && JsonSyntax.Valid(v) && v.Obj? && Meaning(v) == Some(Obj(f)) &&
    line == a + ("tclk1" + (b + JsonSyntax.TextOf(v))) + c
  }

  lemma StripAround(a: string, t: string, c: string)
    requires Blank(a) && Blank(c) && t != "" && !IsSpace(t[0]) && !IsSpace(t[|t| - 1])
    ensures Strip(a + t + c) == t
  {
    hide IsSpace, LeftStrip, RightStrip, Blank;
    Assoc(a, t, c);
    assert (t + c)[0] == t[0];
    LeftStripAll(a, t + c);
    RightStripAll(t, c);
  }

  lemma TagEnds(b: string, body: string)
    requires |body| >= 2 && body[|body| - 1] == '}' && b != "" && Blank(b)
    ensures var t := "tclk1" + (b + body);
      t[0] == 't' && t[|t| - 1] == '}' && "tclk1" <= t && t[5..] == b + body && t[5] == b[0] && IsSpace(t[5])
  {
    hide IsSpace;
  }

  lemma CarriedIsDecoded(line: string, a: string, b: string, v: JsonSyntax.Node, c: string, f: Frame)
    requires Carries(line, a, b, v, c, f)
    ensures DecodeFrame(line) == Some(f)
  {
    var body := JsonSyntax.TextOf(v);
    ObjectEnds(v);
    TagEnds(b, body);
    StripAround(a, "tclk1" + (b + body), c);
    hide Meaning, JsonSyntax.TextOf, JsonSyntax.Valid, Decode, LeftStrip, RightStrip, Strip, IsSpace;
    LeftStripAll(b, body) by { NoSpace(); }
    ReadsText(v, "", "");
    assert "" + body + "" == body;
  }

  lemma NoSpace()
    ensures !IsSpace('{') && !IsSpace('}') && !IsSpace('t')
  {
  }

  lemma DecodedIsCarried(line: string, f: Frame) returns (a: string, b: string, v: JsonSyntax.Node, c: string)
    requires DecodeFrame(line) == Some(f)
    ensures Carries(line, a, b, v, c, f)
  {
    hide Meaning, JsonSyntax.TextOf, JsonSyntax.Valid, Decode, LeftStrip, RightStrip, IsSpace;
    a := LeftStripped(line);
    c := RightStripped(LeftStrip(line));
    var t := Strip(line);
    b := LeftStripped(t[5..]);
    var body := LeftStrip(t[5..]);
    DecodeRest(body);
    DecodesExactly(body, Obj(f));
    var before, after;
    v, before, after :|
      JsonSyntax.Valid(v) && Meaning(v) == Some(Obj(f)) && JsonSyntax.IsWhitespace(before) && JsonSyntax.IsWhitespace(after) &&
      body == before + JsonSyntax.TextOf(v) + after;
    FirstOf(v);
    NoPadding(before, JsonSyntax.TextOf(v), after);
    assert body[..1] == "{";
    assert JsonSyntax.TextOf(v) + "" == body;
    BraceIsObject(v, "");
    assert t == "tclk1" + t[5..];
    Assoc(a, t, c);
    assert b != "" by { StartsBlank(t[5..], b, body); }
  }

  lemma StartsBlank(s: string, b: string, body: string)
    requires s == b + body && s != "" && IsSpace(s[0]) && body != "" && body[0] == '{'
    ensures b != ""
  {
  }

  /** A line decodes to a frame exactly when it is the tag, white space and the text of an object
      with those fields, white space around them allowed. */
  lemma FrameExactly(line: string, f: Frame)
    ensures DecodeFrame(line) == Some(f) <==> exists a, b, v, c :: Carries(line, a, b, v, c, f)
  {
    hide DecodeFrame, Carries;
    if DecodeFrame(line) == Some(f) {
      var a, b, v, c := DecodedIsCarried(line, f);
    }
    if a, b, v, c :| Carries(line, a, b, v, c, f) {
      CarriedIsDecoded(line, a, b, v, c, f);
    }
  }
}
