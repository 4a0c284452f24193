/** Cutting the exact terms object out of a posted line. */
module Terms {
  import opened Text
  import opened JsonSyntax

  const MARKER := "\"terms\":"

  /** Scanner state after some characters; Done holds how many were read when depth fell to zero. */
  datatype State = Scanning(depth: int, instr: bool, esc: bool, read: nat) | Done(read: nat)

  function Step(s: State, ch: char): State {
    match s
    case Done(_) => s
    case Scanning(depth, instr, esc, read) =>
      if instr then Scanning(depth, esc || ch != '"', !esc && ch == '\\', read + 1)
      else if ch == '"' then Scanning(depth, true, esc, read + 1)
      else if ch == '{' then Scanning(depth + 1, instr, esc, read + 1)
      else if ch == '}' then (if depth == 1 then Done(read + 1) else Scanning(depth - 1, instr, esc, read + 1))
      else Scanning(depth, instr, esc, read + 1)
  }

  function Scan(s: State, text: string): State {
    if text == "" then s else Step(Scan(s, text[..|text| - 1]), text[|text| - 1])
  }

  const START := Scanning(0, false, false, 0)

  lemma {:induction false} ScanConcat(s: State, a: string, b: string)
    ensures Scan(s, a + b) == Scan(Scan(s, a), b)
  {
    if b == "" {
      assert a + b == a;
    } else {
      ScanConcat(s, a, b[..|b| - 1]);
      assert (a + b)[..|a + b| - 1] == a + b[..|b| - 1];
    }
  }

  lemma {:induction false} ScanDone(s: State, text: string)
    requires s.Done?
    ensures Scan(s, text) == s
  {
    if text != "" {
      ScanDone(s, text[..|text| - 1]);
    }
  }

  // ----- the scanner against the grammar

  /** Outside strings, at any depth. */
  function Open(depth: int, read: nat): State {
    Scanning(depth, false, false, read)
  }

  predicate Inert(text: string) {
    forall i :: 0 <= i < |text| ==> text[i] != '"' && text[i] != '{' && text[i] != '}'
  }

  lemma {:induction false} ScanInert(depth: int, read: nat, text: string)
    requires Inert(text)
    ensures Scan(Open(depth, read), text) == Open(depth, read + |text|)
  {
    if text != "" {
      ScanInert(depth, read, text[..|text| - 1]);
    }
  }

  lemma {:induction false} ScanHexTail(depth: int, read: nat, text: string)
    requires forall i :: 0 <= i < |text| ==> text[i] != '"' && text[i] != '\\'
    ensures Scan(Scanning(depth, true, false, read), text) == Scanning(depth, true, false, read + |text|)
  {
    if text != "" {
      ScanHexTail(depth, read, text[..|text| - 1]);
    }
  }

  lemma ScanOne(s: State, c: char)
    ensures Scan(s, [c]) == Step(s, c)
  {
    assert [c][..0] == "";
    assert Scan(s, "") == s;
  }

  lemma ScanUnit(depth: int, read: nat, u: Unit)
    requires ValidUnit(u)
    ensures Scan(Scanning(depth, true, false, read), UnitText(u)) ==
            Scanning(depth, true, false, read + |UnitText(u)|)
  {
    var s := Scanning(depth, true, false, read);
    match u
    case Plain(c) =>
      ScanOne(s, c);
    case Escaped(e) =>
      assert "\\" + e == "\\" + [e[0]] + e[1..];
      ScanOne(s, '\\');
      ScanConcat(s, "\\", [e[0]]);
      ScanOne(Scan(s, "\\"), e[0]);
      ScanConcat(s, "\\" + [e[0]], e[1..]);
      ScanHexTail(depth, read + 2, e[1..]);
  }

  lemma {:induction false} ScanUnits(depth: int, read: nat, units: seq<Unit>)
    requires ValidUnits(units)
    ensures Scan(Scanning(depth, true, false, read), UnitsText(units)) ==
            Scanning(depth, true, false, read + |UnitsText(units)|)
    decreases |units|
  {
    hide Step, ValidUnit, UnitText;
    if units != [] {
      var s, n := Scanning(depth, true, false, read), |UnitText(units[0])|;
      ScanUnit(depth, read, units[0]);
      ScanConcat(s, UnitText(units[0]), UnitsText(units[1..]));
      ScanUnits(depth, read + n, units[1..]);
    }
  }

  lemma ScanQuoted(depth: int, read: nat, units: seq<Unit>)
    requires ValidUnits(units)
    ensures Scan(Open(depth, read), Quoted(units)) == Open(depth, read + |Quoted(units)|)
  {
    hide Scan, ValidUnits;
    var s, body := Open(depth, read), UnitsText(units);
    ScanOne(s, '"');
    ScanConcat(s, "\"", body);
    ScanUnits(depth, read + 1, units);
    ScanConcat(s, "\"" + body, "\"");
    ScanOne(Scan(s, "\"" + body), '"');
  }

  lemma ScanInertThen(depth: int, read: nat, inert: string, text: string, s: State)
    requires Inert(inert) && Scan(Open(depth, read + |inert|), text) == s
    ensures Scan(Open(depth, read), inert + text) == s
  {
    ScanInert(depth, read, inert);
    ScanConcat(Open(depth, read), inert, text);
  }

  lemma WhitespaceInert(s: string)
    requires IsWhitespace(s)
    ensures Inert(s)
  {
  }

  lemma NumberInert(v: Node)
    requires v.Number? && Valid(v)
    ensures Inert(NumberText(v))
  {
    var sign := if v.negative then "-" else "";
    var fraction := if v.fraction == None then "" else "." + v.fraction.value;
    var exponent := if v.exponent == None then "" else v.exponent.value.0 + v.exponent.value.1;
    assert Inert(sign) && Inert(v.whole) && Inert(fraction) && Inert(exponent);
    InertConcat(sign, v.whole);
    InertConcat(sign + v.whole, fraction);
    InertConcat(sign + v.whole + fraction, exponent);
  }

  lemma InertConcat(a: string, b: string)
    requires Inert(a) && Inert(b)
    ensures Inert(a + b)
  {
  }

  /** Two texts in a row that both leave the scanner where it was. */
  lemma ScanBoth(depth: int, read: nat, a: string, b: string)
    requires Scan(Open(depth, read), a) == Open(depth, read + |a|)
    requires Scan(Open(depth, read + |a|), b) == Open(depth, read + |a| + |b|)
    ensures Scan(Open(depth, read), a + b) == Open(depth, read + |a + b|)
  {
    ScanConcat(Open(depth, read), a, b);
  }

  /** A whole value inside the object leaves depth and string state as they were. */
  lemma {:induction false} ScanValue(depth: int, read: nat, v: Node)
    requires Valid(v) && depth >= 1
    ensures Scan(Open(depth, read), TextOf(v)) == Open(depth, read + |TextOf(v)|)
    decreases v
  {
    hide Scan, Step, Inert, IsWhitespace, ValidUnits;
    match v
    case Literal(name) =>
      LiteralInert(name);
      ScanInert(depth, read, name);
    case Number(_, _, _, _) =>
      NumberInert(v);
      ScanInert(depth, read, NumberText(v));
    case Str(units) =>
      ScanQuoted(depth, read, units);
    case Arr(pad, items) =>
      var inner := if items == NoItems then pad else ItemsText(items);
      if items == NoItems {
        WhitespaceInert(pad);
        ScanInert(depth, read + 1, pad);
      } else {
        ScanItems(depth, read + 1, items);
      }
      BracketsInert();
      ScanInert(depth, read, "[");
      ScanBoth(depth, read, "[", inner);
      ScanInert(depth, read + |"[" + inner|, "]");
      ScanBoth(depth, read, "[" + inner, "]");
    case Obj(pad, members) =>
      ScanInside(depth + 1, read + 1, pad, members);
      ScanObject(depth, read, if members == NoMembers then pad else MembersText(members));
  }

  lemma LiteralInert(name: string)
    requires name == "true" || name == "false" || name == "null"
    ensures Inert(name)
  {
  }

  lemma BracketsInert()
    ensures Inert("[") && Inert("]") && Inert(",") && Inert(":")
  {
  }

  lemma ScanInside(depth: int, read: nat, pad: string, members: Members)
    requires IsWhitespace(pad) && ValidMembers(members) && depth >= 1
    ensures var inner := if members == NoMembers then pad else MembersText(members);
            Scan(Open(depth, read), inner) == Open(depth, read + |inner|)
    decreases members, 1
  {
    hide Scan, Step, Inert, IsWhitespace;
    if members == NoMembers {
      WhitespaceInert(pad);
      ScanInert(depth, read, pad);
    } else {
      ScanMembers(depth, read, members);
    }
  }

  /** Braces around a balanced text: the scan ends with the closing one only at the outermost level. */
  lemma ScanObject(depth: int, read: nat, inner: string)
    requires Scan(Open(depth + 1, read + 1), inner) == Open(depth + 1, read + 1 + |inner|)
    ensures Scan(Open(depth, read), "{" + inner + "}") ==
            if depth == 0 then Done(read + |inner| + 2) else Open(depth, read + |"{" + inner + "}"|)
  {
    hide Scan;
    var s := Open(depth, read);
    ScanOne(s, '{');
    ScanConcat(s, "{", inner);
    ScanConcat(s, "{" + inner, "}");
    ScanOne(Scan(s, "{" + inner), '}');
  }

  lemma {:induction false} ScanItems(depth: int, read: nat, items: Items)
    requires ValidItems(items) && depth >= 1
    ensures Scan(Open(depth, read), ItemsText(items)) == Open(depth, read + |ItemsText(items)|)
    decreases items
  {
    hide Scan, Step, Inert, IsWhitespace, Valid, TextOf;
    match items
    case NoItems =>
      ScanNothing(Open(depth, read));
    case Item(before, value, after, rest) =>
      var text := TextOf(value);
      ScanValue(depth, read + |before|, value);
      ScanPadded(depth, read, before, text, after);
      var head := before + text + after;
      if rest == NoItems {
        assert head + "" == head;
      } else {
        BracketsInert();
        ScanItems(depth, read + |head| + 1, rest);
        ScanInertThen(depth, read + |head|, ",", ItemsText(rest), Open(depth, read + |head| + 1 + |ItemsText(rest)|));
        ScanBoth(depth, read, head, "," + ItemsText(rest));
      }
  }

  lemma ScanNothing(s: State)
    ensures Scan(s, "") == s
  {
  }

  lemma ScanPadded(depth: int, read: nat, before: string, text: string, after: string)
    requires IsWhitespace(before) && IsWhitespace(after)
    requires Scan(Open(depth, read + |before|), text) == Open(depth, read + |before| + |text|)
    ensures Scan(Open(depth, read), before + text + after) == Open(depth, read + |before + text + after|)
  {
    hide Scan, Step, Inert, IsWhitespace;
    WhitespaceInert(before);
    WhitespaceInert(after);
    ScanInert(depth, read, before);
    ScanBoth(depth, read, before, text);
    ScanInert(depth, read + |before + text|, after);
    ScanBoth(depth, read, before + text, after);
  }

  lemma {:induction false} ScanMembers(depth: int, read: nat, members: Members)
    requires ValidMembers(members) && depth >= 1
    ensures Scan(Open(depth, read), MembersText(members)) == Open(depth, read + |MembersText(members)|)
    decreases members, 0
  {
    hide Scan, Step, Inert, IsWhitespace, Valid, TextOf, Quoted, ValidUnits;
    match members
    case NoMembers =>
      ScanNothing(Open(depth, read));
    case Member(before, key, colon, gap, value, after, rest) =>
      BracketsInert();
      var name := before + Quoted(key) + colon;
      ScanQuoted(depth, read + |before|, key);
      ScanPadded(depth, read, before, Quoted(key), colon);
      ScanInert(depth, read + |name|, ":");
      ScanBoth(depth, read, name, ":");
      var named := name + ":";
      var body := gap + TextOf(value) + after;
      ScanValue(depth, read + |named| + |gap|, value);
      ScanPadded(depth, read + |named|, gap, TextOf(value), after);
      ScanBoth(depth, read, named, body);
      var head := named + body;
      assert head == before + Quoted(key) + colon + ":" + gap + TextOf(value) + after;
      if rest == NoMembers {
        assert head + "" == head;
      } else {
        ScanMembers(depth, read + |head| + 1, rest);
        ScanInertThen(depth, read + |head|, ",", MembersText(rest),
                      Open(depth, read + |head| + 1 + |MembersText(rest)|));
        ScanBoth(depth, read, head, "," + MembersText(rest));
      }
  }

  /** The scan of an object text ends exactly at its last character. */
  lemma ScanTop(o: Node)
    requires o.Obj? && Valid(o)
    ensures Scan(START, TextOf(o)) == Done(|TextOf(o)|)
  {
    hide Scan, Step, IsWhitespace, ValidMembers;
    ScanInside(1, 1, o.pad, o.members);
    ScanObject(0, 0, if o.members == NoMembers then o.pad else MembersText(o.members));
  }

  // ----- the search

  /** `str.find` from a position; |s| + 1 stands for -1. */
  function FindFrom(s: string, part: string, i: nat): (r: nat)
    requires i <= |s|
    ensures i <= r <= |s| - |part| || r == |s| + 1
    ensures r <= |s| ==> part <= s[r..]
    ensures forall q :: i <= q < r && q <= |s| ==> !(part <= s[q..])
    decreases |s| - i
  {
    if part <= s[i..] then i else if i == |s| then |s| + 1 else FindFrom(s, part, i + 1)
  }

  datatype Cut = Raised | Missing | Found(text: string)

  function TermsOf(line: string): Cut {
    var i := FindFrom(line, MARKER, 0);
    if i > |line| then Missing
    else
      var j := FindFrom(line, "{", i);
      if j > |line| then Raised
      else
        match Scan(START, line[j..])
        case Done(n) => if j + n <= |line| then Found(line[j..j + n]) else Missing
        case _ => Missing
  }

  /** One more character read; a scan that is done stays done for the rest of the line. */
  lemma Extend(line: string, j: nat, k: nat, s: State)
    requires j <= k < |line| && Scan(START, line[j..k]) == s
    ensures Scan(START, line[j..k + 1]) == Step(s, line[k])
    ensures Step(s, line[k]).Done? ==> Scan(START, line[j..]) == Step(s, line[k])
  {
    hide Step;
    var next := Step(s, line[k]);
    assert line[j..k + 1] == line[j..k] + [line[k]];
    ScanConcat(START, line[j..k], [line[k]]);
    ScanOne(s, line[k]);
    if next.Done? {
      assert line[j..] == line[j..k + 1] + line[k + 1..];
      ScanConcat(START, line[j..k + 1], line[k + 1..]);
      ScanDone(next, line[k + 1..]);
    }
  }

  method TermsRaw(line: string) returns (r: Cut)
    ensures r == TermsOf(line)
  {
    hide Scan, FindFrom;
    var i := FindFrom(line, MARKER, 0);
    if i > |line| {
      return Missing;
    }
    var j := FindFrom(line, "{", i);
    if j > |line| {
      return Raised;
    }
    var depth, k, instr, esc := 0, j, false, false;
    assert line[j..j] == "";
    ScanNothing(START);
    while k < |line|
      invariant j <= k <= |line|
      invariant Scan(START, line[j..k]) == Scanning(depth, instr, esc, k - j)
    {
      var ch := line[k];
      Extend(line, j, k, Scanning(depth, instr, esc, k - j));
      if instr {
        if esc {
          esc := false;
        } else if ch == '\\' {
          esc := true;
        } else if ch == '"' {
          instr := false;
        }
      } else if ch == '"' {
        instr := true;
      } else if ch == '{' {
        depth := depth + 1;
      } else if ch == '}' {
        depth := depth - 1;
        if depth == 0 {
          return Found(line[j..k + 1]);
        }
      }
      k := k + 1;
    }
    assert line[j..k] == line[j..];
    return Missing;
  }

  predicate Contains(s: string, part: string) {
    exists q :: 0 <= q <= |s| && part <= s[q..]
  }

  /** The marker does not overlap itself, so none starts before its own first copy. */
  lemma NoEarlierMarker(prefix: string, rest: string, q: nat)
    requires !Contains(prefix, MARKER) && q < |prefix|
    ensures !(MARKER <= (prefix + MARKER + rest)[q..])
  {
    var line := prefix + MARKER + rest;
    if q + 8 <= |prefix| {
      assert !(MARKER <= prefix[q..]);
      assert prefix[q..][..8] == line[q..][..8];
    } else {
      var d := |prefix| - q;
      assert line[q..][d] == '"' && line[q..][d + 1] == 't';
      assert d != 6 ==> MARKER[d] != '"';
    }
  }

  lemma MarkerFirst(prefix: string, rest: string)
    requires !Contains(prefix, MARKER)
    ensures FindFrom(prefix + MARKER + rest, MARKER, 0) == |prefix|
  {
    var line := prefix + MARKER + rest;
    assert line[|prefix|..] == MARKER + rest;
    forall q | 0 <= q < |prefix| ensures !(MARKER <= line[q..]) {
      NoEarlierMarker(prefix, rest, q);
    }
  }

  lemma BraceFirst(line: string, i: nat, j: nat)
    requires i <= j < |line| && line[j] == '{'
    requires forall q :: i <= q < j ==> line[q] != '{'
    ensures FindFrom(line, "{", i) == j
  {
    assert "{" <= line[j..];
    forall q | i <= q < j ensures !("{" <= line[q..]) {
      assert line[q..][0] == line[q];
    }
  }

  lemma Located(prefix: string, gap: string, body: string)
    requires !Contains(prefix, MARKER) && '{' !in gap && "{" <= body
    ensures var line := prefix + MARKER + gap + body;
            FindFrom(line, MARKER, 0) == |prefix| && FindFrom(line, "{", |prefix|) == |prefix + MARKER + gap| &&
            line[|prefix + MARKER + gap|..] == body
  {
    hide MARKER, FindFrom;
    MarkerHasNoBrace();
    var line := prefix + MARKER + gap + body;
    assert line == prefix + MARKER + (gap + body);
    MarkerFirst(prefix, gap + body);
    var j := |prefix + MARKER + gap|;
    assert line[j] == body[0];
    forall q | |prefix| <= q < j ensures line[q] != '{' {
      if q < |prefix + MARKER| {
        assert line[q] == MARKER[q - |prefix|];
      } else {
        assert line[q] == gap[q - |prefix + MARKER|];
      }
    }
    BraceFirst(line, |prefix|, j);
  }

  lemma MarkerHasNoBrace()
    ensures '{' !in MARKER
  {
  }

  /** Whatever precedes and follows, the terms object comes back character for character,
      however its strings, escapes and braces nest. */
  lemma TermsExact(prefix: string, gap: string, o: Node, suffix: string)
    requires !Contains(prefix, MARKER) && '{' !in gap
    requires o.Obj? && Valid(o)
    ensures TermsOf(prefix + MARKER + gap + TextOf(o) + suffix) == Found(TextOf(o))
  {
    hide MARKER, FindFrom, Scan, Valid, Contains;
    var body := TextOf(o) + suffix;
    var line := prefix + MARKER + gap + body;
    assert line == prefix + MARKER + gap + TextOf(o) + suffix;
    Located(prefix, gap, body);
    ScanTop(o);
    ScanConcat(START, TextOf(o), suffix);
    ScanDone(Done(|TextOf(o)|), suffix);
    var j, n := |prefix + MARKER + gap|, |TextOf(o)|;
    assert line[j..j + n] == line[j..][..n];
  }

  /** A line cut off inside the terms object yields nothing rather than a fragment. */
  lemma TruncatedMissing(prefix: string, gap: string, o: Node, n: nat)
    requires !Contains(prefix, MARKER) && '{' !in gap
    requires o.Obj? && Valid(o) && 0 < n < |TextOf(o)|
    ensures TermsOf(prefix + MARKER + gap + TextOf(o)[..n]) == Missing
  {
    hide MARKER, FindFrom, Scan, Valid, Contains;
    var body := TextOf(o)[..n];
    Located(prefix, gap, body);
    ScanTop(o);
    ScanConcat(START, body, TextOf(o)[n..]);
    assert body + TextOf(o)[n..] == TextOf(o);
    ReadAtMost(body);
    if Scan(START, body).Done? {
      ScanDone(Scan(START, body), TextOf(o)[n..]);
    }
  }

  lemma {:induction false} ReadAtMost(text: string)
    ensures Scan(START, text).read <= |text|
  {
    if text != "" {
      ReadAtMost(text[..|text| - 1]);
    }
  }
}
