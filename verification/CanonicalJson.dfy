/** What `canonical_json` and `_canon` promise: the text determines the value, and the
    two agree exactly on printable ASCII. */
module CanonicalJson {
  import opened Json
  import opened JsonDecode

  lemma KeyRead(k: string, ascii: bool, tail: string)
    ensures ParseString((Quote(k, ascii) + tail)[1..]) == Got(k, tail)
    ensures Quote(k, ascii) + tail != "" && (Quote(k, ascii) + tail)[0] == '"'
  {
    hide ParseString, Escape;
    StringRoundTrip(k, ascii, tail);
    assert (Quote(k, ascii) + tail)[1..] == Escape(k, ascii) + ("\"" + tail);
  }

  lemma ScalarRead(v: Json, ascii: bool, rest: string)
    requires !v.Arr? && !v.Obj? && Stops(rest)
    ensures ParseValue(Canonical(v, ascii) + rest) == Got(v, rest)
  {
    var s := Canonical(v, ascii) + rest;
    match v
    case Str(t) => KeyRead(t, ascii, rest);
    case Int(n) => IntRoundTrip(n, rest);
    case Null => assert s[4..] == rest;
    case Bool(b) => assert s[(if b then 4 else 5)..] == rest;
  }

  // --- One step of each list parser ---

  lemma LastElement(s: string, v: Json, rest: string)
    requires ParseValue(s) == Got(v, "]" + rest)
    ensures ParseElements(s) == Got([v], rest)
  {
    hide ParseValue;
    assert ("]" + rest)[1..] == rest;
  }

  lemma NextElement(s: string, v: Json, next: string, vs: seq<Json>, rest: string)
    requires ParseValue(s) == Got(v, "," + next) && next != "" && !IsWs(next[0])
    requires ParseElements(next) == Got(vs, rest)
    ensures ParseElements(s) == Got([v] + vs, rest)
  {
    hide ParseValue;
    assert ("," + next)[1..] == next;
  }

  /** A key and a colon, then the value text. */
  ghost predicate MemberFront(s: string, k: string, text: string) {
    s != "" && s[0] == '"' && ParseString(s[1..]) == Got(k, ":" + text) && text != "" && !IsWs(text[0])
  }

  lemma LastMember(s: string, k: string, text: string, v: Json, acc: map<string, Json>, rest: string)
    requires MemberFront(s, k, text) && ParseValue(text) == Got(v, "}" + rest)
    ensures ParseMembers(s, acc) == Got(acc[k := v], rest)
  {
    hide ParseValue, ParseString;
    assert (":" + text)[1..] == text && ("}" + rest)[1..] == rest;
  }

  lemma NextMember(s: string, k: string, text: string, v: Json, acc: map<string, Json>, next: string,
                   all: map<string, Json>, rest: string)
    requires MemberFront(s, k, text) && ParseValue(text) == Got(v, "," + next)
    requires next != "" && !IsWs(next[0]) && ParseMembers(next, acc[k := v]) == Got(all, rest)
    ensures ParseMembers(s, acc) == Got(all, rest)
  {
    hide ParseValue, ParseString;
    assert (":" + text)[1..] == text && ("," + next)[1..] == next;
  }

  lemma OpenArray(tail: string, elems: seq<Json>, rest: string)
    requires tail != "" && !IsWs(tail[0])
    requires if tail[0] == ']' then elems == [] && rest == tail[1..] else ParseElements(tail) == Got(elems, rest)
    ensures ParseValue("[" + tail) == Got(Arr(elems), rest)
  {
    hide ParseElements;
    assert ("[" + tail)[1..] == tail;
  }

  lemma OpenObject(tail: string, fields: map<string, Json>, rest: string)
    requires tail != "" && !IsWs(tail[0])
    requires if tail[0] == '}' then fields == map[] && rest == tail[1..] else ParseMembers(tail, map[]) == Got(fields, rest)
    ensures ParseValue("{" + tail) == Got(Obj(fields), rest)
  {
    hide ParseMembers;
    assert ("{" + tail)[1..] == tail;
  }

  // --- The printed text, cut where the parsers cut it ---

  /** What follows element i inside the array. */
  ghost function AfterElement(v: Json, i: nat, ascii: bool, rest: string): string
    requires v.Arr? && i < |v.elems|
  {
    if i + 1 == |v.elems| then "]" + rest else "," + (Elements(v, i + 1, ascii) + ("]" + rest))
  }

  lemma ElementText(v: Json, i: nat, ascii: bool, rest: string)
    requires v.Arr? && i < |v.elems|
    ensures Elements(v, i, ascii) + ("]" + rest) == Canonical(v.elems[i], ascii) + AfterElement(v, i, ascii, rest)
    ensures Elements(v, i, ascii) != "" && Elements(v, i, ascii)[0] == Canonical(v.elems[i], ascii)[0]
    ensures Stops(AfterElement(v, i, ascii, rest))
  {
    var e := Canonical(v.elems[i], ascii);
    FirstChar(v.elems[i], ascii);
    hide Canonical;
    if i + 1 == |v.elems| {
      assert Elements(v, i, ascii) == e;
    } else {
      assert Elements(v, i, ascii) == e + ("," + Elements(v, i + 1, ascii));
    }
  }

  ghost function AfterMember(v: Json, keys: seq<string>, ascii: bool, rest: string): string
    requires v.Obj? && keys != [] && forall k :: k in keys ==> k in v.fields
  {
    if |keys| == 1 then "}" + rest else "," + (Members(v, keys[1..], ascii) + ("}" + rest))
  }

  lemma Regroup(quoted: string, colon: string, x: string, more: string, close: string)
    ensures (quoted + colon + x + more) + close == quoted + (colon + (x + (more + close)))
  {
  }

  lemma MembersUnfold(v: Json, keys: seq<string>, ascii: bool)
    requires v.Obj? && keys != [] && forall k :: k in keys ==> k in v.fields
    ensures Members(v, keys, ascii) == Quote(keys[0], ascii) + ":" + Canonical(v.fields[keys[0]], ascii) +
            (if |keys| == 1 then "" else "," + Members(v, keys[1..], ascii))
  {
    hide Canonical, Quote;
  }

  lemma AfterMemberText(v: Json, keys: seq<string>, ascii: bool, rest: string)
    requires v.Obj? && keys != [] && forall k :: k in keys ==> k in v.fields
    ensures (if |keys| == 1 then "" else "," + Members(v, keys[1..], ascii)) + ("}" + rest) == AfterMember(v, keys, ascii, rest)
    ensures Stops(AfterMember(v, keys, ascii, rest))
  {
    hide Members;
  }

  lemma FrontRead(k: string, ascii: bool, text: string)
    requires text != "" && !IsWs(text[0])
    ensures MemberFront(Quote(k, ascii) + (":" + text), k, text)
  {
    KeyRead(k, ascii, ":" + text);
    hide Quote, ParseString;
  }

  lemma MemberText(v: Json, keys: seq<string>, ascii: bool, rest: string)
    requires v.Obj? && keys != [] && forall k :: k in keys ==> k in v.fields
    ensures MemberFront(Members(v, keys, ascii) + ("}" + rest), keys[0],
                        Canonical(v.fields[keys[0]], ascii) + AfterMember(v, keys, ascii, rest))
    ensures Stops(AfterMember(v, keys, ascii, rest))
  {
    hide *;
    var k, x, after := keys[0], Canonical(v.fields[keys[0]], ascii), AfterMember(v, keys, ascii, rest);
    var more := if |keys| == 1 then "" else "," + Members(v, keys[1..], ascii);
    MembersUnfold(v, keys, ascii);
    Regroup(Quote(k, ascii), ":", x, more, "}" + rest);
    AfterMemberText(v, keys, ascii, rest);
    FirstChar(v.fields[k], ascii);
    assert (x + after)[0] == x[0];
    FrontRead(k, ascii, x + after);
  }

  // --- Inversion ---

  /** `json.loads` reads back what was printed, whatever follows it. */
  lemma {:induction false} ValueRoundTrip(v: Json, ascii: bool, rest: string)
    requires Stops(rest)
    ensures ParseValue(Canonical(v, ascii) + rest) == Got(v, rest)
    decreases v, 1, 0
  {
    hide ParseValue, ParseElements, ParseMembers, Elements, Members, Collected;
    match v
    case Arr(elems) =>
      var tail := Elements(v, 0, ascii) + ("]" + rest);
      assert Canonical(v, ascii) + rest == "[" + tail;
      if elems == [] {
        EmptyArray(v, ascii);
        assert tail == "]" + rest && tail[1..] == rest;
      } else {
        ElementsRoundTrip(v, 0, ascii, rest);
        assert elems[0..] == elems;
        ElementText(v, 0, ascii, rest);
        FirstChar(elems[0], ascii);
      }
      OpenArray(tail, elems, rest);
    case Obj(fields) =>
      var keys := SortedKeys(fields.Keys);
      var tail := Members(v, keys, ascii) + ("}" + rest);
      assert Canonical(v, ascii) + rest == "{" + tail;
      if keys == [] {
        EmptyObject(v, ascii);
        assert tail == "}" + rest && tail[1..] == rest;
      } else {
        MembersRoundTrip(v, keys, map[], ascii, rest);
        AllCollected(fields);
        MemberText(v, keys, ascii, rest);
      }
      OpenObject(tail, fields, rest);
    case _ => ScalarRead(v, ascii, rest);
  }

  lemma EmptyArray(v: Json, ascii: bool)
    requires v == Arr([])
    ensures Elements(v, 0, ascii) == ""
  {
  }

  lemma EmptyObject(v: Json, ascii: bool)
    requires v.Obj? && SortedKeys(v.fields.Keys) == []
    ensures v.fields == map[] && Members(v, [], ascii) == ""
  {
    assert forall k :: k in v.fields.Keys ==> k in SortedKeys(v.fields.Keys);
  }

  lemma {:induction false} ElementsRoundTrip(v: Json, i: nat, ascii: bool, rest: string)
    requires v.Arr? && i < |v.elems|
    ensures ParseElements(Elements(v, i, ascii) + ("]" + rest)) == Got(v.elems[i..], rest)
    decreases v, 0, |v.elems| - i
  {
    hide ParseValue, ParseElements, Canonical, Elements;
    var text, e := Elements(v, i, ascii) + ("]" + rest), v.elems[i];
    ElementText(v, i, ascii, rest);
    ValueRoundTrip(e, ascii, AfterElement(v, i, ascii, rest));
    if i + 1 == |v.elems| {
      LastElement(text, e, rest);
      assert v.elems[i..] == [e];
    } else {
      var next := Elements(v, i + 1, ascii) + ("]" + rest);
      ElementsRoundTrip(v, i + 1, ascii, rest);
      ElementText(v, i + 1, ascii, rest);
      FirstChar(v.elems[i + 1], ascii);
      NextElement(text, e, next, v.elems[i + 1..], rest);
      assert v.elems[i..] == [e] + v.elems[i + 1..];
    }
  }

  lemma {:induction false} MembersRoundTrip(v: Json, keys: seq<string>, acc: map<string, Json>, ascii: bool, rest: string)
    requires v.Obj? && keys != [] && forall k :: k in keys ==> k in v.fields
    ensures ParseMembers(Members(v, keys, ascii) + ("}" + rest), acc) == Got(Collected(acc, v.fields, keys), rest)
    decreases v, 0, |keys|
  {
    hide ParseValue, ParseMembers, Canonical, Members, Collected;
    var text, k := Members(v, keys, ascii) + ("}" + rest), keys[0];
    var x, after := v.fields[k], AfterMember(v, keys, ascii, rest);
    MemberText(v, keys, ascii, rest);
    ValueRoundTrip(x, ascii, after);
    CollectedStep(acc, v.fields, keys);
    if |keys| == 1 {
      LastMember(text, k, Canonical(x, ascii) + after, x, acc, rest);
    } else {
      var next := Members(v, keys[1..], ascii) + ("}" + rest);
      MembersRoundTrip(v, keys[1..], acc[k := x], ascii, rest);
      MemberText(v, keys[1..], ascii, rest);
      NextMember(text, k, Canonical(x, ascii) + after, x, acc, next, Collected(acc, v.fields, keys), rest);
    }
  }

  lemma CollectedStep(acc: map<string, Json>, fields: map<string, Json>, keys: seq<string>)
    requires keys != [] && forall k :: k in keys ==> k in fields
    ensures Collected(acc, fields, keys) == Collected(acc[keys[0] := fields[keys[0]]], fields, keys[1..])
    ensures |keys| == 1 ==> Collected(acc, fields, keys) == acc[keys[0] := fields[keys[0]]]
  {
  }

  /** The decoder inverts the printer in either escaping mode. */
  lemma DecodeCanonical(v: Json, ascii: bool)
    ensures Decode(Canonical(v, ascii)) == Got(v, "")
  {
    var t := Canonical(v, ascii);
    ValueRoundTrip(v, ascii, "");
    FirstChar(v, ascii);
    assert t + "" == t;
  }

  /** Equal canonical text means equal values; objects may only list keys differently. */
  lemma CanonicalInjective(v: Json, w: Json, ascii: bool)
    requires Canonical(v, ascii) == Canonical(w, ascii)
    ensures v == w
  {
    DecodeCanonical(v, ascii);
    DecodeCanonical(w, ascii);
  }
}
