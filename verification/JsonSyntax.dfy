/** JSON texts as RFC 8259 sections 2 to 7 spell them, whitespace and escapes included. */
module JsonSyntax {
  import opened Text

  /** One character of a string: as it stands, or the text after a backslash. */
  datatype Unit = Plain(c: char) | Escaped(text: string)

  datatype Node =
    | Literal(name: string)
    | Number(negative: bool, whole: string, fraction: Option<string>, exponent: Option<(string, string)>)
    | Str(units: seq<Unit>)
    | Arr(pad: string, items: Items)
    | Obj(pad: string, members: Members)

  datatype Items = NoItems | Item(before: string, value: Node, after: string, rest: Items)

  datatype Members =
    | NoMembers
    | Member(before: string, key: seq<Unit>, colon: string, gap: string, value: Node, after: string, rest: Members)

  predicate IsWhitespace(s: string) {
    forall i :: 0 <= i < |s| ==> s[i] == ' ' || s[i] == '\t' || s[i] == '\n' || s[i] == '\r'
  }

  predicate IsDigits(s: string) {
    s != "" && forall i :: 0 <= i < |s| ==> '0' <= s[i] <= '9'
  }

  predicate ValidUnit(u: Unit) {
    match u
    case Plain(c) => c >= ' ' && c != '"' && c != '\\'
    case Escaped(e) =>
      e != "" &&
      if e[0] == 'u' then |e| == 5 && forall i :: 1 <= i < 5 ==> HexDigit(e[i]) < 16
      else |e| == 1 && e[0] in "\"\\/bfnrt"
  }

  predicate ValidUnits(units: seq<Unit>) {
    forall i :: 0 <= i < |units| ==> ValidUnit(units[i])
  }

  predicate Valid(v: Node) {
    match v
    case Literal(name) => name == "true" || name == "false" || name == "null"
    case Number(_, whole, fraction, exponent) =>
      IsDigits(whole) && (whole[0] == '0' ==> |whole| == 1) &&
      (fraction == None || IsDigits(fraction.value)) &&
      (exponent == None || (exponent.value.0 in ["e", "E", "e+", "E+", "e-", "E-"] && IsDigits(exponent.value.1)))
    case Str(units) => ValidUnits(units)
    case Arr(pad, items) => IsWhitespace(pad) && ValidItems(items)
    case Obj(pad, members) => IsWhitespace(pad) && ValidMembers(members)
  }

  predicate ValidItems(items: Items) {
    match items
    case NoItems => true
    case Item(before, value, after, rest) =>
      IsWhitespace(before) && IsWhitespace(after) && Valid(value) && ValidItems(rest)
  }

  predicate ValidMembers(members: Members) {
    match members
    case NoMembers => true
    case Member(before, key, colon, gap, value, after, rest) =>
      IsWhitespace(before) && IsWhitespace(colon) && IsWhitespace(gap) && IsWhitespace(after) &&
      ValidUnits(key) && Valid(value) && ValidMembers(rest)
  }

  function UnitText(u: Unit): string {
    match u
    case Plain(c) => [c]
    case Escaped(e) => "\\" + e
  }

  function UnitsText(units: seq<Unit>): string {
    if units == [] then "" else UnitText(units[0]) + UnitsText(units[1..])
  }

  function Quoted(units: seq<Unit>): string {
    "\"" + UnitsText(units) + "\""
  }

  function NumberText(v: Node): string
    requires v.Number?
  {
    (if v.negative then "-" else "") + v.whole +
    (if v.fraction == None then "" else "." + v.fraction.value) +
    (if v.exponent == None then "" else v.exponent.value.0 + v.exponent.value.1)
  }

  /** The text of a value. The padding of an array or object is written only when it is empty. */
  function TextOf(v: Node): string {
    match v
    case Literal(name) => name
    case Number(_, _, _, _) => NumberText(v)
    case Str(units) => Quoted(units)
    case Arr(pad, items) => "[" + (if items == NoItems then pad else ItemsText(items)) + "]"
    case Obj(pad, members) => "{" + (if members == NoMembers then pad else MembersText(members)) + "}"
  }

  function ItemsText(items: Items): string {
    match items
    case NoItems => ""
    case Item(before, value, after, rest) =>
      before + TextOf(value) + after + (if rest == NoItems then "" else "," + ItemsText(rest))
  }

  function MembersText(members: Members): string {
    match members
    case NoMembers => ""
    case Member(before, key, colon, gap, value, after, rest) =>
      before + Quoted(key) + colon + ":" + gap + TextOf(value) + after +
      (if rest == NoMembers then "" else "," + MembersText(rest))
  }
}
