/** Float-free JSON values and the text that `canonical_json` and `_canon` print for them. */
module Json {
  import opened Sets
  import opened Text

  datatype Json =
    | Null
    | Bool(b: bool)
    | Int(n: int)
    | Str(s: string)
    | Arr(elems: seq<Json>)
    | Obj(fields: map<string, Json>)

  /** Order of Python strings: by code point, a prefix first. */
  predicate LexLeq(a: string, b: string) {
    if a == [] then true
    else if b == [] then false
    else if a[0] != b[0] then a[0] < b[0]
    else LexLeq(a[1..], b[1..])
  }

  lemma {:induction false} LexAntisymmetric(a: string, b: string)
    requires LexLeq(a, b) && LexLeq(b, a)
    ensures a == b
  {
    if a != [] && b != [] {
      LexAntisymmetric(a[1..], b[1..]);
      assert a == [a[0]] + a[1..] && b == [b[0]] + b[1..];
    }
  }

  lemma {:induction false} LexTotal(a: string, b: string)
    ensures LexLeq(a, b) || LexLeq(b, a)
  {
    if a != [] && b != [] {
      LexTotal(a[1..], b[1..]);
    }
  }

  lemma {:induction false} LexTransitive(a: string, b: string, c: string)
    requires LexLeq(a, b) && LexLeq(b, c)
    ensures LexLeq(a, c)
  {
    if a != [] && a[0] == b[0] == c[0] {
      LexTransitive(a[1..], b[1..], c[1..]);
    }
  }

  predicate IsLeast(k: string, s: set<string>) {
    k in s && forall x :: x in s ==> LexLeq(k, x)
  }

  lemma {:induction false} LeastExists(s: set<string>) returns (k: string)
    requires s != {}
    ensures IsLeast(k, s)
    decreases |s|
  {
    var y := Pick(s);
    var rest := s - {y};
    LexReflexive(y);
    if rest == {} {
      assert s == {y};
      return y;
    }
    var k' := LeastExists(rest);
    LexTotal(y, k');
    k := if LexLeq(y, k') then y else k';
    forall x | x in s ensures LexLeq(k, x) {
      if x != y && k == y {
        LexTransitive(y, k', x);
      }
    }
  }

  lemma {:induction false} LexReflexive(a: string)
    ensures LexLeq(a, a)
  {
    if a != [] {
      LexReflexive(a[1..]);
    }
  }

  lemma LeastIsUnique(s: set<string>)
    ensures forall k, k' :: IsLeast(k, s) && IsLeast(k', s) ==> k == k'
  {
    forall k, k' | IsLeast(k, s) && IsLeast(k', s) ensures k == k' {
      LexAntisymmetric(k, k');
    }
  }

  lemma SomeLeast(s: set<string>)
    requires s != {}
    ensures exists k :: IsLeast(k, s)
  {
    var k := LeastExists(s);
  }

  function Least(s: set<string>): (k: string)
    requires s != {}
    ensures IsLeast(k, s)
  {
    SomeLeast(s);
    LeastIsUnique(s);
    var k :| k in s && IsLeast(k, s);
    k
  }

  /** `sorted` of a dictionary's keys. */
  function SortedKeys(s: set<string>): (keys: seq<string>)
    ensures forall k :: k in keys <==> k in s
    decreases |s|
  {
    if s == {} then [] else
      var k := Least(s);
      [k] + SortedKeys(s - {k})
  }

  /** Strictly increasing, so sorted and without repetition. */
  ghost predicate Increasing(keys: seq<string>) {
    forall i, j :: 0 <= i < j < |keys| ==> LexLeq(keys[i], keys[j]) && keys[i] != keys[j]
  }

  lemma {:induction false} SortedKeysIncreasing(s: set<string>)
    ensures Increasing(SortedKeys(s))
    decreases |s|
  {
    if s != {} {
      var k := Least(s);
      SortedKeysIncreasing(s - {k});
      var keys, tail := SortedKeys(s), SortedKeys(s - {k});
      forall i, j | 0 <= i < j < |keys| ensures LexLeq(keys[i], keys[j]) && keys[i] != keys[j] {
        assert keys[j] == tail[j - 1];
        assert tail[j - 1] in s - {k};
        if i > 0 {
          assert keys[i] == tail[i - 1];
        }
      }
    }
  }

  function Hex4(n: nat): (t: string)
    requires n < 0x10000
    ensures |t| == 4
  {
    [HEX_DIGITS[n / 0x1000], HEX_DIGITS[n / 0x100 % 16], HEX_DIGITS[n / 0x10 % 16], HEX_DIGITS[n % 16]]
  }

  /** One character inside a string literal; `ascii` is the escaping mode of `json.dumps`. */
  function EscapeChar(c: char, ascii: bool): (t: string)
    ensures |t| >= 1
  {
    var n := c as int;
    if c == '\"' then "\\\""
    else if c == '\\' then "\\\\"
    else if c == '\n' then "\\n"
    else if c == '\r' then "\\r"
    else if c == '\t' then "\\t"
    else if n == 12 then "\\f"
    else if n == 8 then "\\b"
    else if c < ' ' || (ascii && c > '~') then
      if n < 0x10000 then "\\u" + Hex4(n)
      else "\\u" + Hex4(0xD800 + (n - 0x10000) / 0x400) + "\\u" + Hex4(0xDC00 + (n - 0x10000) % 0x400)
    else [c]
  }

  function Escape(s: string, ascii: bool): string {
    if s == "" then "" else EscapeChar(s[0], ascii) + Escape(s[1..], ascii)
  }

  function Quote(s: string, ascii: bool): string {
    "\"" + Escape(s, ascii) + "\""
  }

  function DigitChar(d: nat): char
    requires d < 10
  {
    ('0' as int + d) as char
  }

  function Decimal(n: nat): (t: string)
    ensures |t| >= 1
  {
    if n < 10 then [DigitChar(n)] else Decimal(n / 10) + [DigitChar(n % 10)]
  }

  function IntText(n: int): string {
    if n < 0 then "-" + Decimal(-n) else Decimal(n)
  }

  /** Compact JSON text with sorted keys: `canonical_json` when `ascii`, `_canon` when not. */
  function Canonical(v: Json, ascii: bool): (t: string)
    decreases v, 1, 0
  {
    match v
    case Null => "null"
    case Bool(b) => if b then "true" else "false"
    case Int(n) => IntText(n)
    case Str(s) => Quote(s, ascii)
    case Arr(elems) => "[" + Elements(v, 0, ascii) + "]"
    case Obj(fields) => "{" + Members(v, SortedKeys(fields.Keys), ascii) + "}"
  }

  function Elements(v: Json, i: nat, ascii: bool): string
    requires v.Arr? && i <= |v.elems|
    decreases v, 0, |v.elems| - i
  {
    if i == |v.elems| then "" else
      Canonical(v.elems[i], ascii) + (if i + 1 == |v.elems| then "" else "," + Elements(v, i + 1, ascii))
  }

  function Members(v: Json, keys: seq<string>, ascii: bool): string
    requires v.Obj? && forall k :: k in keys ==> k in v.fields
    decreases v, 0, |keys|
  {
    if keys == [] then "" else
      Quote(keys[0], ascii) + ":" + Canonical(v.fields[keys[0]], ascii) +
      (if |keys| == 1 then "" else "," + Members(v, keys[1..], ascii))
  }
}
