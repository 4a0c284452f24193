/** Python string operations the frame code relies on. */
module Text {

  newtype byte = x: int | 0 <= x < 256

  datatype Option<+T> = None | Some(value: T)

  /** `str.isspace`: what `str.strip` removes and `\s` matches. */
  predicate IsSpace(c: char) {
    var n := c as int;
    9 <= n <= 13 || 28 <= n <= 32 || n == 0x85 || n == 0xA0 || n == 0x1680 || 0x2000 <= n <= 0x200A ||
    n == 0x2028 || n == 0x2029 || n == 0x202F || n == 0x205F || n == 0x3000
  }

  function LeftStrip(s: string): (r: string)
    ensures |r| <= |s|
    ensures r != "" ==> !IsSpace(r[0])
  {
    if s != "" && IsSpace(s[0]) then LeftStrip(s[1..]) else s
  }

  function RightStrip(s: string): (r: string)
    ensures r <= s
    ensures r != "" ==> !IsSpace(r[|r| - 1])
  {
    if s != "" && IsSpace(s[|s| - 1]) then RightStrip(s[..|s| - 1]) else s
  }

  function Strip(s: string): string {
    RightStrip(LeftStrip(s))
  }

  lemma StripTight(s: string)
    requires s != "" ==> !IsSpace(s[0]) && !IsSpace(s[|s| - 1])
    ensures Strip(s) == s
  {
  }

  predicate EveryChar(s: string, ok: char -> bool) {
    forall i :: 0 <= i < |s| ==> ok(s[i])
  }

  /** `$` of a Python pattern also matches before one final newline. */
  function Chomp(s: string): string {
    if s != "" && s[|s| - 1] == '\n' then s[..|s| - 1] else s
  }

  function LowerChar(c: char): char {
    if 'A' <= c <= 'Z' then (c as int + 32) as char else c
  }

  /** `str.lower` on ASCII text. */
  function Lower(s: string): (r: string)
    ensures |r| == |s|
  {
    seq(|s|, i requires 0 <= i < |s| => LowerChar(s[i]))
  }

  predicate IsLowerHex(c: char) {
    '0' <= c <= '9' || 'a' <= c <= 'f'
  }

  /** Value of a hexadecimal digit of either case, or 16. */
  function HexDigit(c: char): (d: nat)
    ensures d <= 16
  {
    if '0' <= c <= '9' then c as int - '0' as int
    else if 'a' <= c <= 'f' then c as int - 'a' as int + 10
    else if 'A' <= c <= 'F' then c as int - 'A' as int + 10
    else 16
  }

  /** `bytes.fromhex`: digit pairs, with ASCII whitespace allowed between them. */
  function FromHex(s: string): Option<seq<byte>>
    decreases |s|
  {
    if s == "" then Some([])
    else if s[0] == ' ' || 9 <= s[0] as int <= 13 then FromHex(s[1..])
    else if |s| < 2 || HexDigit(s[0]) == 16 || HexDigit(s[1]) == 16 then None
    else
      match FromHex(s[2..])
      case None => None
      case Some(bytes) => Some([(16 * HexDigit(s[0]) + HexDigit(s[1])) as byte] + bytes)
  }

  const HEX_DIGITS := "0123456789abcdef"

  /** `bytes.hex`. */
  function ToHex(bytes: seq<byte>): (s: string)
    ensures |s| == 2 * |bytes|
    ensures EveryChar(s, IsLowerHex)
  {
    if bytes == [] then "" else
      var b := bytes[0] as int;
      [HEX_DIGITS[b / 16], HEX_DIGITS[b % 16]] + ToHex(bytes[1..])
  }

  lemma HexDigitInverse(d: nat)
    requires d < 16
    ensures HexDigit(HEX_DIGITS[d]) == d && IsLowerHex(HEX_DIGITS[d]) && HEX_DIGITS[d] > ' '
  {
  }

  lemma {:induction false} HexRoundTrip(bytes: seq<byte>)
    ensures FromHex(ToHex(bytes)) == Some(bytes)
  {
    if bytes != [] {
      var b := bytes[0] as int;
      HexDigitInverse(b / 16);
      HexDigitInverse(b % 16);
      HexRoundTrip(bytes[1..]);
      assert ToHex(bytes)[2..] == ToHex(bytes[1..]);
      assert 16 * (b / 16) + b % 16 == b;
      hide HEX_DIGITS;
      assert [bytes[0]] + bytes[1..] == bytes;
    }
  }

  lemma {:induction false} BarSplits(a: string, b: string, s: string, t: string)
    requires '|' !in a && '|' !in b && a + "|" + s == b + "|" + t
    ensures a == b && s == t
    decreases |a|
  {
    var x, y := a + "|" + s, b + "|" + t;
    if a == "" || b == "" {
      assert x[0] == y[0];
      assert a == "" && b == "";
      assert x[1..] == s && y[1..] == t;
    } else {
      assert x[0] == a[0] && y[0] == b[0];
      assert x[1..] == a[1..] + "|" + s && y[1..] == b[1..] + "|" + t;
      BarSplits(a[1..], b[1..], s, t);
      assert a == [a[0]] + a[1..] && b == [b[0]] + b[1..];
    }
  }
}
