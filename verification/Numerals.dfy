/** Positional numerals in any base, most significant digit first. */
module Numerals {
  import opened Arithmetic
  import opened Text

  predicate AllBelow(digits: seq<nat>, base: nat) {
    forall i :: 0 <= i < |digits| ==> digits[i] < base
  }

  function Value(digits: seq<nat>, base: nat): nat {
    if digits == [] then 0 else Push(Value(digits[..|digits| - 1], base), base, digits[|digits| - 1])
  }

  function Push(v: nat, base: nat, d: nat): nat {
    v * base + d
  }

  /** The numeral of n without leading zeros; zero has the empty numeral. */
  function Digits(n: nat, base: nat): (digits: seq<nat>)
    requires base >= 2
    ensures AllBelow(digits, base)
    ensures digits != [] ==> digits[0] != 0
    ensures digits == [] <==> n == 0
  {
    if n == 0 then [] else Digits(n / base, base) + [n % base]
  }

  function Zeros(n: nat): seq<nat> {
    seq(n, _ => 0)
  }

  function LeadingZeros(digits: seq<nat>): (k: nat)
    ensures k <= |digits|
    ensures forall i :: 0 <= i < k ==> digits[i] == 0
    ensures k < |digits| ==> digits[k] != 0
  {
    if digits != [] && digits[0] == 0 then 1 + LeadingZeros(digits[1..]) else 0
  }

  lemma PushInverse(n: nat, base: nat)
    requires base >= 2
    ensures Push(n / base, base, n % base) == n
  {
    var q, r := DivisionIdentity(n, base);
  }

  lemma PushParts(v: nat, base: nat, d: nat)
    requires base >= 2 && d < base
    ensures Push(v, base, d) / base == v && Push(v, base, d) % base == d
    ensures Push(v, base, d) == 0 <==> v == 0 && d == 0
  {
    QuotientUnique(Push(v, base, d), base, v, d);
  }

  lemma {:induction false} ValueOfDigits(n: nat, base: nat)
    requires base >= 2
    ensures Value(Digits(n, base), base) == n
  {
    hide Push;
    if n != 0 {
      ValueOfDigits(n / base, base);
      PushInverse(n, base);
      assert Digits(n, base)[..|Digits(n, base)| - 1] == Digits(n / base, base);
    }
  }

  /** Leading zeros are the only thing a number forgets about its numeral. */
  lemma {:induction false} DigitsOfValue(digits: seq<nat>, base: nat)
    requires base >= 2 && AllBelow(digits, base)
    ensures Digits(Value(digits, base), base) == digits[LeadingZeros(digits)..]
  {
    hide Push, LeadingZeros;
    if digits != [] {
      var n := |digits| - 1;
      var init := digits[..n];
      DigitsOfValue(init, base);
      PushParts(Value(init, base), base, digits[n]);
      LeadingZerosPush(init, digits[n]);
      assert init + [digits[n]] == digits;
      if LeadingZeros(init) < n {
        assert init[LeadingZeros(init)..] + [digits[n]] == digits[LeadingZeros(init)..];
      } else {
        assert init[LeadingZeros(init)..] == [];
      }
    }
  }

  lemma {:induction false} LeadingZerosPush(digits: seq<nat>, d: nat)
    ensures LeadingZeros(digits + [d]) ==
            if LeadingZeros(digits) < |digits| then LeadingZeros(digits)
            else if d == 0 then |digits| + 1 else |digits|
  {
    if digits != [] {
      assert (digits + [d])[1..] == digits[1..] + [d];
      if digits[0] == 0 {
        LeadingZerosPush(digits[1..], d);
      }
    } else {
      assert digits + [d] == [d];
    }
  }

  lemma {:induction false} LeadingZerosOf(k: nat, digits: seq<nat>)
    requires digits != [] ==> digits[0] != 0
    ensures LeadingZeros(Zeros(k) + digits) == k
  {
    if k == 0 {
      assert Zeros(k) + digits == digits;
    } else {
      LeadingZerosOf(k - 1, digits);
      assert (Zeros(k) + digits)[1..] == Zeros(k - 1) + digits;
    }
  }

  lemma {:induction false} ValueOfZeros(k: nat, digits: seq<nat>, base: nat)
    ensures Value(Zeros(k) + digits, base) == Value(digits, base)
    decreases k, |digits|
  {
    var all := Zeros(k) + digits;
    if digits != [] {
      assert all[..|all| - 1] == Zeros(k) + digits[..|digits| - 1];
      ValueOfZeros(k, digits[..|digits| - 1], base);
    } else if k > 0 {
      assert all[..|all| - 1] == Zeros(k - 1) + digits;
      ValueOfZeros(k - 1, digits, base);
    }
  }

  /** A numeral is its leading zeros and the minimal numeral of its value. */
  lemma Normal(digits: seq<nat>, base: nat)
    requires base >= 2 && AllBelow(digits, base)
    ensures digits == Zeros(LeadingZeros(digits)) + Digits(Value(digits, base), base)
  {
    DigitsOfValue(digits, base);
  }

  /** The same number, with the same count of leading zeros, in another base. */
  function Transcode(digits: seq<nat>, base: nat, other: nat): (r: seq<nat>)
    requires other >= 2
    ensures AllBelow(r, other)
  {
    Zeros(LeadingZeros(digits)) + Digits(Value(digits, base), other)
  }

  /** Changing the base loses nothing, leading zeros included. */
  lemma TranscodeInverse(digits: seq<nat>, base: nat, other: nat)
    requires base >= 2 && other >= 2 && AllBelow(digits, base)
    ensures Transcode(Transcode(digits, base, other), other, base) == digits
  {
    var k, v := LeadingZeros(digits), Value(digits, base);
    LeadingZerosOf(k, Digits(v, other));
    ValueOfZeros(k, Digits(v, other), other);
    ValueOfDigits(v, other);
    Normal(digits, base);
  }

  /** `int.to_bytes(k, "big")`, which raises when the number does not fit. */
  function ToBytes(n: nat, k: nat): (r: Option<seq<nat>>)
    ensures r.Some? ==> |r.value| == k && AllBelow(r.value, 256)
  {
    if k == 0 then (if n == 0 then Some([]) else None)
    else
      match ToBytes(n / 256, k - 1)
      case None => None
      case Some(high) => Some(high + [n % 256])
  }

  /** `int.bit_length`. */
  function BitLength(n: nat): nat {
    if n == 0 then 0 else 1 + BitLength(n / 2)
  }

  lemma BitLengthShift(n: nat)
    requires n >= 256
    ensures BitLength(n) == 8 + BitLength(n / 256)
  {
    var a := n / 2;
    var b := a / 2;
    var c := b / 2;
    var d := c / 2;
    var e := d / 2;
    var f := e / 2;
    var g := f / 2;
    assert BitLength(n) == 1 + BitLength(a) && BitLength(a) == 1 + BitLength(b);
    assert BitLength(b) == 1 + BitLength(c) && BitLength(c) == 1 + BitLength(d);
    assert BitLength(d) == 1 + BitLength(e) && BitLength(e) == 1 + BitLength(f);
    assert BitLength(f) == 1 + BitLength(g) && BitLength(g) == 1 + BitLength(g / 2);
    assert g / 2 == n / 256;
  }

  lemma {:induction false} BitLengthSmall(n: nat, bits: nat, bound: nat)
    requires 0 < n < bound
    requires bits <= 8 && bound == [1, 2, 4, 8, 16, 32, 64, 128, 256][bits]
    ensures 1 <= BitLength(n) <= bits
  {
    if n > 1 {
      BitLengthSmall(n / 2, bits - 1, bound / 2);
    }
  }

  /** Rounding the bit length up to whole bytes gives the length of the base-256 numeral,
      so the conversion never overflows and never pads. */
  lemma {:induction false} ByteLength(n: nat)
    ensures (BitLength(n) + 7) / 8 == |Digits(n, 256)|
    ensures ToBytes(n, (BitLength(n) + 7) / 8) == Some(Digits(n, 256))
  {
    if n >= 256 {
      BitLengthShift(n);
      ByteLength(n / 256);
    } else if n > 0 {
      BitLengthSmall(n, 8, 256);
      assert n / 256 == 0;
      assert ToBytes(0, 0) == Some([]);
    }
  }
}
