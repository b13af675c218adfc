/** Bit strings, least significant bit first, and the bytes that carry them. */
module Bits {
  import opened Prelude

  function Pow2(n: nat): (p: nat)
    ensures p >= 1
  {
    if n == 0 then 1 else 2 * Pow2(n - 1)
  }

  function Digit(b: bool): nat { if b then 1 else 0 }

  /** The number a bit string stands for. */
  function Value(bits: seq<bool>): nat {
    if bits == [] then 0 else Digit(bits[0]) + 2 * Value(bits[1..])
  }

  /** The lowest `width` bits of a number. */
  function BitsOf(n: nat, width: nat): (bits: seq<bool>)
    ensures |bits| == width
  {
    if width == 0 then [] else [n % 2 == 1] + BitsOf(n / 2, width - 1)
  }

  lemma {:induction false} ValueOfBits(n: nat, width: nat)
    requires n < Pow2(width)
    ensures Value(BitsOf(n, width)) == n
  {
    if width > 0 {
      ValueOfBits(n / 2, width - 1);
    }
  }

  lemma {:induction false} ValueBound(bits: seq<bool>)
    ensures Value(bits) < Pow2(|bits|)
  {
    if bits != [] {
      ValueBound(bits[1..]);
    }
  }

  lemma ByteBound(bits: seq<bool>)
    requires |bits| <= 8
    ensures Value(bits) < 256
  {
    ValueBound(bits);
    Pow2Grows(|bits|, 8);
    assert Pow2(8) == 256;
  }

  lemma {:induction false} BitsOfValue(bits: seq<bool>)
    ensures BitsOf(Value(bits), |bits|) == bits
  {
    if bits != [] {
      BitsOfValue(bits[1..]);
      assert bits == [bits[0]] + bits[1..];
    }
  }

  lemma {:induction false} ValueAppend(a: seq<bool>, b: seq<bool>)
    ensures Value(a + b) == Value(a) + Pow2(|a|) * Value(b)
  {
    if a == [] {
      assert a + b == b;
    } else {
      ValueAppend(a[1..], b);
      assert (a + b)[1..] == a[1..] + b;
      Distribute(Digit(a[0]), Value(a[1..]), Pow2(|a| - 1), Value(b));
    }
  }

  lemma Distribute(d: nat, v: nat, p: nat, w: nat)
    ensures d + 2 * (v + p * w) == d + 2 * v + (2 * p) * w
  {
  }

  function Zeros(n: nat): (bits: seq<bool>)
    ensures |bits| == n
  {
    if n == 0 then [] else [false] + Zeros(n - 1)
  }

  lemma {:induction false} ValueOfZeros(n: nat)
    ensures Value(Zeros(n)) == 0
  {
    if n > 0 {
      assert Zeros(n)[1..] == Zeros(n - 1);
      ValueOfZeros(n - 1);
    }
  }

  /** Zero bits on top change no value. */
  lemma ValuePadded(bits: seq<bool>, n: nat)
    ensures Value(bits + Zeros(n)) == Value(bits)
  {
    ValueAppend(bits, Zeros(n));
    ValueOfZeros(n);
  }

  /** Splitting a value is splitting its bits. */
  lemma ValueSplit(bits: seq<bool>, k: nat)
    requires k <= |bits|
    ensures Value(bits) % Pow2(k) == Value(bits[..k])
    ensures Value(bits) / Pow2(k) == Value(bits[k..])
  {
    assert bits == bits[..k] + bits[k..];
    ValueAppend(bits[..k], bits[k..]);
    ValueBound(bits[..k]);
    DivMod(Value(bits), Pow2(k), Value(bits[..k]), Value(bits[k..]));
  }

  lemma DivMod(n: nat, p: nat, low: nat, high: nat)
    requires p > 0 && low < p && n == low + p * high
    ensures n % p == low && n / p == high
  {
    QuotientOf(n, p, low, high, n / p, n % p);
  }

  /** Quotient and remainder are unique. */
  lemma QuotientOf(n: nat, p: nat, low: nat, high: nat, q: nat, r: nat)
    requires low < p && n == low + p * high
    requires r < p && n == r + p * q
    ensures low == r && high == q
  {
    assert p * (q - high) == low - r;
    if q > high {
      Scale(p, q - high);
    } else if q < high {
      Scale(p, high - q);
    }
  }

  lemma Scale(p: nat, d: nat)
    requires d >= 1
    ensures p * d >= p
  {
    assert p * d == p + p * (d - 1);
  }

  // ---------------------------------------------------------------- bytes

  /** The bits of a byte string, byte by byte. */
  function Unpacked(data: seq<nat>): (bits: seq<bool>)
    ensures |bits| == 8 * |data|
  {
    if data == [] then [] else BitsOf(data[0], 8) + Unpacked(data[1..])
  }

  /** The bytes of a bit string; the last byte is filled up with zero bits. */
  function Packed(bits: seq<bool>): (data: seq<nat>)
    ensures |data| == (|bits| + 7) / 8
    decreases |bits|
  {
    if bits == [] then [] else if |bits| < 8 then [Value(bits)] else [Value(bits[..8])] + Packed(bits[8..])
  }

  /** How many bits are missing to a whole byte. */
  function Missing(n: nat): nat { (8 - n % 8) % 8 }

  function PaddingOf(bits: seq<bool>): seq<bool> { Zeros(Missing(|bits|)) }

  lemma {:induction false} Pow2Grows(a: nat, b: nat)
    requires a <= b
    ensures Pow2(a) <= Pow2(b)
    decreases b
  {
    if a < b {
      Pow2Grows(a, b - 1);
    }
  }

  /** Reading packed bits back gives the bits followed by the zero padding. */
  lemma {:induction false} UnpackPacked(bits: seq<bool>)
    ensures Unpacked(Packed(bits)) == bits + PaddingOf(bits)
    decreases |bits|
  {
    if bits == [] {
      assert PaddingOf(bits) == [];
    } else if |bits| < 8 {
      UnpackLastByte(bits);
    } else {
      var head, rest := bits[..8], bits[8..];
      BitsOfValue(head);
      UnpackPacked(rest);
      UnpackByte(Value(head), Packed(rest));
      SamePadding(|bits|);
      AppendAssociates(head, rest, PaddingOf(rest));
      assert bits == head + rest;
    }
  }

  lemma SamePadding(n: nat)
    requires n >= 8
    ensures Missing(n) == Missing(n - 8)
  {
  }

  lemma UnpackByte(byte: nat, rest: seq<nat>)
    ensures Unpacked([byte] + rest) == BitsOf(byte, 8) + Unpacked(rest)
  {
    assert ([byte] + rest)[1..] == rest;
  }

  lemma UnpackLastByte(bits: seq<bool>)
    requires 0 < |bits| < 8
    ensures Unpacked([Value(bits)]) == bits + PaddingOf(bits)
  {
    var n := 8 - |bits|;
    assert Missing(|bits|) == n;
    ValuePadded(bits, n);
    BitsOfValue(bits + Zeros(n));
    UnpackByte(Value(bits), []);
    assert [Value(bits)] + [] == [Value(bits)];
  }

  lemma {:induction false} UnpackedAt(data: seq<nat>, i: nat, k: nat)
    requires i < |data| && k < 8
    ensures Unpacked(data)[8 * i + k] == (data[i] / Pow2(k) % 2 == 1)
    decreases i
  {
    if i == 0 {
      BitsAt(data[0], 8, k);
    } else {
      UnpackedAt(data[1..], i - 1, k);
    }
  }

  lemma {:induction false} BitsAt(n: nat, width: nat, k: nat)
    requires k < width
    ensures BitsOf(n, width)[k] == (n / Pow2(k) % 2 == 1)
    decreases width
  {
    if k > 0 {
      BitsAt(n / 2, width - 1, k - 1);
      ShiftedOnce(n, k);
    }
  }

  /** Dropping `k` bits is dropping one and then the others. */
  lemma ShiftedOnce(n: nat, k: nat)
    requires k > 0
    ensures n / Pow2(k) == n / 2 / Pow2(k - 1)
  {
    HalvedQuotient(n, Pow2(k - 1), n / 2 / Pow2(k - 1), n / 2 % Pow2(k - 1));
  }

  /** Shifting by one place more halves what is shifted. */
  lemma HalvedQuotient(n: nat, p: nat, q: nat, r: nat)
    requires n / 2 == r + p * q && r < p
    ensures n / (2 * p) == q
  {
    Distribute(n % 2, r, p, q);
    DivMod(n, 2 * p, n % 2 + 2 * r, q);
  }
}
