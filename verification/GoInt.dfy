/** Go's fixed-width integers, written out over unbounded `int`: the ranges, the
    two's complement conversions, and bitwise or. */
module GoInt {

  const TWO_63: int := 0x8000_0000_0000_0000
  const TWO_64: int := 0x1_0000_0000_0000_0000

  newtype byte = x: int | 0 <= x < 256
  type uint32 = x: int | 0 <= x < 0x1_0000_0000
  type int32 = x: int | -0x8000_0000 <= x < 0x8000_0000
  type uint64 = x: int | 0 <= x < 0x1_0000_0000_0000_0000
  type int64 = x: int | -0x8000_0000_0000_0000 <= x < 0x8000_0000_0000_0000

  type bytes = seq<byte>

  // Conversions. `x % 2^n` is the n-bit pattern of x, since Dafny's `%` is never negative.

  function Uint64(x: int): uint64 { x % 0x1_0000_0000_0000_0000 }

  function Uint32(x: int): uint32 { x % 0x1_0000_0000 }

  function Int64(x: int): int64 {
    var u := x % 0x1_0000_0000_0000_0000;
    if u < 0x8000_0000_0000_0000 then u else u - 0x1_0000_0000_0000_0000
  }

  function Int32(x: int): int32 {
    var u := x % 0x1_0000_0000;
    if u < 0x8000_0000 then u else u - 0x1_0000_0000
  }

  /** The pattern of a 64-bit integer. */
  lemma Pattern(x: int64)
    ensures Uint64(x) == if x < 0 then x + 0x1_0000_0000_0000_0000 else x
  {
  }

  lemma Truncations(x: int)
    ensures Int64(Uint64(x)) == Int64(x)
    ensures Int32(Uint32(x)) == Int32(x)
    ensures Uint32(Uint32(x)) == Uint32(x)
  {
  }

  function Pow2(n: nat): (p: nat)
    ensures p > 0
  {
    if n == 0 then 1 else 2 * Pow2(n - 1)
  }

  lemma {:induction false} Pow2Add(a: nat, b: nat)
    ensures Pow2(a + b) == Pow2(a) * Pow2(b)
  {
    if a > 0 {
      Pow2Add(a - 1, b);
      assert Pow2(a + b) == 2 * Pow2(a - 1 + b);
    }
  }

  lemma Pow2Values()
    ensures Pow2(7) == 128
    ensures Pow2(32) == 0x1_0000_0000
    ensures Pow2(64) == 0x1_0000_0000_0000_0000
  {
    assert Pow2(1) == 2;
    hide Pow2;
    Pow2Add(1, 1);
    Pow2Add(2, 2);
    Pow2Add(4, 2);
    Pow2Add(6, 1);
    Pow2Add(4, 4);
    Pow2Add(8, 8);
    Pow2Add(16, 16);
    Pow2Add(32, 32);
  }

  /** Bitwise or, bit by bit. */
  function BitOr(a: nat, b: nat): nat {
    if a == 0 && b == 0 then 0
    else (if a % 2 == 1 || b % 2 == 1 then 1 else 0) + 2 * BitOr(a / 2, b / 2)
  }

  lemma {:induction false} BitOrZero(b: nat)
    ensures BitOr(0, b) == b
    ensures BitOr(b, 0) == b
  {
    if b > 0 { BitOrZero(b / 2); }
  }

  /** Or-ing in bits that lie above every bit already set is addition. */
  lemma {:induction false} BitOrDisjoint(a: nat, c: nat, shift: nat)
    requires a < Pow2(shift)
    ensures BitOr(a, c * Pow2(shift)) == a + c * Pow2(shift)
  {
    if shift == 0 {
      BitOrZero(c);
    } else if a == 0 {
      BitOrZero(c * Pow2(shift));
    } else {
      var half := c * Pow2(shift - 1);
      assert c * Pow2(shift) == 2 * half;
      BitOrDisjoint(a / 2, c, shift - 1);
      assert (2 * half) / 2 == half && (2 * half) % 2 == 0;
    }
  }

  /** The remainder is the one value in range that differs by a multiple. */
  lemma ModUnique(x: int, m: int, q: int, r: int)
    requires 0 <= r < m
    requires x == q * m + r
    ensures x % m == r
  {
    var q', r' := x / m, x % m;
    assert x == q' * m + r';
    MultipleInRange(q - q', m, r' - r) by {
      assert (q - q') * m == q * m - q' * m;
    }
  }

  lemma MultipleInRange(k: int, m: int, d: int)
    requires k * m == d
    requires -m < d < m
    ensures d == 0
  {
    assert k >= 1 ==> (k - 1) * m >= 0;
    assert k <= -1 ==> (-k - 1) * m >= 0;
  }

  lemma MulAssoc(a: int, b: int, c: int)
    ensures a * (b * c) == (a * b) * c
  {
  }

  lemma ModOfMultiple(p: int, k: int, w: int)
    requires w > 0
    ensures (p + k * w) % w == p % w
  {
    var q, r := p / w, p % w;
    assert p == q * w + r;
    assert p + k * w == (q + k) * w + r;
    ModUnique(p + k * w, w, q + k, r);
  }

  /** (b * s) mod (d * s) keeps the low part of `b`; a smaller summand is kept whole. */
  lemma ModOfShifted(p: nat, b: nat, s: nat, d: nat)
    requires p < s && d > 0
    ensures (p + b * s) % (d * s) == p + (b % d) * s
    ensures p + (b % d) * s < d * s
  {
    var q, c := b / d, b % d;
    assert b == q * d + c;
    assert b * s == q * (d * s) + c * s by {
      assert b * s == (q * d) * s + c * s;
      MulAssoc(q, d, s);
    }
    assert p + c * s < d * s by {
      assert (d - 1 - c) * s >= 0;
      assert (d - 1 - c) * s == d * s - s - c * s;
    }
    ModUnique(p + b * s, d * s, q, p + c * s);
  }

  /** A number truncated to a width. */
  function Trunc(x: nat, width: nat): nat {
    x % Pow2(width)
  }

  /** `acc |= T(g) << shift` in an unsigned type of the given width. */
  function OrShift(acc: nat, g: nat, shift: nat, width: nat): nat {
    BitOr(acc, Trunc(g * Pow2(shift), width))
  }

  /** Where `acc` is the truncation of a number below 2^shift, the step is the truncation of
      the exact sum. */
  lemma OrShiftStep(p: nat, b: nat, shift: nat, width: nat)
    requires p < Pow2(shift)
    ensures OrShift(Trunc(p, width), b, shift, width) == Trunc(p + b * Pow2(shift), width)
  {
    hide BitOr, Pow2;
    if shift >= width {
      var d := Pow2(shift - width);
      Pow2Add(shift - width, width);
      MulAssoc(b, d, Pow2(width));
      ModOfMultiple(p, b * d, Pow2(width));
      ModOfMultiple(0, b * d, Pow2(width));
      BitOrZero(p % Pow2(width));
    } else {
      var d := Pow2(width - shift);
      Pow2Add(width - shift, shift);
      ModOfShifted(p, b, Pow2(shift), d);
      ModOfShifted(0, b, Pow2(shift), d);
      ModOfShifted(p, 0, Pow2(shift), d);
      BitOrDisjoint(p, b % d, shift);
    }
  }
}
