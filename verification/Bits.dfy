/** Single bits of two's complement numbers, and the unsigned 64-bit shifts of the source. */
module Bits {
  import opened Words
  import opened Memory

  /** Bit `i` of `v`; negative numbers have ones without end. */
  predicate Bit(v: int, i: nat)
    decreases i
  {
    if i == 0 then v % 2 == 1 else Bit(v / 2, i - 1)
  }

  /** `x << k` and `x >> k` on `unsigned long`. */
  function Shl(x: int, k: nat): Word {
    x * Pow2(k) % P64
  }

  function Shr(x: Word, k: nat): Word {
    QuotientBelow(x, Pow2(k));
    x / Pow2(k)
  }

  lemma QuotientBelow(x: nat, d: nat)
    requires d > 0
    ensures 0 <= x / d <= x
  {
    DivMod(x, d);
    QuotientBounds(x, x / d, x % d, d);
  }

  lemma QuotientBounds(x: nat, q: int, r: int, d: nat)
    requires x == q * d + r && 0 <= r < d
    ensures 0 <= q <= x
  {
    assert (-q) * d == -(q * d);
    if q > 0 {
      MulLower(d, q);
    } else if q < 0 {
      MulLower(-q, d);
    }
  }

  lemma HalfOfDouble(x: int, b: int)
    requires 0 <= b < 2
    ensures (2 * x + b) / 2 == x && (2 * x + b) % 2 == b
  {
  }

  /** A multiplication by 2^k moves the bits up. */
  lemma {:induction false} BitOfShifted(v: int, k: nat, i: nat)
    ensures Bit(v * Pow2(k), i) == (i >= k && Bit(v, i - k))
    decreases k
  {
    if k > 0 {
      var u := v * Pow2(k - 1);
      assert v * Pow2(k) == 2 * u;
      HalfOfDouble(u, 0);
      if i > 0 { BitOfShifted(v, k - 1, i - 1); }
    } else {
      assert v * Pow2(0) == v;
    }
  }

  lemma DivTwice(v: int, a: nat, b: nat)
    requires a > 0 && b > 0
    ensures v / (a * b) == v / a / b
  {
    var q, r := v / a, v % a;
    DivMod(v, a);
    DivMod(q, b);
    var s := q % b;
    assert v == (q / b) * (a * b) + (s * a + r) by {
      assert q * a == (q / b) * b * a + s * a;
      assert (q / b) * b * a == (q / b) * (a * b);
    }
    assert 0 <= s * a + r < a * b by {
      MulLe(s, b - 1, a);
      assert (b - 1) * a == a * b - a;
      MulLe(0, s, a);
    }
    DivUnique(v, q / b, s * a + r, a * b);
  }

  lemma {:induction false} MulLe(x: int, y: int, a: nat)
    requires x <= y
    ensures x * a <= y * a
    decreases a
  {
    if a > 0 {
      MulLe(x, y, a - 1);
      assert x * a == x * (a - 1) + x && y * a == y * (a - 1) + y;
    }
  }

  lemma DivUnique(v: int, q: int, r: int, m: nat)
    requires 0 <= r < m && v == q * m + r
    ensures v / m == q && v % m == r
  {
    DivMod(v, m);
    assert (v / m - q) * m == r - v % m by { MulSub(v / m, q, m); }
    SmallMultiple(v / m - q, m);
  }

  /** A division by 2^k moves the bits down. */
  lemma {:induction false} BitOfQuotient(v: int, k: nat, i: nat)
    ensures Bit(v / Pow2(k), i) == Bit(v, i + k)
    decreases k
  {
    if k > 0 {
      DivTwice(v, 2, Pow2(k - 1));
      BitOfQuotient(v / 2, k - 1, i);
    }
  }

  /** A remainder modulo 2^n keeps the low `n` bits. */
  lemma {:induction false} BitOfRemainder(v: int, n: nat, i: nat)
    ensures Bit(v % Pow2(n), i) == (i < n && Bit(v, i))
    decreases n
  {
    if n == 0 {
      BitOfZero(i);
    } else {
      SplitBit(v, Pow2(n - 1));
      HalfOfDouble((v / 2) % Pow2(n - 1), v % 2);
      if i > 0 { BitOfRemainder(v / 2, n - 1, i - 1); }
    }
  }

  lemma SplitBit(v: int, m: nat)
    requires m > 0
    ensures v % (2 * m) == 2 * ((v / 2) % m) + v % 2
  {
    DivMod(v / 2, m);
    var q, r := v / 2 / m, (v / 2) % m;
    assert v == q * (2 * m) + (2 * r + v % 2) by { assert q * (2 * m) == 2 * (q * m); }
    DivUnique(v, q, 2 * r + v % 2, 2 * m);
  }

  lemma {:induction false} BitOfZero(i: nat)
    ensures !Bit(0, i)
  {
    if i > 0 { BitOfZero(i - 1); }
  }

  predicate BitResult(op: BitOp, x: bool, y: bool) {
    match op
    case BitAnd => x && y
    case BitOr => x || y
    case BitXor => x != y
  }

  /** The bitwise operators work bit by bit. */
  lemma {:induction false} BitOfBitwise(op: BitOp, n: nat, a: int, b: int, i: nat)
    ensures Bit(Bitwise(op, n, a, b), i) == (i < n && BitResult(op, Bit(a, i), Bit(b, i)))
    decreases n
  {
    if n == 0 {
      BitOfZero(i);
    } else {
      HalfOfDouble(Bitwise(op, n - 1, a / 2, b / 2), OneBit(op, a % 2, b % 2));
      if i > 0 { BitOfBitwise(op, n - 1, a / 2, b / 2, i - 1); }
    }
  }

  /** Numbers below 2^n with the same bits are equal. */
  lemma {:induction false} SameBits(a: nat, b: nat, n: nat)
    requires a < Pow2(n) && b < Pow2(n)
    requires forall i: nat :: i < n ==> Bit(a, i) == Bit(b, i)
    ensures a == b
    decreases n
  {
    if n > 0 {
      assert Bit(a, 0) == Bit(b, 0);
      forall i: nat | i < n - 1
        ensures Bit(a / 2, i) == Bit(b / 2, i)
      {
        assert Bit(a, i + 1) == Bit(b, i + 1);
      }
      SameBits(a / 2, b / 2, n - 1);
    }
  }

  /** 2^n - 1 has `n` ones. */
  lemma {:induction false} BitOfOnes(n: nat, i: nat)
    ensures Bit(Pow2(n) - 1, i) <==> i < n
    decreases n
  {
    if n == 0 {
      BitOfZero(i);
    } else {
      HalfOfDouble(Pow2(n - 1) - 1, 1);
      if i > 0 { BitOfOnes(n - 1, i - 1); }
    }
  }

  lemma Pow2Is64()
    ensures Pow2(64) == P64
  {
    Pow2Width(Long);
  }

  lemma BitOfShl(x: int, k: nat, i: nat)
    ensures Bit(Shl(x, k), i) == (k <= i < 64 && Bit(x, i - k))
  {
    Pow2Is64();
    BitOfRemainder(x * Pow2(k), 64, i);
    BitOfShifted(x, k, i);
  }

  lemma BitOfShr(x: Word, k: nat, i: nat)
    ensures Bit(Shr(x, k), i) == Bit(x, i + k)
  {
    BitOfQuotient(x, k, i);
  }

  // ---------- the mask of a bit-field ----------

  /** `((0xFFFFFFFFFFFFFFFF << (64 - end)) >> (64 - width)) << begin` */
  function BitFieldMask(begin: nat, width: nat): Word
    requires 0 < width && begin + width <= 64
  {
    Shl(Shr(Shl(P64 - 1, 64 - (begin + width)), 64 - width), begin)
  }

  /** The mask has ones exactly at the bits of the field. */
  lemma MaskBits(begin: nat, width: nat, i: nat)
    requires 0 < width && begin + width <= 64
    ensures Bit(BitFieldMask(begin, width), i) <==> begin <= i < begin + width
  {
    var end := begin + width;
    var a := Shl(P64 - 1, 64 - end);
    var b := Shr(a, 64 - width);
    BitOfShl(b, begin, i);
    if begin <= i {
      BitOfShr(a, 64 - width, i - begin);
      var j := i - begin + 64 - width;
      BitOfShl(P64 - 1, 64 - end, j);
      Pow2Is64();
      if 64 - end <= j { BitOfOnes(64, j - (64 - end)); }
    }
  }

  // ---------- bytes ----------

  /** The `n` low bytes of a number, lowest first. */
  function LittleEndian(v: int, n: nat): (s: seq<Byte>)
    ensures |s| == n
    decreases n
  {
    if n == 0 then [] else [v % 256] + LittleEndian(v / 256, n - 1)
  }

  lemma {:induction false} BitOfByte(v: int, n: nat, k: nat, m: nat)
    requires k < n && m < 8
    ensures Bit(LittleEndian(v, n)[k], m) == Bit(v, 8 * k + m)
    decreases n
  {
    Pow2Byte();
    if k == 0 {
      BitOfRemainder(v, 8, m);
    } else {
      BitOfByte(v / 256, n - 1, k - 1, m);
      BitOfQuotient(v, 8, 8 * (k - 1) + m);
    }
  }

  lemma {:induction false} StoredByte(m: Mem, a: int, n: nat, v: int, k: nat)
    requires k < n
    ensures At(Store(m, a, n, v), a + k) == LittleEndian(v, n)[k]
    decreases n
  {
    var m1 := m[a := v % 256];
    if k > 0 { StoredByte(m1, a + 1, n - 1, v / 256, k - 1); }
  }

  /** The widest move that fits: 8, 4, 2 or 1 bytes. */
  function UnitFor(n: nat): nat {
    if n >= 8 then 8 else if n >= 4 then 4 else if n >= 2 then 2 else 1
  }

  function ZeroBytes(n: nat): (s: seq<Byte>)
    ensures |s| == n
  {
    seq(n, _ => 0)
  }

  lemma BitOfZeroByte(n: nat, k: nat, m: nat)
    requires k < n
    ensures !Bit(ZeroBytes(n)[k], m)
  {
    BitOfZero(m);
  }
}
