/** Two's complement words of the two signed types the code generator computes with:
    `int` (4 bytes) and `long` (8 bytes). A register holds an unsigned 64-bit pattern. */
module Words {

  const P32 := 0x1_0000_0000
  const P64 := 0x1_0000_0000_0000_0000

  type Word = w: int | 0 <= w < P64

  datatype Ty = Int | Long

  function Bytes(ty: Ty): nat {
    match ty
    case Int => 4
    case Long => 8
  }

  function Modulus(ty: Ty): int {
    match ty
    case Int => P32
    case Long => P64
  }

  /** The low half of a word, read as an unsigned number of the width of `ty`. */
  function ToUnsigned(ty: Ty, v: int): (u: Word)
    ensures u < Modulus(ty)
  {
    match ty
    case Int => v % P32
    case Long => v % P64
  }

  /** The signed reading of the low `Bytes(ty)` bytes of `v`. */
  function ToSigned(ty: Ty, v: int): (r: int)
    ensures InRange(ty, r)
    ensures InRange(ty, v) ==> r == v
  {
    var u := ToUnsigned(ty, v);
    if u < Modulus(ty) / 2 then u else u - Modulus(ty)
  }

  predicate InRange(ty: Ty, v: int) {
    -(Modulus(ty) / 2) <= v < Modulus(ty) / 2
  }

  /** A word holds a value when the bytes an instruction of this width reads are its two's complement. */
  predicate Holds(ty: Ty, w: int, v: int) {
    ToSigned(ty, w) == v
  }

  lemma SignedOfUnsigned(ty: Ty, v: int)
    ensures ToSigned(ty, ToUnsigned(ty, v)) == ToSigned(ty, v)
    ensures ToUnsigned(ty, ToSigned(ty, v)) == ToUnsigned(ty, v)
  {
  }

  /** Truncation toward zero, as C and `idiv` divide. */
  function TruncDiv(a: int, b: int): int
    requires b != 0
  {
    if a >= 0 then
      (if b > 0 then a / b else -(a / (-b)))
    else
      (if b > 0 then -((-a) / b) else (-a) / (-b))
  }

  function TruncMod(a: int, b: int): int
    requires b != 0
  {
    a - TruncDiv(a, b) * b
  }

  // ---------- powers of two ----------

  function Pow2(n: nat): (p: nat)
    ensures p >= 1
  {
    if n == 0 then 1 else 2 * Pow2(n - 1)
  }

  lemma {:induction false} Pow2Add(m: nat, n: nat)
    ensures Pow2(m + n) == Pow2(m) * Pow2(n)
  {
    if m > 0 {
      Pow2Add(m - 1, n);
      assert Pow2(m + n) == 2 * Pow2(m - 1 + n);
      assert 2 * (Pow2(m - 1) * Pow2(n)) == (2 * Pow2(m - 1)) * Pow2(n);
    }
  }

  lemma Pow2Byte()
    ensures Pow2(8) == 256
  {
  }

  lemma Pow2Width(ty: Ty)
    ensures Pow2(8 * Bytes(ty)) == Modulus(ty)
  {
    var b := 8 * Bytes(ty) / 4;
    Pow2Add(b, b);
    Pow2Add(2 * b, 2 * b);
    Pow2Byte();
    if ty.Long? { Pow2Add(8, 8); }
  }

  // ---------- bitwise operators on numbers ----------

  datatype BitOp = BitAnd | BitOr | BitXor

  function OneBit(op: BitOp, x: int, y: int): int {
    match op
    case BitAnd => if x == 1 && y == 1 then 1 else 0
    case BitOr => if x == 1 || y == 1 then 1 else 0
    case BitXor => if x != y then 1 else 0
  }

  /** The low `n` bits of the bitwise combination of two numbers in two's complement:
      `/` and `%` are floor division and a 0/1 remainder, so this reads negative numbers correctly. */
  function Bitwise(op: BitOp, n: nat, a: int, b: int): (r: nat)
    ensures r < Pow2(n)
    decreases n
  {
    if n == 0 then 0 else OneBit(op, a % 2, b % 2) + 2 * Bitwise(op, n - 1, a / 2, b / 2)
  }

  /** Only the low `n` bits of the operands matter. */
  lemma {:induction false} BitwiseLow(op: BitOp, n: nat, a: int, b: int, a': int, b': int)
    requires a % Pow2(n) == a' % Pow2(n) && b % Pow2(n) == b' % Pow2(n)
    ensures Bitwise(op, n, a, b) == Bitwise(op, n, a', b')
    decreases n
  {
    if n > 0 {
      HalveMod(a, a', Pow2(n - 1));
      HalveMod(b, b', Pow2(n - 1));
      BitwiseLow(op, n - 1, a / 2, b / 2, a' / 2, b' / 2);
    }
  }

  lemma HalveMod(a: int, b: int, m: nat)
    requires m > 0 && a % (2 * m) == b % (2 * m)
    ensures a % 2 == b % 2
    ensures (a / 2) % m == (b / 2) % m
  {
    var q, q', r := a / (2 * m), b / (2 * m), a % (2 * m);
    assert a == q * (2 * m) + r && b == q' * (2 * m) + r;
    assert a == 2 * (q * m) + r && b == 2 * (q' * m) + r by {
      assert q * (2 * m) == 2 * (q * m);
      assert q' * (2 * m) == 2 * (q' * m);
    }
    assert a / 2 == q * m + r / 2;
    assert b / 2 == q' * m + r / 2;
    ModShift(r / 2, q, m);
    ModShift(r / 2, q', m);
  }

  lemma ModShift(r: int, q: int, m: int)
    requires m > 0
    ensures (q * m + r) % m == r % m
  {
    var d := (q * m + r) / m;
    var e := r / m;
    assert q * m + r == d * m + (q * m + r) % m;
    assert r == e * m + r % m;
    assert (q + e - d) * m == (q * m + r) % m - r % m by {
      assert (q + e - d) * m == q * m + e * m - d * m;
    }
    SmallMultiple(q + e - d, m);
  }

  lemma SubMod(x: int, y: int, m: int)
    requires m > 0
    ensures (x - y) % m == if x % m >= y % m then x % m - y % m else x % m - y % m + m
  {
    var q, r := x / m, y / m;
    DivMod(x, m);
    DivMod(y, m);
    var d := x % m - y % m;
    assert x - y == (q - r) * m + d by { MulSub(q, r, m); }
    ModShift(d, q - r, m);
    if d < 0 {
      ModShift(d, 1, m);
      ModSmall(d + m, m);
    } else {
      ModSmall(d, m);
    }
  }

  lemma MulSub(q: int, r: int, m: int)
    ensures (q - r) * m == q * m - r * m
  {
  }

  lemma DivMod(u: int, m: int)
    requires m > 0
    ensures u == (u / m) * m + u % m && 0 <= u % m < m
  {
  }

  lemma ModSmall(x: int, m: int)
    requires 0 <= x < m
    ensures x % m == x
  {
  }

  lemma SmallMultiple(k: int, m: int)
    requires -m < k * m < m
    ensures k == 0
  {
    if k > 0 {
      MulLower(k, m);
    } else if k < 0 {
      MulLower(-k, m);

    }
  }

  lemma {:induction false} MulLower(k: int, m: int)
    requires k > 0 && m > 0
    ensures k * m >= m
    decreases k
  {
    if k > 1 {
      MulLower(k - 1, m);
      assert k * m == (k - 1) * m + m;
    }
  }

  lemma {:induction false} XorSelf(n: nat, a: int)
    ensures Bitwise(BitXor, n, a, a) == 0
    decreases n
  {
    if n > 0 { XorSelf(n - 1, a / 2); }
  }

  lemma AddMod(a: int, b: int, a': int, b': int, m: int)
    requires m > 0 && a % m == a' % m && b % m == b' % m
    ensures (a + b) % m == (a' + b') % m
  {
    DivMod(a, m);
    DivMod(a', m);
    DivMod(b, m);
    DivMod(b', m);
    var i, j := a / m - a' / m, b / m - b' / m;
    MulSub(a / m, a' / m, m);
    MulSub(b / m, b' / m, m);
    assert a + b == (i + j) * m + (a' + b') by {
      assert (i + j) * m == i * m + j * m;
    }
    ModShift(a' + b', i + j, m);
  }

  /** Multiplication modulo `m` only reads its operands modulo `m`. */
  lemma MulMod(a: int, b: int, a': int, b': int, m: nat)
    requires m > 0 && a % m == a' % m && b % m == b' % m
    ensures (a * b) % m == (a' * b') % m
  {
    var i, j := a / m - a' / m, b / m - b' / m;
    assert a == a' + i * m by {
      assert a == (a / m) * m + a % m;
      assert a' == (a' / m) * m + a' % m;
    }
    assert b == b' + j * m by {
      assert b == (b / m) * m + b % m;
      assert b' == (b' / m) * m + b' % m;
    }
    var k := a' * j + i * b' + i * j * m;
    assert a * b == k * m + a' * b';
    ModShift(a' * b', k, m);
  }
}
