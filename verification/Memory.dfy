/** Byte-addressed little-endian memory. Addresses are relative to the frame pointer of the
    function being compiled, so they may be negative. */
module Memory {
  import opened Words

  type Byte = b: int | 0 <= b < 256
  type Mem = map<int, Byte>

  function At(m: Mem, a: int): Byte {
    if a in m then m[a] else 0
  }

  /** The unsigned number in the `n` bytes from `a` on. */
  function Load(m: Mem, a: int, n: nat): nat
    decreases n
  {
    if n == 0 then 0 else At(m, a) + 256 * Load(m, a + 1, n - 1)
  }

  function Store(m: Mem, a: int, n: nat, v: int): (m': Mem)
    ensures forall b :: b < a || a + n <= b ==> At(m', b) == At(m, b)
    decreases n
  {
    if n == 0 then m else Store(m[a := v % 256], a + 1, n - 1, v / 256)
  }

  lemma Pow2Step(n: nat)
    requires n > 0
    ensures Pow2(8 * n) == 256 * Pow2(8 * (n - 1))
  {
    Pow2Byte();
    Pow2Add(8, 8 * (n - 1));
  }

  /** Loading depends on the bytes of its range and on nothing else. */
  lemma {:induction false} LoadSame(m: Mem, m': Mem, a: int, n: nat)
    requires forall b :: a <= b < a + n ==> At(m, b) == At(m', b)
    ensures Load(m, a, n) == Load(m', a, n)
    decreases n
  {
    if n > 0 { LoadSame(m, m', a + 1, n - 1); }
  }

  /** Reading back the first `k` bytes of a store of `n` bytes gives the value modulo 2^(8k). */
  lemma {:induction false} LoadStore(m: Mem, a: int, n: nat, k: nat, v: int)
    requires k <= n
    ensures Load(Store(m, a, n, v), a, k) == v % Pow2(8 * k)
    decreases n
  {
    if k > 0 {
      var m1 := m[a := v % 256];
      LoadStore(m1, a + 1, n - 1, k - 1, v / 256);
      assert At(Store(m1, a + 1, n - 1, v / 256), a) == v % 256;
      Pow2Step(k);
      SplitByte(v, Pow2(8 * (k - 1)));
    } else {
      assert Pow2(0) == 1;
    }
  }

  lemma SplitByte(v: int, m: nat)
    requires m > 0
    ensures v % (256 * m) == v % 256 + 256 * ((v / 256) % m)
  {
    var u := v / 256;
    var q, r := u / m, u % m;
    assert u == q * m + r by { DivMod(u, m); }
    assert v == 256 * u + v % 256;
    assert v == q * (256 * m) + (256 * r + v % 256) by {
      Scale(q, m);
    }
    ModShift(256 * r + v % 256, q, 256 * m);
    ModSmall(256 * r + v % 256, 256 * m);
  }

  lemma Scale(q: int, m: int)
    ensures q * (256 * m) == 256 * (q * m)
  {
  }

  /** What the emitted `mov` of width `ty` stores is what it loads back. */
  lemma LoadStoreTy(m: Mem, a: int, ty: Ty, v: int)
    ensures Load(Store(m, a, Bytes(ty), v), a, Bytes(ty)) == ToUnsigned(ty, v)
  {
    LoadStore(m, a, Bytes(ty), Bytes(ty), v);
    Pow2Width(ty);
  }

  lemma LoadStoreWord(m: Mem, a: int, w: Word)
    ensures Load(Store(m, a, 8, w), a, 8) == w
  {
    hide Load; hide Store;
    LoadStoreTy(m, a, Long, w);
  }

  lemma LoadBound(m: Mem, a: int, ty: Ty)
    ensures Load(m, a, Bytes(ty)) < Modulus(ty)
  {
    LoadBelow(m, a, Bytes(ty));
    Pow2Width(ty);
  }

  lemma {:induction false} LoadBelow(m: Mem, a: int, n: nat)
    ensures Load(m, a, n) < Pow2(8 * n)
    decreases n
  {
    if n > 0 {
      LoadBelow(m, a + 1, n - 1);
      Pow2Step(n);
    }
  }
}
