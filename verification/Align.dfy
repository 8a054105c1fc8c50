/** Rounding an offset to an alignment, away from zero. */
module Align {
  import opened Words

  function MakeAlign(offset: int, align: nat): (r: int)
    requires align > 0
    ensures r % align == 0
    ensures offset >= 0 ==> offset <= r < offset + align
    ensures offset < 0 ==> offset - align < r <= offset
  {
    TruncModIs(offset, align);
    var rest := TruncMod(offset, align);
    RestRemoved(offset, align);
    if rest == 0 then offset
    else if offset >= 0 then offset + align - rest
    else offset - align - rest
  }

  /** C's remainder has the sign of the dividend. */
  lemma TruncModIs(x: int, m: nat)
    requires m > 0
    ensures TruncMod(x, m) == if x >= 0 then x % m else -((-x) % m)
  {
    if x >= 0 {
      DivMod(x, m);
    } else {
      DivMod(-x, m);
      assert -((-x) / m) * m == -(((-x) / m) * m);
    }
  }

  lemma RestRemoved(x: int, m: nat)
    requires m > 0
    ensures x >= 0 ==> (x + m - x % m) % m == 0
    ensures x < 0 ==> (x - m + (-x) % m) % m == 0
    ensures (x < 0 && (-x) % m == 0) ==> x % m == 0
  {
    if x >= 0 {
      DivMod(x, m);
      assert x + m - x % m == (x / m + 1) * m + 0;
      ModShift(0, x / m + 1, m);
    } else {
      DivMod(-x, m);
      var q := (-x) / m;
      assert x + (-x) % m == -q * m + 0;
      ModShift(0, -q, m);
      assert x - m + (-x) % m == (-q - 1) * m + 0;
      ModShift(0, -q - 1, m);
    }
  }

  /** A multiple plus a multiple is a multiple. */
  lemma MultipleSum(x: int, y: int, m: nat)
    requires m > 0 && x % m == 0 && y % m == 0
    ensures (x + y) % m == 0 && (x - y) % m == 0
  {
    DivMod(x, m);
    DivMod(y, m);
    assert x + y == (x / m + y / m) * m + 0;
    ModShift(0, x / m + y / m, m);
    MulSub(x / m, y / m, m);
    assert x - y == (x / m - y / m) * m + 0;
    ModShift(0, x / m - y / m, m);
  }
}
