/** Reading and writing a bit-field with masks and shifts. The mask is an immediate operand of 32 bits. */
module BitFields {
  import opened Words
  import opened Memory
  import opened Bits

  /** Where a bit-field is: the width of its unit in bytes, its first bit in the unit, its width in bits. */
  datatype Field = Field(unit: nat, begin: nat, width: nat, unsigned: bool)

  /** What the parser guarantees for every bit-field. */
  predicate Placed(f: Field) {
    f.unit in {1, 2, 4, 8} && 0 < f.width && f.begin < 8 && f.begin + f.width <= 8 * f.unit
  }

  function End(f: Field): nat {
    f.begin + f.width
  }

  // ---------- the machine ----------

  datatype Instr =
    | LoadUnit(size: nat)      // movzbq, movzwq, movl, movq
    | StoreUnit(size: nat)
    | AndImm(imm: int)         // andq with a sign-extended immediate
    | Sal(k: nat) | Sar(k: nat) | ShrQ(k: nat)
    | MovToR11
    | OrR11

  datatype Cpu = Cpu(rax: Word, r11: Word, mem: Mem)

  /** One instruction; the unit is at address `a`. */
  function Exec(i: Instr, a: int, s: Cpu): Cpu {
    match i
    case LoadUnit(n) => s.(rax := Load(s.mem, a, n) % P64)
    case StoreUnit(n) => s.(mem := Store(s.mem, a, n, s.rax))
    case AndImm(imm) => s.(rax := And64(s.rax, imm))
    case Sal(k) => s.(rax := Shl(s.rax, k))
    case Sar(k) => s.(rax := ToUnsigned(Long, ToSigned(Long, s.rax) / Pow2(k)))
    case ShrQ(k) => s.(rax := Shr(s.rax, k))
    case MovToR11 => s.(r11 := s.rax)
    case OrR11 => s.(rax := Or64(s.rax, s.r11))
  }

  function And64(x: int, y: int): Word {
    Pow2Is64();
    Bitwise(BitAnd, 64, x, y)
  }

  function Or64(x: int, y: int): Word {
    Pow2Is64();
    Bitwise(BitOr, 64, x, y)
  }

  function ExecAll(code: seq<Instr>, a: int, s: Cpu): Cpu
    decreases |code|
  {
    if code == [] then s else ExecAll(code[1..], a, Exec(code[0], a, s))
  }

  lemma {:induction false} ExecAllAppend(x: seq<Instr>, y: seq<Instr>, a: int, s: Cpu)
    ensures ExecAll(x + y, a, s) == ExecAll(y, a, ExecAll(x, a, s))
    decreases |x|
  {
    if x == [] {
      assert x + y == y;
    } else {
      assert (x + y)[1..] == x[1..] + y;
      ExecAllAppend(x[1..], y, a, Exec(x[0], a, s));
    }
  }

  // ---------- emitted code ----------

  /** An `unsigned long` passed as an `int` operand. */
  function Imm(mask: Word): int {
    ToSigned(Int, mask)
  }

  function Mask(f: Field): Word
    requires Placed(f)
  {
    BitFieldMask(f.begin, f.width)
  }

  function Not(mask: Word): Word {
    P64 - 1 - mask
  }

  class Generator {
    var out: seq<Instr>

    constructor ()
      ensures out == []
    {
      out := [];
    }

    method Emit(i: Instr)
      modifies this
      ensures out == old(out) + [i]
    {
      out := out + [i];
    }

    method EmitLoadBitField(f: Field)
      requires Placed(f)
      modifies this
      ensures out == old(out) + LoadCode(f)
    {
      Emit(LoadUnit(f.unit));
      Emit(AndImm(Imm(Mask(f))));
      var left := 64 - f.begin - f.width;
      var right := 64 - f.width;
      Emit(Sal(left));
      Emit(if f.unsigned then ShrQ(right) else Sar(right));
    }

    method EmitStoreBitField(f: Field)
      requires Placed(f)
      modifies this
      ensures out == old(out) + StoreCode(f)
    {
      var mask := Mask(f);
      Emit(Sal(f.begin));
      Emit(AndImm(Imm(mask)));
      Emit(MovToR11);
      Emit(LoadUnit(f.unit));
      Emit(AndImm(Imm(Not(mask))));
      Emit(OrR11);
      Emit(StoreUnit(f.unit));
    }
  }

  function LoadCode(f: Field): seq<Instr>
    requires Placed(f)
  {
    [LoadUnit(f.unit), AndImm(Imm(Mask(f))), Sal(64 - End(f)), if f.unsigned then ShrQ(64 - f.width)
        else Sar(64 - f.width)]
  }

  function StoreCode(f: Field): seq<Instr>
    requires Placed(f)
  {
    [Sal(f.begin), AndImm(Imm(Mask(f))), MovToR11, LoadUnit(f.unit), AndImm(Imm(Not(Mask(f)))), OrR11,
        StoreUnit(f.unit)]
  }

  // ---------- signs ----------

  /** Above its width, a number repeats its sign. */
  lemma {:induction false} SignBits(v: int, n: nat, i: nat)
    requires -(Pow2(n) as int) <= v < Pow2(n) && i >= n
    ensures Bit(v, i) <==> v < 0
    decreases n
  {
    if n == 0 {
      if v == 0 { BitOfZero(i); } else { BitOfMinusOne(i); }
    } else {
      SignBits(v / 2, n - 1, i - 1);
    }
  }

  lemma {:induction false} BitOfMinusOne(i: nat)
    ensures Bit(-1, i)
  {
    if i > 0 { BitOfMinusOne(i - 1); }
  }

  /** The signed reading of the low `n` bits of a number. */
  function SignExtend(u: int, n: nat): int
    requires n > 0
  {
    var r: int := u % Pow2(n);
    if r < Pow2(n - 1) then r else r - Pow2(n)
  }

  lemma SignExtendBit(u: int, n: nat, i: nat)
    requires n > 0
    ensures Bit(SignExtend(u, n), i) == Bit(u, if i < n then i else n - 1)
  {
    var v, p := SignExtend(u, n), Pow2(n);
    var r := u % p;
    DivMod(u, p);
    assert v % p == r by {
      ModSmall(r, p);
      ModShift(r, -1, p);
    }
    BitOfRemainder(v, n, i);
    BitOfRemainder(u, n, i);
    BitOfRemainder(v, n, n - 1);
    BitOfRemainder(u, n, n - 1);
    SignBits(v, n - 1, n - 1);
    if i >= n { SignBits(v, n - 1, i); }
  }

  lemma SignedIsExtended(w: int)
    ensures ToSigned(Long, w) == SignExtend(w, 64) && ToSigned(Int, w) == SignExtend(w, 32)
  {
    Pow2Is64();
    Pow2Width(Int);
    assert Pow2(64) == 2 * Pow2(63) && Pow2(32) == 2 * Pow2(31);
  }

  // ---------- the bits after each instruction ----------

  lemma WordBit(v: int, i: nat)
    ensures Bit(v % P64, i) == (i < 64 && Bit(v, i))
  {
    Pow2Is64();
    BitOfRemainder(v, 64, i);
  }

  lemma AndBit(x: int, y: int, i: nat)
    ensures Bit(And64(x, y), i) == (i < 64 && Bit(x, i) && Bit(y, i))
  {
    BitOfBitwise(BitAnd, 64, x, y, i);
  }

  lemma OrBit(x: int, y: int, i: nat)
    ensures Bit(Or64(x, y), i) == (i < 64 && (Bit(x, i) || Bit(y, i)))
  {
    BitOfBitwise(BitOr, 64, x, y, i);
  }

  lemma SarBit(w: Word, k: nat, i: nat)
    ensures Bit(ToUnsigned(Long, ToSigned(Long, w) / Pow2(k)), i)
            == (i < 64 && Bit(w, if i + k < 64 then i + k else 63))
  {
    SignedIsExtended(w);
    WordBit(SignExtend(w, 64) / Pow2(k), i);
    BitOfQuotient(SignExtend(w, 64), k, i);
    SignExtendBit(w, 64, i + k);
  }

  lemma NotBit(w: Word, i: nat)
    ensures i < 64 ==> Bit(Not(w), i) == !Bit(w, i)
  {
    NotBits(w, i);
    Pow2Is64();
    WordBit(-1 - w, i);
    assert (-1 - w) % P64 == Not(w) by { ModShift(-1 - w, 1, P64); ModSmall(Not(w), P64); }
  }

  lemma {:induction false} NotBits(v: int, i: nat)
    ensures Bit(-1 - v, i) == !Bit(v, i)
    decreases i
  {
    assert (-1 - v) / 2 == -1 - v / 2 && (-1 - v) % 2 == 1 - v % 2;
    if i > 0 { NotBits(v / 2, i - 1); }
  }

  /** The immediate repeats bit 31 of the mask. */
  lemma ImmBit(mask: Word, i: nat)
    ensures Bit(Imm(mask), i) == Bit(mask, if i < 32 then i else 31)
  {
    SignedIsExtended(mask);
    SignExtendBit(mask, 32, i);
  }

  lemma {:induction false} LoadBit(m: Mem, a: int, n: nat, i: nat)
    ensures Bit(Load(m, a, n), i) == (i < 8 * n && Bit(At(m, a + i / 8), i % 8))
    decreases n
  {
    if n == 0 {
      BitOfZero(i);
    } else {
      Pow2Byte();
      var rest := Load(m, a + 1, n - 1);
      var u := At(m, a) + 256 * rest;
      assert u / 256 == rest && u % 256 == At(m, a);
      if i < 8 {
        BitOfRemainder(u, 8, i);
      } else {
        BitOfQuotient(u, 8, i - 8);
        LoadBit(m, a + 1, n - 1, i - 8);
        assert (i - 8) / 8 == i / 8 - 1 && (i - 8) % 8 == i % 8;
      }
    }
  }

  /** Bit `i` of the unit at `a`. */
  predicate UnitBit(m: Mem, a: int, i: nat) {
    Bit(At(m, a + i / 8), i % 8)
  }

  // ---------- loading ----------

  /** The value of the field in a unit. */
  function FieldValue(f: Field, u: int): int
    requires f.width > 0
  {
    var bits := u / Pow2(f.begin);
    if f.unsigned then bits % Pow2(f.width) else SignExtend(bits, f.width)
  }

  lemma FieldValueBit(f: Field, u: int, i: nat)
    requires f.width > 0
    ensures Bit(FieldValue(f, u), i)
         == if i < f.width then Bit(u, f.begin + i) else !f.unsigned && Bit(u, f.begin + f.width - 1)
  {
    var bits := u / Pow2(f.begin);
    BitOfQuotient(u, f.begin, i);
    BitOfQuotient(u, f.begin, f.width - 1);
    if f.unsigned { BitOfRemainder(bits, f.width, i); } else { SignExtendBit(bits, f.width, i); }
  }

  /** The cut mask still has ones in all of the field. */
  lemma FieldOfImm(f: Field, i: nat)
    requires Placed(f) && f.begin <= i < End(f)
    ensures Bit(Imm(Mask(f)), i)
  {
    ImmBit(Mask(f), i);
    MaskBits(f.begin, f.width, if i < 32 then i else 31);
  }

  /** Loading gives the field's value, extended as its type says, for every field the parser can place. */
  lemma LoadIsRight(f: Field, a: int, s: Cpu)
    requires Placed(f)
    ensures var r := ExecAll(LoadCode(f), a, s);
            && r.rax == ToUnsigned(Long, FieldValue(f, Load(s.mem, a, f.unit)))
            && r.mem == s.mem
  {
    hide Shl;
    RunsFour(LoadCode(f), a, s);
    var u := Load(s.mem, a, f.unit);
    LoadedIsValue(f, u);
  }

  /** What the load sequence makes of a unit. */
  function Loaded(f: Field, u: int): Word
    requires Placed(f)
  {
    var w := Shl(And64(u % P64, Imm(Mask(f))), 64 - End(f));
    if f.unsigned then Shr(w, 64 - f.width) else ToUnsigned(Long, ToSigned(Long, w) / Pow2(64 - f.width))
  }

  lemma LoadedIsValue(f: Field, u: int)
    requires Placed(f)
    ensures Loaded(f, u) == ToUnsigned(Long, FieldValue(f, u))
  {
    hide Loaded, FieldValue, ToUnsigned, Bit;
    var v := FieldValue(f, u);
    Pow2Is64();
    forall i: nat | i < 64
      ensures Bit(Loaded(f, u), i) == Bit(v % P64, i)
    {
      LoadedBit(f, u, i);
      FieldValueBit(f, u, i);
      WordBit(v, i);
    }
    SameBits(Loaded(f, u), v % P64, 64);
    LongIsWord(v);
  }

  lemma LongIsWord(v: int)
    ensures ToUnsigned(Long, v) == v % P64
  {
  }

  lemma RunsFour(code: seq<Instr>, a: int, s: Cpu)
    requires |code| == 4
    ensures ExecAll(code, a, s) == Exec(code[3], a, Exec(code[2], a, Exec(code[1], a, Exec(code[0], a, s))))
  {
    hide Exec;
    assert code == [code[0]] + ([code[1]] + ([code[2]] + [code[3]]));
    ExecAllAppend([code[0]], [code[1]] + ([code[2]] + [code[3]]), a, s);
    var s1 := Exec(code[0], a, s);
    ExecOne(code[0], a, s);
    ExecAllAppend([code[1]], [code[2]] + [code[3]], a, s1);
    var s2 := Exec(code[1], a, s1);
    ExecOne(code[1], a, s1);
    ExecAllAppend([code[2]], [code[3]], a, s2);
    ExecOne(code[2], a, s2);
    ExecOne(code[3], a, Exec(code[2], a, s2));
  }

  lemma ExecOne(i: Instr, a: int, s: Cpu)
    ensures ExecAll([i], a, s) == Exec(i, a, s)
  {
    assert [i][1..] == [];
  }

  lemma LoadedBit(f: Field, u: int, i: nat)
    requires Placed(f) && i < 64
    ensures Bit(Loaded(f, u), i) == if i < f.width then Bit(u, f.begin + i) else !f.unsigned && Bit(u, End(f) - 1)
  {
    hide Bit, Bitwise, Mask, Imm, Shl, And64;
    var left, right := 64 - End(f), 64 - f.width;
    var w1 := u % P64;
    var w2 := And64(w1, Imm(Mask(f)));
    var w3 := Shl(w2, left);
    // bit `b` of the field has gone to bit `b + right`
    var b := if i < f.width then i else f.width - 1;
    var j := b + f.begin;
    WordBit(u, j);
    AndBit(w1, Imm(Mask(f)), j);
    FieldOfImm(f, j);
    BitOfShl(w2, left, b + right);
    assert Bit(w3, b + right) == Bit(u, j);
    if f.unsigned {
      BitOfShr(w3, right, i);
      if i >= f.width { BitOfShl(w2, left, i + right); }
    } else {
      SarBit(w3, right, i);
    }
  }

  // ---------- storing ----------

  lemma RunsSeven(code: seq<Instr>, a: int, s: Cpu)
    requires |code| == 7
    ensures ExecAll(code, a, s)
         == Exec(code[6], a, Exec(code[5], a,
             Exec(code[4], a, Exec(code[3], a, Exec(code[2], a, Exec(code[1], a, Exec(code[0], a, s)))))))
  {
    hide Exec;
    assert code == code[..4] + ([code[4]] + ([code[5]] + [code[6]]));
    ExecAllAppend(code[..4], [code[4]] + ([code[5]] + [code[6]]), a, s);
    RunsFour(code[..4], a, s);
    var s4 := ExecAll(code[..4], a, s);
    ExecAllAppend([code[4]], [code[5]] + [code[6]], a, s4);
    ExecOne(code[4], a, s4);
    var s5 := Exec(code[4], a, s4);
    ExecAllAppend([code[5]], [code[6]], a, s5);
    ExecOne(code[5], a, s5);
    ExecOne(code[6], a, Exec(code[5], a, s5));
  }

  /** What a store leaves in the unit, bit by bit. */
  function Stored(f: Field, u: int, v: Word): Word
    requires Placed(f)
  {
    Or64(And64(u % P64, Imm(Not(Mask(f)))), And64(Shl(v, f.begin), Imm(Mask(f))))
  }

  lemma StoreRuns(f: Field, a: int, s: Cpu)
    requires Placed(f)
    ensures ExecAll(StoreCode(f), a, s).mem == Store(s.mem, a, f.unit, Stored(f, Load(s.mem, a, f.unit), s.rax))
  {
    hide ExecAll, Bitwise, Imm, Mask, Shl, Load, Store;
    RunsSeven(StoreCode(f), a, s);
  }

  /** Inside the field the new value, outside the old bit where the immediates allow it. */
  lemma StoredBit(f: Field, u: int, v: Word, i: nat)
    requires Placed(f) && i < 64
    ensures f.begin <= i < End(f) ==> Bit(Stored(f, u, v), i) == Bit(v, i - f.begin)
    ensures !(f.begin <= i < End(f)) && (i < 32 || End(f) < 32) ==> Bit(Stored(f, u, v), i) == Bit(u, i)
    ensures !(f.begin <= i < End(f)) && i >= 32 && End(f) >= 32 ==>
            Bit(Stored(f, u, v), i) == (i >= f.begin && Bit(v, i - f.begin))
  {
    hide Bit, Bitwise, Imm, Shl, And64, Or64, Not, BitFieldMask;
    var mask := Mask(f);
    var j := if i < 32 then i else 31;
    OrBit(And64(u % P64, Imm(Not(mask))), And64(Shl(v, f.begin), Imm(mask)), i);
    AndBit(u % P64, Imm(Not(mask)), i);
    AndBit(Shl(v, f.begin), Imm(mask), i);
    WordBit(u, i);
    BitOfShl(v, f.begin, i);
    ImmBit(mask, i);
    ImmBit(Not(mask), i);
    NotBit(mask, j);
    MaskBits(f.begin, f.width, j);
    MaskBits(f.begin, f.width, i);
  }

  lemma StoredUnitBit(m: Mem, a: int, n: nat, v: int, i: nat)
    requires i < 8 * n
    ensures UnitBit(Store(m, a, n, v), a, i) == Bit(v, i)
  {
    LoadStore(m, a, n, n, v);
    LoadBit(Store(m, a, n, v), a, n, i);
    BitOfRemainder(v, 8 * n, i);
  }

  /** Reading a field back after writing it gives the value cut to the width of the field. */
  lemma StoreThenLoad(f: Field, a: int, s: Cpu, r11: Word, rax: Word)
    requires Placed(f)
    ensures var stored := ExecAll(StoreCode(f), a, s);
            ExecAll(LoadCode(f), a, Cpu(rax, r11, stored.mem)).rax
            == ToUnsigned(Long, FieldValue(f.(begin := 0), s.rax))
  {
    hide ExecAll, Bit, Bitwise, Stored, FieldValue, LoadCode, StoreCode, ToUnsigned;
    var stored := ExecAll(StoreCode(f), a, s);
    StoreRuns(f, a, s);
    LoadIsRight(f, a, Cpu(rax, r11, stored.mem));
    var x := Stored(f, Load(s.mem, a, f.unit), s.rax);
    var u := Load(stored.mem, a, f.unit);
    LoadStore(s.mem, a, f.unit, f.unit, x);
    var v, w := FieldValue(f, u), FieldValue(f.(begin := 0), s.rax);
    Pow2Is64();
    forall i: nat | i < 64
      ensures Bit(v % P64, i) == Bit(w % P64, i)
    {
      WordBit(v, i);
      WordBit(w, i);
      FieldValueBit(f, u, i);
      FieldValueBit(f.(begin := 0), s.rax, i);
      var j := f.begin + if i < f.width then i else f.width - 1;
      BitOfRemainder(x, 8 * f.unit, j);
      StoredBit(f, Load(s.mem, a, f.unit), s.rax, j);
    }
    SameBits(v % P64, w % P64, 64);
    LongIsWord(v);
    LongIsWord(w);
  }

  /** A store changes no bit of the unit outside the field. */
  ghost predicate KeepsOthers(f: Field)
    requires Placed(f)
  {
    forall a: int, s: Cpu, i: nat :: i < 8 * f.unit && !(f.begin <= i < End(f)) ==>
      UnitBit(ExecAll(StoreCode(f), a, s).mem, a, i) == UnitBit(s.mem, a, i)
  }

  /** The mask and its complement survive the cut to 32 bits. */
  predicate MaskFits(f: Field) {
    f.unit <= 4 || End(f) <= 31 || End(f) == 64
  }

  /** A store changes only the bits of the field exactly when the mask fits. */
  lemma KeepsOthersIff(f: Field)
    requires Placed(f)
    ensures KeepsOthers(f) <==> MaskFits(f)
  {
    if MaskFits(f) {
      forall a: int, s: Cpu, i: nat | i < 8 * f.unit && !(f.begin <= i < End(f))
        ensures UnitBit(ExecAll(StoreCode(f), a, s).mem, a, i) == UnitBit(s.mem, a, i)
      {
        OtherKept(f, a, s, i);
      }
    } else {
      OtherLost(f);
    }
  }

  lemma OtherKept(f: Field, a: int, s: Cpu, i: nat)
    requires Placed(f) && MaskFits(f) && i < 8 * f.unit && !(f.begin <= i < End(f))
    ensures UnitBit(ExecAll(StoreCode(f), a, s).mem, a, i) == UnitBit(s.mem, a, i)
  {
    var u := Load(s.mem, a, f.unit);
    StoreRuns(f, a, s);
    StoredUnitBit(s.mem, a, f.unit, Stored(f, u, s.rax), i);
    StoredBit(f, u, s.rax, i);
    LoadBit(s.mem, a, f.unit, i);
  }

  lemma OneBitOfByte(k: nat)
    requires k < 8
    ensures Bit(Pow2(k) % 256, k)
  {
    Pow2Byte();
    BitOfRemainder(Pow2(k), 8, k);
    assert 1 * Pow2(k) == Pow2(k);
    BitOfShifted(1, k, k);
  }

  /** Writing 0 clears the bit behind the field. */
  lemma OtherLost(f: Field)
    requires Placed(f) && !MaskFits(f)
    ensures !KeepsOthers(f)
  {
    hide ExecAll, Bit, Bitwise, Stored, Load;
    var i := End(f);
    var mem := map[i / 8 := Pow2(i % 8) % 256];
    var s := Cpu(0, 0, mem);
    var u := Load(mem, 0, f.unit);
    OneBitOfByte(i % 8);
    assert UnitBit(mem, 0, i);
    StoreRuns(f, 0, s);
    StoredUnitBit(mem, 0, f.unit, Stored(f, u, 0), i);
    StoredBit(f, u, 0, i);
    BitOfZero(i - f.begin);
    assert !UnitBit(ExecAll(StoreCode(f), 0, s).mem, 0, i);
  }

  /** Nothing outside the unit is written. */
  lemma StoreStaysInside(f: Field, a: int, s: Cpu, b: int)
    requires Placed(f) && (b < a || a + f.unit <= b)
    ensures At(ExecAll(StoreCode(f), a, s).mem, b) == At(s.mem, b)
  {
    StoreRuns(f, a, s);
  }
}
