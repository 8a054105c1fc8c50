/** The part of x86-64 that the code generator emits for integer expressions and control flow.
    Memory is reached through the frame pointer only, so an address is an offset from `%rbp`. */
module Machine {
  import opened Words
  import opened Memory

  type Label = nat

  datatype Reg = Rax | R11 | Rcx | Rdx

  datatype AluOp = AluAdd | AluSub | AluBits(op: BitOp)

  datatype Cond = E | Ne | L | G | Le | Ge

  datatype Instr =
    | MovImm(ty: Ty, imm: int, dst: Reg)       // movl/movq $imm, dst
    | MovReg(ty: Ty, src: Reg, dst: Reg)       // movl/movq src, dst
    | LoadSlot(ty: Ty, off: int, dst: Reg)     // movl/movq off(%rbp), dst
    | StoreSlot(ty: Ty, src: Reg, off: int)    // movl/movq src, off(%rbp)
    | Alu(alu: AluOp, ty: Ty, src: Reg, dst: Reg)
    | AluImm(alu: AluOp, ty: Ty, imm: int, dst: Reg)
    | Cmp(ty: Ty, src: Reg, dst: Reg)          // flags of dst - src
    | CmpImm(ty: Ty, imm: int, dst: Reg)
    | Imul(ty: Ty, src: Reg)                   // %rdx:%rax = %rax * src
    | SignExtendRax(ty: Ty)                    // cltd / cqto: sign of %rax into %rdx
    | Idiv(ty: Ty, src: Reg)                   // %rax, %rdx = quotient, remainder of %rdx:%rax
    | Neg(ty: Ty, dst: Reg)
    | NotQ(dst: Reg)
    | Sal(ty: Ty, dst: Reg)                    // by %cl
    | Sar(ty: Ty, dst: Reg)                    // by %cl
    | Cltq                                     // sign-extend %eax into %rax
    | SetAl(cond: Cond)                        // setcc %al
    | ZeroExtendAl(ty: Ty)                     // movzbl %al, %eax / movzbq %al, %rax
    | Je(target: Label)
    | Jne(target: Label)
    | Jmp(target: Label)
    | LabelDef(name: Label)

  type Code = seq<Instr>

  /** Zero, sign and signed-overflow flags. */
  datatype Flags = Flags(zf: bool, sf: bool, ovf: bool)

  /** Registers, flags and memory. */
  datatype Cpu = Cpu(rax: Word, r11: Word, rcx: Word, rdx: Word, flags: Flags, mem: Mem)
  {
    function Get(r: Reg): Word {
      match r
      case Rax => rax
      case R11 => r11
      case Rcx => rcx
      case Rdx => rdx
    }

    function Set(r: Reg, w: Word): Cpu {
      match r
      case Rax => this.(rax := w)
      case R11 => this.(r11 := w)
      case Rcx => this.(rcx := w)
      case Rdx => this.(rdx := w)
    }
  }

  /** What one instruction, or one block, does: a new machine, or a divide error. */
  datatype Effect = Done(cpu: Cpu) | Fault

  /** A run is at some instruction, or it stopped at a divide error. */
  datatype State = Running(pc: nat, cpu: Cpu) | Trapped

  function AluResult(alu: AluOp, ty: Ty, dst: int, src: int): Word {
    match alu
    case AluAdd => ToUnsigned(ty, dst + src)
    case AluSub => ToUnsigned(ty, dst - src)
    case AluBits(op) => ToUnsigned(ty, Bitwise(op, 8 * Bytes(ty), dst, src))
  }

  /** The flags of the subtraction `dst - src` at width `ty`. */
  function CompareFlags(ty: Ty, dst: int, src: int): Flags {
    var d := ToSigned(ty, dst - src);
    Flags(ToUnsigned(ty, dst - src) == 0, d < 0, !InRange(ty, ToSigned(ty, dst) - ToSigned(ty, src)))
  }

  /** Arithmetic sets the flags too. (Flags that the processor leaves undefined keep their value here.) */
  function AluFlags(alu: AluOp, ty: Ty, dst: int, src: int): Flags {
    var d := ToSigned(ty, AluResult(alu, ty, dst, src));
    match alu
    case AluAdd => Flags(d == 0, d < 0, !InRange(ty, ToSigned(ty, dst) + ToSigned(ty, src)))
    case AluSub => CompareFlags(ty, dst, src)
    case AluBits(_) => Flags(d == 0, d < 0, false)
  }

  predicate CondHolds(c: Cond, f: Flags) {
    match c
    case E => f.zf
    case Ne => !f.zf
    case L => f.sf != f.ovf
    case G => !f.zf && f.sf == f.ovf
    case Le => f.zf || f.sf != f.ovf
    case Ge => f.sf == f.ovf
  }

  /** The low byte of the shift count, masked as the processor masks it. */
  function ShiftCount(ty: Ty, rcx: int): (c: nat)
    ensures c < 8 * Bytes(ty)
  {
    rcx % (8 * Bytes(ty))
  }

  function WithLowByte(w: Word, t: int): (r: Word)
    requires 0 <= t < 256
    ensures r % 256 == t && r / 256 == w / 256
  {
    DivMod(w, 256);
    ModShift(t, w / 256, 256);
    w / 256 * 256 + t
  }

  predicate IsControl(i: Instr) {
    i.Je? || i.Jne? || i.Jmp? || i.LabelDef?
  }

  /** One instruction that does not touch the program counter. */
  function Exec(i: Instr, s: Cpu): Effect
    requires !IsControl(i)
  {
    match i
    case MovImm(ty, imm, dst) => Done(s.Set(dst, ToUnsigned(ty, imm)))
    case MovReg(ty, src, dst) => Done(s.Set(dst, ToUnsigned(ty, s.Get(src))))
    case LoadSlot(ty, off, dst) =>
      LoadBound(s.mem, off, ty);
      Done(s.Set(dst, Load(s.mem, off, Bytes(ty))))
    case StoreSlot(ty, src, off) => Done(s.(mem := Store(s.mem, off, Bytes(ty), s.Get(src))))
    case Alu(alu, ty, src, dst) => 
      Done(s.Set(dst, AluResult(alu, ty, s.Get(dst), s.Get(src)))
            .(flags := AluFlags(alu, ty, s.Get(dst), s.Get(src))))
    case AluImm(alu, ty, imm, dst) => 
      Done(s.Set(dst, AluResult(alu, ty, s.Get(dst), imm)).(flags := AluFlags(alu, ty, s.Get(dst), imm)))
    case Cmp(ty, src, dst) => Done(s.(flags := CompareFlags(ty, s.Get(dst), s.Get(src))))
    case CmpImm(ty, imm, dst) => Done(s.(flags := CompareFlags(ty, s.Get(dst), imm)))
    case Imul(ty, src) =>
      var product := ToSigned(ty, s.rax) * ToSigned(ty, s.Get(src));
      Done(s.(rax := ToUnsigned(ty, product), rdx := ToUnsigned(ty, product / Modulus(ty))))
    case SignExtendRax(ty) =>
      Done(s.(rdx := if ToSigned(ty, s.rax) < 0 then Modulus(ty) - 1 else 0))
    case Idiv(ty, src) =>
      var dividend := ToSigned(ty, s.rdx) * Modulus(ty) + ToUnsigned(ty, s.rax);
      var divisor := ToSigned(ty, s.Get(src));
      if divisor == 0 || !InRange(ty, TruncDiv(dividend, divisor)) then Fault
      else Done(s.(rax := ToUnsigned(ty, TruncDiv(dividend, divisor)),
                      rdx := ToUnsigned(ty, TruncMod(dividend, divisor))))
    case Neg(ty, dst) => 
      Done(s.Set(dst, AluResult(AluSub, ty, 0, s.Get(dst))).(flags := AluFlags(AluSub, ty, 0, s.Get(dst))))
    case NotQ(dst) => Done(s.Set(dst, P64 - 1 - s.Get(dst)))
    case Sal(ty, dst) => Done(s.Set(dst, ToUnsigned(ty, s.Get(dst) * Pow2(ShiftCount(ty, s.rcx)))))
    case Sar(ty, dst) => Done(s.Set(dst, ToUnsigned(ty, ToSigned(ty, s.Get(dst)) / Pow2(ShiftCount(ty, s.rcx)))))
    case Cltq => Done(s.(rax := ToUnsigned(Long, ToSigned(Int, s.rax))))
    case SetAl(c) => Done(s.(rax := WithLowByte(s.rax, if CondHolds(c, s.flags) then 1 else 0)))
    case ZeroExtendAl(ty) => Done(s.(rax := s.rax % 256))
  }

  // ---------- runs of a whole program ----------

  /** No label is defined twice, so a jump has one target. */
  ghost predicate UniqueLabels(prog: Code) {
    forall i, j :: 0 <= i < j < |prog| && prog[i].LabelDef? && prog[j].LabelDef? ==> prog[i].name != prog[j].name
  }

  /** The position of the definition of `l`, or the end of the program. */
  function Target(prog: Code, l: Label): (i: nat)
    ensures i <= |prog|
    ensures i < |prog| ==> prog[i] == LabelDef(l)
    ensures forall j :: 0 <= j < i ==> prog[j] != LabelDef(l)
  {
    TargetFrom(prog, l, 0)
  }

  function TargetFrom(prog: Code, l: Label, p: nat): (i: nat)
    requires p <= |prog|
    ensures p <= i <= |prog|
    ensures i < |prog| ==> prog[i] == LabelDef(l)
    ensures forall j :: p <= j < i ==> prog[j] != LabelDef(l)
    decreases |prog| - p
  {
    if p == |prog| || prog[p] == LabelDef(l) then p else TargetFrom(prog, l, p + 1)
  }

  lemma TargetIs(prog: Code, l: Label, p: nat)
    requires UniqueLabels(prog) && p < |prog| && prog[p] == LabelDef(l)
    ensures Target(prog, l) == p
  {
    var i := Target(prog, l);
    assert prog[i] == LabelDef(l);
  }

  function Step(prog: Code, pc: nat, s: Cpu): State
    requires pc < |prog|
  {
    match prog[pc]
    case Je(l) => Running(if s.flags.zf then Target(prog, l) else pc + 1, s)
    case Jne(l) => Running(if !s.flags.zf then Target(prog, l) else pc + 1, s)
    case Jmp(l) => Running(Target(prog, l), s)
    case LabelDef(_) => Running(pc + 1, s)
    case i =>
      match Exec(i, s)
      case Fault => Trapped
      case Done(s') => Running(pc + 1, s')
  }

  /** `n` steps; a run that left the program or trapped stays where it is. */
  function Run(prog: Code, s: State, n: nat): State
    decreases n
  {
    if n == 0 || s.Trapped? || s.pc >= |prog| then s
    else Run(prog, Step(prog, s.pc, s.cpu), n - 1)
  }

  lemma {:induction false} RunAdd(prog: Code, s: State, m: nat, n: nat)
    ensures Run(prog, s, m + n) == Run(prog, Run(prog, s, m), n)
    decreases m
  {
    if m > 0 && s.Running? && s.pc < |prog| {
      RunAdd(prog, Step(prog, s.pc, s.cpu), m - 1, n);
    }
  }

  // ---------- code in place ----------

  ghost predicate CodeAt(prog: Code, p: nat, c: Code) {
    p + |c| <= |prog| && prog[p..p + |c|] == c
  }

  lemma CodeAtSplit(prog: Code, p: nat, a: Code, b: Code)
    requires CodeAt(prog, p, a + b)
    ensures CodeAt(prog, p, a) && CodeAt(prog, p + |a|, b)
  {
    assert prog[p..p + |a|] == (a + b)[..|a|];
    assert prog[p + |a|..p + |a| + |b|] == (a + b)[|a|..];
  }

  predicate Straight(c: Code) {
    forall i :: 0 <= i < |c| ==> !IsControl(c[i])
  }

  /** The effect of instructions without jumps, one after the other. */
  function ExecAll(c: Code, s: Cpu): Effect
    requires Straight(c)
    decreases |c|
  {
    if c == [] then Done(s)
    else
      match Exec(c[0], s)
      case Fault => Fault
      case Done(s') => ExecAll(c[1..], s')
  }

  /** A block without jumps runs as the composition of its instructions. */
  lemma {:induction false} RunStraight(prog: Code, p: nat, c: Code, s: Cpu)
    requires Straight(c) && CodeAt(prog, p, c)
    ensures Run(prog, Running(p, s), |c|) ==
            match ExecAll(c, s) { case Fault => Trapped case Done(t) => Running(p + |c|, t) }
    decreases |c|
  {
    if c != [] {
      assert prog[p] == prog[p..p + |c|][0] == c[0];
      match Exec(c[0], s)
      case Fault =>
        assert Step(prog, p, s) == Trapped;
      case Done(s') =>
        assert Step(prog, p, s) == Running(p + 1, s');
        assert prog[p + 1..p + |c|] == c[1..];
        RunStraight(prog, p + 1, c[1..], s');
    }
  }
}
