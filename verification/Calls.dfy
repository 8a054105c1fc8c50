/** Passing arguments: where caller and callee expect them, the code of both sides, and the proof that every
    parameter of the callee has the value of its argument, also when arguments contain calls. */
module Calls {
  import opened Words
  import opened Memory
  import opened Bits
  import opened Align

  // ---------- where arguments go ----------

  /** The class of a type; structures and unions are passed by memory. */
  datatype Kind = Integer | Sse | Struct(width: nat)

  datatype Loc = Gp(i: nat) | Xmm(i: nat) | ByMem

  datatype Locations = Locations(locs: seq<Loc>, regCnt: nat, xregCnt: nat)

  function LocateNext(r: Locations, kind: Kind): Locations {
    match kind
    case Integer =>
      if r.regCnt < 6 then Locations(r.locs + [Gp(r.regCnt)], r.regCnt + 1, r.xregCnt)
      else r.(locs := r.locs + [ByMem])
    case Sse =>
      if r.xregCnt < 8 then Locations(r.locs + [Xmm(r.xregCnt)], r.regCnt, r.xregCnt + 1)
      else r.(locs := r.locs + [ByMem])
    case Struct(_) => r.(locs := r.locs + [ByMem])
  }

  function Locate(kinds: seq<Kind>, retStruct: bool): (r: Locations)
    ensures |r.locs| == |kinds| && r.regCnt <= 6 && r.xregCnt <= 8
    decreases |kinds|
  {
    if kinds == [] then Locations([], if retStruct then 1 else 0, 0)
    else LocateNext(Locate(kinds[..|kinds| - 1], retStruct), kinds[|kinds| - 1])
  }

  method GetParamLocations(kinds: seq<Kind>, retStruct: bool) returns (r: Locations)
    ensures r == Locate(kinds, retStruct)
  {
    var regCnt, xregCnt := if retStruct then 1 else 0, 0;
    var locs: seq<Loc> := [];
    for i := 0 to |kinds|
      invariant Locations(locs, regCnt, xregCnt) == Locate(kinds[..i], retStruct)
    {
      assert kinds[..i + 1][..i] == kinds[..i];
      var loc := ByMem;
      if kinds[i].Integer? {
        if regCnt < 6 { loc := Gp(regCnt); regCnt := regCnt + 1; }
      } else if kinds[i].Sse? {
        if xregCnt < 8 { loc := Xmm(xregCnt); xregCnt := xregCnt + 1; }
      }
      locs := locs + [loc];
    }
    assert kinds[..|kinds|] == kinds;
    return Locations(locs, regCnt, xregCnt);
  }

  /** A parameter's place does not depend on the parameters behind it. */
  lemma {:induction false} LocatePrefix(kinds: seq<Kind>, retStruct: bool, n: nat)
    requires n <= |kinds|
    ensures Locate(kinds[..n], retStruct).locs == Locate(kinds, retStruct).locs[..n]
    decreases |kinds|
  {
    if n == |kinds| {
      assert kinds[..n] == kinds;
    } else {
      LocatePrefix(kinds[..|kinds| - 1], retStruct, n);
      assert kinds[..|kinds| - 1][..n] == kinds[..n];
    }
  }

  /** Registers are used in order: the places of the first `n` are decided by how many came before. */
  lemma LocateAt(kinds: seq<Kind>, retStruct: bool, n: nat)
    requires n < |kinds|
    ensures Locate(kinds[..n + 1], retStruct) == LocateNext(Locate(kinds[..n], retStruct), kinds[n])
    ensures Locate(kinds, retStruct).locs[n] == Locate(kinds[..n + 1], retStruct).locs[n]
  {
    assert kinds[..n + 1][..n] == kinds[..n];
    LocatePrefix(kinds, retStruct, n + 1);
  }

  ghost predicate Distinct(locs: seq<Loc>) {
    forall i, j :: 0 <= i < j < |locs| ==> locs[i] != locs[j] || locs[i].ByMem?
  }

  lemma {:induction false} LocateDistinct(kinds: seq<Kind>, retStruct: bool)
    ensures var r := Locate(kinds, retStruct);
            && Distinct(r.locs)
            && (forall i :: 0 <= i < |r.locs| && r.locs[i].Gp? ==> r.locs[i].i < r.regCnt && kinds[i].Integer?)
            && (forall i :: 0 <= i < |r.locs| && r.locs[i].Xmm? ==> r.locs[i].i < r.xregCnt && kinds[i].Sse?)
    decreases |kinds|
  {
    if kinds != [] { LocateDistinct(kinds[..|kinds| - 1], retStruct); }
  }

  // ---------- the machine ----------

  type Six = s: seq<int> | |s| == 6 witness [0, 0, 0, 0, 0, 0]
  type Eight = s: seq<int> | |s| == 8 witness [0, 0, 0, 0, 0, 0, 0, 0]

  /** Argument registers in the order in which they are used; `%rcx` is `gp[3]`. Right operands wait in `%r11` and
      `%xmm9`. */
  datatype Cpu = Cpu(rbp: int, rsp: int, rax: int, r11: int, gp: Six, xmm: Eight, xmm9: int, mem: Mem)

  datatype Reg = RAX | GPR(i: nat) | XMM(i: nat)

  function Get(s: Cpu, r: Reg): int {
    match r
    case RAX => s.rax
    case GPR(i) => if i < 6 then s.gp[i] else 0
    case XMM(i) => if i < 8 then s.xmm[i] else 0
  }

  function Put(s: Cpu, r: Reg, v: int): Cpu {
    match r
    case RAX => s.(rax := v)
    case GPR(i) => if i < 6 then s.(gp := s.gp[i := v]) else s
    case XMM(i) => if i < 8 then s.(xmm := s.xmm[i := v]) else s
  }

  function RegOf(l: Loc): Reg {
    match l
    case Gp(i) => GPR(i)
    case Xmm(i) => XMM(i)
    case ByMem => RAX
  }

  datatype Instr =
    | SetReg(r: Reg, v: int)                // a constant
    | LeaRax(off: int)                      // the address of a local object
    | StoreReg(r: Reg, off: int)            // 8 bytes
    | LoadReg(off: int, r: Reg)
    | MovRcx                                // movq %rax, %rcx
    | LoadThrough(k: int, unit: nat)        // k(%rcx) to %rax
    | StoreRax(off: int, unit: nat)
    | LeaRsp(off: int)
    | CallFunc(fn: string, area: nat)       // `area`: bytes of arguments on the stack
    | SaveXmm(i: nat, off: int)             // movaps, skipped when %al is 0
    | MoveAside(kind: Kind)                 // movq %rax, %r11 or movsd %xmm0, %xmm9
    | Operate(op: Op, kind: Kind)           // op %r11, %rax or op %xmm9, %xmm0

  datatype Op = Plus | Minus | Times

  /** A value: a number in 8 bytes or the bytes of a structure. */
  datatype Val = Num(w: Word) | Obj(bytes: seq<Byte>)

  datatype Sig = Sig(params: seq<Kind>, variadic: bool, ret: Kind)

  /** The functions of a program: what each computes from its named parameters, and what each leaves in the
      registers and in the memory it owns, which may be anything, like what the vector unit computes. */
  datatype World = World(funcs: map<string, Sig>, result: (string, seq<Val>) -> Word,
                         leftGp: (string, Cpu) -> Six, leftXmm: (string, Cpu) -> Eight, leftMem: (string, Cpu) -> Mem,
                         leftRax: (string, Cpu) -> int, leftR11: (string, Cpu) -> int, leftXmm9: (string, Cpu) -> int,
                         sse: (Op, int, int) -> Word)

  /** 64-bit arithmetic on integers; what the vector unit computes may be anything. */
  function OpResult(op: Op, kind: Kind, a: int, b: int, w: World): Word {
    if kind.Sse? then w.sse(op, a, b)
    else
      match op
      case Plus => (a + b) % P64
      case Minus => (a - b) % P64
      case Times => a * b % P64
  }

  function ResultReg(kind: Kind): Reg {
    if kind.Sse? then XMM(0) else RAX
  }

  function Exec(i: Instr, s: Cpu, w: World): Cpu {
    match i
    case SetReg(r, v) => Put(s, r, v)
    case LeaRax(off) => s.(rax := s.rbp + off)
    case StoreReg(_, _) => StoreOnly(i, s)
    case LoadReg(off, r) => Put(s, r, Load(s.mem, s.rbp + off, 8))
    case MovRcx => Put(s, GPR(3), s.rax)
    case LoadThrough(k, unit) => s.(rax := Load(s.mem, s.gp[3] + k, unit))
    case StoreRax(off, unit) => s.(mem := Store(s.mem, s.rbp + off, unit, s.rax))
    case LeaRsp(off) => s.(rsp := s.rbp + off)
    case CallFunc(fn, area) => if fn in w.funcs then Returned(s, fn, area, w) else s
    case SaveXmm(_, _) => StoreOnly(i, s)
    case MoveAside(kind) => if kind.Sse? then s.(xmm9 := s.xmm[0]) else s.(r11 := s.rax)
    case Operate(op, kind) =>
      Put(s, ResultReg(kind), OpResult(op, kind, Get(s, ResultReg(kind)), if kind.Sse? then s.xmm9 else s.r11, w))
  }

  function ExecAll(code: seq<Instr>, s: Cpu, w: World): Cpu
    decreases |code|
  {
    if code == [] then s else Exec(code[|code| - 1], ExecAll(code[..|code| - 1], s, w), w)
  }

  lemma {:induction false} ExecAllAppend(a: seq<Instr>, b: seq<Instr>, s: Cpu, w: World)
    ensures ExecAll(a + b, s, w) == ExecAll(b, ExecAll(a, s, w), w)
    decreases |b|
  {
    if b == [] {
      assert a + b == a;
    } else {
      assert (a + b)[..|a + b| - 1] == a + b[..|b| - 1];
      ExecAllAppend(a, b[..|b| - 1], s, w);
    }
  }

  lemma ExecOne(i: Instr, s: Cpu, w: World)
    ensures ExecAll([i], s, w) == Exec(i, s, w)
  {
    assert [i][..0] == [];
  }

  /** `call`, `pushq %rbp`, `movq %rsp, %rbp`. */
  function Entered(s: Cpu): Cpu {
    s.(mem := Store(Store(s.mem, s.rsp - 8, 8, 0), s.rsp - 16, 8, s.rbp), rbp := s.rsp - 16, rsp := s.rsp - 16)
  }

  /** The state after a call: the callee has read its parameters from its own frame. */
  function Returned(s: Cpu, fn: string, area: nat, w: World): Cpu
    requires fn in w.funcs
  {
    var sig := w.funcs[fn];
    var v := w.result(fn, ReadParams(sig, ExecPrologue(sig, Entered(s))));
    var left := w.leftMem(fn, s);
    var mem := map a | a in s.mem.Keys + left.Keys :: if a < s.rsp + area then At(left, a) else At(s.mem, a);
    Cpu(s.rbp, s.rsp, if sig.ret.Sse? then w.leftRax(fn, s) else v, w.leftR11(fn, s), w.leftGp(fn, s),
        if sig.ret.Sse? then w.leftXmm(fn, s)[0 := v] else w.leftXmm(fn, s), w.leftXmm9(fn, s), mem)
  }

  // ---------- the callee ----------

  /** The offsets of the parameters, and how far the callee has come. */
  datatype Places = Places(offs: seq<int>, reg: int, xreg: int, mem: int, code: seq<Instr>)

  function WidthOf(kind: Kind): nat {
    if kind.Struct? then kind.width else 8
  }

  function PlaceNext(p: Places, loc: Loc, kind: Kind, variadic: bool): Places {
    match loc
    case ByMem => p.(offs := p.offs + [p.mem], mem := MakeAlign(p.mem + WidthOf(kind), 8))
    case Xmm(_) =>
      if variadic then p.(offs := p.offs + [p.xreg], xreg := p.xreg + 16)
      else p.(offs := p.offs + [p.reg - 8], reg := p.reg - 8, code := p.code + [StoreReg(RegOf(loc), p.reg - 8)])
    case Gp(_) =>
      if variadic then p.(offs := p.offs + [p.reg], reg := p.reg + 8)
      else p.(offs := p.offs + [p.reg - 8], reg := p.reg - 8, code := p.code + [StoreReg(RegOf(loc), p.reg - 8)])
  }

  /** The first `n` parameters. In a variadic function `reg` walks up the save area, otherwise down the frame. */
  function PlaceParams(kinds: seq<Kind>, variadic: bool, n: nat): (p: Places)
    requires n <= |kinds|
    ensures |p.offs| == n
    decreases n
  {
    if n == 0 then
      (if variadic then Places([], SAVE_AREA, SAVE_AREA + 48, 16, SaveCode()) else Places([], 0, 0, 16, []))
    else PlaceNext(PlaceParams(kinds, variadic, n - 1), Locate(kinds, false).locs[n - 1], kinds[n - 1], variadic)
  }

  const SAVE_AREA := -176

  /** All argument registers, saved for `va_arg`. */
  function SaveCode(): (c: seq<Instr>)
    ensures |c| == 14
  {
    seq(6, i requires 0 <= i < 6 => StoreReg(GPR(i), SAVE_AREA + 8 * i))
    + seq(8, i requires 0 <= i < 8 => SaveXmm(i, SAVE_AREA + 48 + 16 * i))
  }

  function ExecPrologue(sig: Sig, s: Cpu): Cpu {
    ExecPlain(PlaceParams(sig.params, sig.variadic, |sig.params|).code, s)
  }

  /** The prologue only stores registers. */
  function ExecPlain(code: seq<Instr>, s: Cpu): Cpu
    decreases |code|
  {
    if code == [] then s else StoreOnly(code[|code| - 1], ExecPlain(code[..|code| - 1], s))
  }

  function StoreOnly(i: Instr, s: Cpu): Cpu {
    match i
    case StoreReg(r, off) => s.(mem := Store(s.mem, s.rbp + off, 8, Get(s, r)))
    case SaveXmm(i, off) => if s.rax % 256 == 0 then s else s.(mem := Store(s.mem, s.rbp + off, 8, Get(s, XMM(i))))
    case _ => s
  }

  function ReadBytes(m: Mem, a: int, n: nat): (s: seq<Byte>)
    ensures |s| == n
  {
    seq<Byte>(n, k => At(m, a + k))
  }

  function ReadParam(kind: Kind, m: Mem, a: int): Val {
    if kind.Struct? then Obj(ReadBytes(m, a, kind.width))
    else Num(Load(m, a, 8) % P64)
  }

  function ReadParams(sig: Sig, s: Cpu): seq<Val> {
    var p := PlaceParams(sig.params, sig.variadic, |sig.params|);
    seq(|sig.params|, i requires 0 <= i < |sig.params| => ReadParam(sig.params[i], s.mem, s.rbp + p.offs[i]))
  }

  // ---------- the caller ----------

  /** Arguments: constants, local scalars of 8 bytes, local structures, operators on scalars, and calls. */
  datatype Arg =
    | Int(v: Word)
    | Flt(v: Word)
    | Local(off: int, kind: Kind)
    | Object(off: int, width: nat)
    | Binary(op: Op, lhs: Arg, rhs: Arg)
    | Call(fn: string, args: seq<Arg>)

  function KindOf(e: Arg, w: World): Kind {
    match e
    case Int(_) => Integer
    case Flt(_) => Sse
    case Local(_, kind) => kind
    case Object(_, width) => Struct(width)
    case Binary(_, l, _) => KindOf(l, w)
    case Call(fn, _) => if fn in w.funcs then w.funcs[fn].ret else Integer
  }

  function Kinds(args: seq<Arg>, w: World): (ks: seq<Kind>)
    ensures |ks| == |args|
  {
    seq(|args|, i requires 0 <= i < |args| => KindOf(args[i], w))
  }

  /** Calls fit the signatures and return scalars; operands are scalars of one class; objects lie above the
      expression's part of the frame. */
  predicate WellFormed(e: Arg, off: int, w: World) {
    match e
    case Local(o, kind) => o >= off && !kind.Struct?
    case Object(o, _) => o >= off
    case Binary(_, l, r) =>
      && WellFormed(l, off, w) && WellFormed(r, off, w)
      && KindOf(l, w) == KindOf(r, w) && !KindOf(l, w).Struct?
    case Call(fn, args) =>
      && fn in w.funcs && !w.funcs[fn].ret.Struct?
      && Fits(Kinds(args, w), w.funcs[fn])
      && forall i :: 0 <= i < |args| ==> WellFormed(args[i], off, w)
    case _ => true
  }

  predicate Fits(kinds: seq<Kind>, sig: Sig) {
    && sig.params <= kinds
    && (sig.variadic || |kinds| == |sig.params|)
  }

  function NumberOf(v: Val): Word {
    if v.Num? then v.w else 0
  }

  /** What an expression means: variables from the memory, operators on their operands' values, calls by their
      functions. */
  function Evaluate(e: Arg, m: Mem, rbp: int, w: World): Val {
    match e
    case Int(v) => Num(v)
    case Flt(v) => Num(v)
    case Local(off, _) => Num(Load(m, rbp + off, 8) % P64)
    case Object(off, width) => Obj(ReadBytes(m, rbp + off, width))
    case Binary(op, l, r) =>
      Num(OpResult(op, KindOf(l, w), NumberOf(Evaluate(l, m, rbp, w)), NumberOf(Evaluate(r, m, rbp, w)), w))
    case Call(fn, args) =>
      var n := if fn in w.funcs then |w.funcs[fn].params| else 0;
      Num(w.result(fn, seq(if n <= |args| then n
          else |args|, i requires 0 <= i < |args| => Evaluate(args[i], m, rbp, w))))
  }

  /** How far the frame grows for one pushed value. */
  function NextOff(kind: Kind, off: int): int {
    if kind.Struct? then MakeAlign(off - kind.width, 8) else off - 8
  }

  function CopyUnits(left: nat, k: nat, dst: int): seq<Instr>
    decreases left
  {
    if left == 0 then []
    else
      var unit := UnitFor(left);
      [LoadThrough(k, unit), StoreRax(dst + k, unit)] + CopyUnits(left - unit, k + unit, dst)
  }

  function PushCode(kind: Kind, off: int): seq<Instr> {
    match kind
    case Integer => [StoreReg(RAX, off - 8)]
    case Sse => [StoreReg(XMM(0), off - 8)]
    case Struct(width) => [MovRcx] + CopyUnits(width, 0, MakeAlign(off - width, 8))
  }

  /** The offset after the values of one sort behind index `i`, and that of `i`, are pushed. */
  function Down(kinds: seq<Kind>, locs: seq<Loc>, byMem: bool, i: nat, off: int): int
    requires i <= |kinds| == |locs|
    decreases |kinds| - i
  {
    if i == |kinds| then off
    else
      var next := Down(kinds, locs, byMem, i + 1, off);
      if locs[i].ByMem? == byMem then NextOff(kinds[i], next) else next
  }

  function PushAll(args: seq<Arg>, locs: seq<Loc>, byMem: bool, i: nat, off: int, w: World): seq<Instr>
    requires i <= |args| == |locs|
    decreases args, |args| - i
  {
    if i == |args| then []
    else
      PushAll(args, locs, byMem, i + 1, off, w)
      + if locs[i].ByMem? == byMem then PushOne(args, locs, byMem, i, off, w) else []
  }

  function PushOne(args: seq<Arg>, locs: seq<Loc>, byMem: bool, i: nat, off: int, w: World): seq<Instr>
    requires i < |args| == |locs|
    decreases args, 0
  {
    var at := Down(Kinds(args, w), locs, byMem, i + 1, off);
    Compile(args[i], at, w) + PushCode(KindOf(args[i], w), at)
  }

  function PopAll(locs: seq<Loc>, i: nat, off: int): seq<Instr>
    requires i <= |locs|
    decreases |locs| - i
  {
    if i == |locs| then []
    else if locs[i].ByMem? then PopAll(locs, i + 1, off)
    else [LoadReg(off, RegOf(locs[i]))] + PopAll(locs, i + 1, off + 8)
  }

  /** The top of the frame before the arguments of a call: such that the stack pointer is aligned if every
      argument in memory takes 8 bytes. */
  function CallBase(l: Locations, off: int): int {
    var byMemCnt := |l.locs| - l.regCnt - l.xregCnt;
    MakeAlign(off - byMemCnt * 8, 16) + byMemCnt * 8
  }

  /** The right operand steps aside for the spilled left one. */
  function OperateCode(op: Op, kind: Kind, at: int): seq<Instr> {
    [MoveAside(kind), LoadReg(at, ResultReg(kind)), Operate(op, kind)]
  }

  function Compile(e: Arg, off: int, w: World): seq<Instr>
    decreases e
  {
    match e
    case Int(v) => [SetReg(RAX, v)]
    case Flt(v) => [SetReg(XMM(0), v)]
    case Local(o, kind) => [LoadReg(o, ResultReg(kind))]
    case Object(o, _) => [LeaRax(o)]
    case Binary(op, l, r) =>
      var kind := KindOf(l, w);
      Compile(l, off, w) + [StoreReg(ResultReg(kind), off - 8)] + Compile(r, off - 8, w)
          + OperateCode(op, kind, off - 8)
    case Call(fn, args) =>
      var kinds := Kinds(args, w);
      var l := Locate(kinds, false);
      var off1 := CallBase(l, off);
      var off2 := Down(kinds, l.locs, true, 0, off1);
      var off3 := Down(kinds, l.locs, false, 0, off2);
      PushAll(args, l.locs, true, 0, off1, w)
      + PushAll(args, l.locs, false, 0, off2, w)
      + PopAll(l.locs, 0, off3)
      + (if fn in w.funcs && w.funcs[fn].variadic then [SetReg(RAX, l.xregCnt)] else [])
      + [LeaRsp(off2), CallFunc(fn, if off1 >= off2 then off1 - off2 else 0)]
  }
}
