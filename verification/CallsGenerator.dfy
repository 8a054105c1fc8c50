/** The code generator for calls and function entries, as it runs, and the alignment of the stack at a call. */
module CallsGenerator {
  import opened Bits
  import opened Align
  import opened Calls
  import opened CallsCorrect

  class Generator {
    var offset: int
    var out: seq<Instr>
    const funcs: map<string, Sig>
    ghost const w: World

    ghost predicate Valid()
      reads this
    {
      funcs == w.funcs
    }

    constructor (funcs: map<string, Sig>, offset: int, ghost w: World)
      requires funcs == w.funcs
      ensures Valid() && this.w == w && this.offset == offset && out == []
    {
      this.funcs, this.w, this.offset := funcs, w, offset;
      out := [];
    }

    method Emit(i: Instr)
      modifies this`out
      ensures out == old(out) + [i]
    {
      out := out + [i];
    }

    method PushReg(r: Reg)
      modifies this
      ensures offset == old(offset) - 8 && out == old(out) + [StoreReg(r, offset)]
    {
      offset := offset - 8;
      Emit(StoreReg(r, offset));
    }

    method Pop(r: Reg)
      modifies this
      ensures offset == old(offset) + 8 && out == old(out) + [LoadReg(old(offset), r)]
    {
      Emit(LoadReg(offset, r));
      offset := offset + 8;
    }

    method CopyStruct(dst: int, width: nat)
      modifies this`out
      ensures out == old(out) + [MovRcx] + CopyUnits(width, 0, dst)
    {
      Emit(MovRcx);
      ghost var start := out;
      var units := [8, 4, 2, 1];
      var left, k: nat := width, 0;
      for u := 0 to 4
        invariant u == 0 || left < units[u - 1]
        invariant out + CopyUnits(left, k, dst) == start + CopyUnits(width, 0, dst)
      {
        while left >= units[u]
          invariant u == 0 || left < units[u - 1]
          invariant out + CopyUnits(left, k, dst) == start + CopyUnits(width, 0, dst)
          decreases left
        {
          NextUnit(out, left, k, dst);
          Emit(LoadThrough(k, units[u]));
          Emit(StoreRax(dst + k, units[u]));
          left, k := left - units[u], k + units[u];
        }
      }
    }

    method Push(kind: Kind)
      modifies this
      ensures offset == NextOff(kind, old(offset)) && out == old(out) + PushCode(kind, old(offset))
    {
      match kind
      case Integer => PushReg(RAX);
      case Sse => PushReg(XMM(0));
      case Struct(width) =>
        offset := MakeAlign(offset - width, 8);
        CopyStruct(offset, width);
        assert [MovRcx] + CopyUnits(width, 0, offset) == PushCode(kind, old(offset));
    }

    method Visit(e: Arg)
      requires Valid()
      modifies this
      ensures Valid() && offset == old(offset) && out == old(out) + Compile(e, old(offset), w)
      decreases e, 1
    {
      match e
      case Int(v) => Emit(SetReg(RAX, v));
      case Flt(v) => Emit(SetReg(XMM(0), v));
      case Local(o, kind) => Emit(LoadReg(o, ResultReg(kind)));
      case Object(o, _) => Emit(LeaRax(o));
      case Binary(_, _, _) => VisitBinaryOp(e);
      case Call(fn, args) => VisitFuncCall(e);
    }

    /** The left operand is pushed while the right one is visited. */
    method VisitBinaryOp(e: Arg)
      requires Valid() && e.Binary?
      modifies this
      ensures Valid() && offset == old(offset) && out == old(out) + Compile(e, old(offset), w)
      decreases e, 0
    {
      hide KindOf, OpResult;
      ghost var start, base := out, offset;
      var kind := TypeOf(e.lhs);
      Visit(e.lhs);
      PushReg(ResultReg(kind));
      Visit(e.rhs);
      Emit(MoveAside(kind));
      Pop(ResultReg(kind));
      Emit(Operate(e.op, kind));
      assert out == start + (Compile(e.lhs, base, w) + [StoreReg(ResultReg(kind), base - 8)]
             + Compile(e.rhs, base - 8, w)
                             + OperateCode(e.op, kind, base - 8));
    }

    method VisitFuncCall(e: Arg)
      requires Valid() && e.Call?
      modifies this
      ensures Valid() && offset == old(offset) && out == old(out) + Compile(e, old(offset), w)
      decreases e, 0
    {
      hide PushAll, PopAll, Compile, Locate, Down;
      ghost var start := out;
      var base := offset;
      var types: seq<Kind> := [];
      for i := 0 to |e.args|
        modifies {}
        invariant types == Kinds(e.args, w)[..i]
      {
        types := types + [TypeOf(e.args[i])];
      }
      assert types == Kinds(e.args, w);
      var l := GetParamLocations(types, false);
      var byMemCnt := |l.locs| - l.regCnt - l.xregCnt;
      offset := MakeAlign(offset - byMemCnt * 8, 16) + byMemCnt * 8;
      var off1 := offset;
      PushArgs(e.args, l.locs, true);
      var off2 := offset;
      PushArgs(e.args, l.locs, false);
      PopArgs(l.locs, types, off2);
      CallCode(e, base, start, w);
      if e.fn in funcs && funcs[e.fn].variadic { Emit(SetReg(RAX, l.xregCnt)); }
      Emit(LeaRsp(off2));
      Emit(CallFunc(e.fn, if off1 >= off2 then off1 - off2 else 0));
      offset := base;
    }

    function TypeOf(e: Arg): (kind: Kind)
      requires Valid()
      reads this
      ensures kind == KindOf(e, w)
    {
      match e
      case Int(_) => Integer
      case Flt(_) => Sse
      case Local(_, kind) => kind
      case Object(_, width) => Struct(width)
      case Binary(_, l, _) => TypeOf(l)
      case Call(fn, _) => if fn in funcs then funcs[fn].ret else Integer
    }

    /** From the last argument to the first. */
    method PushArgs(args: seq<Arg>, locs: seq<Loc>, byMem: bool)
      requires Valid() && |args| == |locs|
      modifies this
      ensures Valid() && offset == Down(Kinds(args, w), locs, byMem, 0, old(offset))
      ensures out == old(out) + PushAll(args, locs, byMem, 0, old(offset), w)
      decreases args, |args|
    {
      hide PushAll, PushOne, Compile, PushCode, Down, KindOf, NextOff;
      ghost var start, top := out, offset;
      var i := |args|;
      PushAllEnd(args, locs, byMem, top, w);
      while i > 0
        invariant 0 <= i <= |args| && Valid()
        invariant offset == Down(Kinds(args, w), locs, byMem, i, top)
        invariant out == start + PushAll(args, locs, byMem, i, top, w)
      {
        i := i - 1;
        PushAllAt(start, args, locs, byMem, i, top, w);
        if locs[i].ByMem? == byMem {
          Visit(args[i]);
          Push(TypeOf(args[i]));
        }
      }
    }

    method PopArgs(locs: seq<Loc>, ghost kinds: seq<Kind>, ghost off2: int)
      requires locs == Locate(kinds, false).locs && offset == Down(kinds, locs, false, 0, off2)
      modifies this
      ensures offset == off2 && out == old(out) + PopAll(locs, 0, old(offset))
    {
      ghost var start, top := out, offset;
      LocateDistinct(kinds, false);
      for i := 0 to |locs|
        invariant offset == Down(kinds, locs, false, i, off2)
        invariant out + PopAll(locs, i, offset) == start + PopAll(locs, 0, top)
      {
        if !locs[i].ByMem? { Pop(RegOf(locs[i])); }
      }
    }

    /** The entry of a function: which registers are saved and where each parameter is. */
    method VisitFuncDef(sig: Sig) returns (offs: seq<int>)
      requires offset == 0
      modifies this
      ensures var p := PlaceParams(sig.params, sig.variadic, |sig.params|);
              offs == p.offs && out == old(out) + p.code
    {
      hide Locate, SaveCode, MakeAlign, WidthOf, RegOf;
      ghost var start := out;
      var l := GetParamLocations(sig.params, false);
      offs := [];
      if sig.variadic {
        GenSaveArea();
        var regOffset, xregOffset, byMemOffset := offset, offset + 48, 16;
        for i := 0 to |sig.params|
          invariant out == start + SaveCode()
          invariant var p := PlaceParams(sig.params, true, i);
                    p.code == SaveCode() && offs == p.offs && regOffset == p.reg && xregOffset == p.xreg
                    && byMemOffset == p.mem
        {
          match l.locs[i] {
            case ByMem =>
              offs := offs + [byMemOffset];
              byMemOffset := MakeAlign(byMemOffset + WidthOf(sig.params[i]), 8);
            case Xmm(_) =>
              offs := offs + [xregOffset];
              xregOffset := xregOffset + 16;
            case Gp(_) =>
              offs := offs + [regOffset];
              regOffset := regOffset + 8;
          }
        }
      } else {
        var byMemOffset := 16;
        for i := 0 to |sig.params|
          invariant var p := PlaceParams(sig.params, false, i);
                    out == start + p.code && offs == p.offs && offset == p.reg && byMemOffset == p.mem
        {
          if l.locs[i].ByMem? {
            offs := offs + [byMemOffset];
            byMemOffset := MakeAlign(byMemOffset + WidthOf(sig.params[i]), 8);
          } else {
            PushReg(RegOf(l.locs[i]));
            offs := offs + [offset];
          }
        }
      }
    }

    method GenSaveArea()
      modifies this
      ensures offset == SAVE_AREA && out == old(out) + SaveCode()
    {
      ghost var start := out;
      var off := SAVE_AREA;
      for i := 0 to 6
        invariant off == SAVE_AREA + 8 * i && out == start + SaveCode()[..i]
      {
        Emit(StoreReg(GPR(i), off));
        off := off + 8;
      }
      for i := 0 to 8
        invariant off == SAVE_AREA + 48 + 16 * i && out == start + SaveCode()[..6 + i]
      {
        Emit(SaveXmm(i, off));
        off := off + 16;
      }
      assert SaveCode()[..14] == SaveCode();
      offset := SAVE_AREA;
    }
  }

  /** The pieces of a call, in the order in which they are emitted. */
  lemma CallCode(e: Arg, off: int, start: seq<Instr>, w: World)
    requires e.Call?
    ensures var kinds := Kinds(e.args, w);
            var l := Locate(kinds, false);
            var off1 := CallBase(l, off);
            var off2 := Down(kinds, l.locs, true, 0, off1);
            var args := start + PushAll(e.args, l.locs, true, 0, off1, w) + PushAll(e.args, l.locs, false, 0, off2, w)
                        + PopAll(l.locs, 0, Down(kinds, l.locs, false, 0, off2));
            start + Compile(e, off, w)
            == (if e.fn in w.funcs && w.funcs[e.fn].variadic then args + [SetReg(RAX, l.xregCnt)] else args)
               + [LeaRsp(off2)] + [CallFunc(e.fn, if off1 >= off2 then off1 - off2 else 0)]
  {
    hide PushAll, PopAll, Locate, Down, CallBase;
  }

  lemma PushAllEnd(args: seq<Arg>, locs: seq<Loc>, byMem: bool, off: int, w: World)
    requires |args| == |locs|
    ensures PushAll(args, locs, byMem, |args|, off, w) == [] && Down(Kinds(args, w), locs, byMem, |args|, off) == off
  {
  }

  lemma PushAllAt(start: seq<Instr>, args: seq<Arg>, locs: seq<Loc>, byMem: bool, i: nat, off: int, w: World)
    requires i < |args| == |locs|
    ensures var kind, at := KindOf(args[i], w), Down(Kinds(args, w), locs, byMem, i + 1, off);
            var before := start + PushAll(args, locs, byMem, i + 1, off, w);
            if locs[i].ByMem? == byMem then
              && start + PushAll(args, locs, byMem, i, off, w) == before + Compile(args[i], at, w) + PushCode(kind, at)
              && Down(Kinds(args, w), locs, byMem, i, off) == NextOff(kind, at)
            else
              && start + PushAll(args, locs, byMem, i, off, w) == before
              && Down(Kinds(args, w), locs, byMem, i, off) == at
  {
    hide Compile, PushCode;
  }

  lemma NextUnit(out: seq<Instr>, left: nat, k: nat, dst: int)
    requires left > 0
    ensures var unit := UnitFor(left);
            out + CopyUnits(left, k, dst)
            == out + [LoadThrough(k, unit)] + [StoreRax(dst + k, unit)] + CopyUnits(left - unit, k + unit, dst)
  {
  }

  // ---------- alignment ----------

  function MemCount(locs: seq<Loc>, i: nat): nat
    requires i <= |locs|
  {
    if i == 0 then 0 else MemCount(locs, i - 1) + if locs[i - 1].ByMem? then 1 else 0
  }

  /** The caller's count of arguments in memory is right when no register carries the address of the result. */
  lemma {:induction false} CountIs(kinds: seq<Kind>, retStruct: bool)
    ensures var l := Locate(kinds, retStruct);
            |l.locs| - l.regCnt - l.xregCnt == MemCount(l.locs, |l.locs|) - if retStruct then 1 else 0
    decreases |kinds|
  {
    if kinds != [] {
      var r, l := Locate(kinds[..|kinds| - 1], retStruct), Locate(kinds, retStruct);
      CountIs(kinds[..|kinds| - 1], retStruct);
      CountPrefix(l.locs, r.locs, |r.locs|);
    }
  }

  lemma {:induction false} CountPrefix(a: seq<Loc>, b: seq<Loc>, i: nat)
    requires i <= |a| && i <= |b| && a[..i] == b[..i]
    ensures MemCount(a, i) == MemCount(b, i)
    decreases i
  {
    if i > 0 {
      assert a[..i][i - 1] == b[..i][i - 1] && a[..i][..i - 1] == a[..i - 1] && b[..i][..i - 1] == b[..i - 1];
      CountPrefix(a, b, i - 1);
    }
  }

  /** The stack pointer at the call, relative to the frame pointer. */
  function StackAtCall(kinds: seq<Kind>, off: int, retStruct: bool): int {
    var l := Locate(kinds, retStruct);
    Down(kinds, l.locs, true, 0, CallBase(l, off))
  }

  /** The stack is aligned at a call exactly when the arguments in memory take, modulo 16, as many bytes as if
      each took 8; for a call that returns a structure, when they take 8 bytes more or less than that. */
  lemma AlignedIff(kinds: seq<Kind>, off: int, retStruct: bool, rbp: int)
    requires off <= 0 && rbp % 16 == 0
    ensures var locs := Locate(kinds, retStruct).locs;
            (rbp + StackAtCall(kinds, off, retStruct)) % 16 == 0
            <==> (MemBefore(kinds, locs, |kinds|) - 8 * MemCount(locs, |kinds|)) % 16 == if retStruct then 8 else 0
  {
    hide Locate, MemBefore, MemCount, Down;
    var l := Locate(kinds, retStruct);
    var off1 := CallBase(l, off);
    CountIs(kinds, retStruct);
    var count := MemCount(l.locs, |kinds|) - if retStruct then 1 else 0;
    BaseIs(off, count);
    if MemCount(l.locs, |kinds|) == 0 {
      NoneInMemory(kinds, l.locs, 0, off1);
      NoneBefore(kinds, l.locs);
    } else {
      DownEnd(kinds, l.locs, off1);
      DownIsMemBefore(kinds, l.locs, |kinds|, off1);
    }
    Sixteen(off1 - 8 * count, count, MemBefore(kinds, l.locs, |kinds|), rbp);
    Eight(MemBefore(kinds, l.locs, |kinds|) - 8 * count);
  }

  lemma NoneBefore(kinds: seq<Kind>, locs: seq<Loc>)
    requires |kinds| == |locs|
    ensures MemBefore(kinds, locs, 0) == 0
  {
  }

  lemma {:induction false} NoneInMemory(kinds: seq<Kind>, locs: seq<Loc>, i: nat, off: int)
    requires i <= |kinds| == |locs| && MemCount(locs, |locs|) == 0
    ensures MemCount(locs, i) == 0 && Down(kinds, locs, true, i, off) == off
    ensures MemBefore(kinds, locs, |kinds|) == MemBefore(kinds, locs, i)
    decreases |kinds| - i
  {
    if i < |kinds| { NoneInMemory(kinds, locs, i + 1, off); }
  }

  lemma BaseIs(off: int, count: int)
    ensures var base := MakeAlign(off - 8 * count, 16) + 8 * count;
            && base % 8 == 0 && (base - 8 * count) % 16 == 0
            && (off <= 0 <= count ==> base <= off)
  {
  }

  lemma Eight(x: int)
    ensures x % 16 == 0 <==> (x - 8) % 16 == 8
  {
  }

  lemma DownEnd(kinds: seq<Kind>, locs: seq<Loc>, off: int)
    requires |kinds| == |locs|
    ensures Down(kinds, locs, true, |kinds|, off) == off
  {
  }

  lemma Sixteen(a: int, count: int, bytes: nat, rbp: int)
    requires a % 16 == 0 && rbp % 16 == 0
    ensures (rbp + (a + 8 * count - bytes)) % 16 == 0 <==> (bytes - 8 * count) % 16 == 0
  {
  }

  /** With scalar arguments only it is always aligned. */
  lemma ScalarsAligned(kinds: seq<Kind>, off: int, rbp: int)
    requires off <= 0 && rbp % 16 == 0 && forall k :: k in kinds ==> !k.Struct?
    ensures (rbp + StackAtCall(kinds, off, false)) % 16 == 0
  {
    AlignedIff(kinds, off, false, rbp);
    ScalarBytes(kinds, Locate(kinds, false).locs, |kinds|);
  }

  lemma {:induction false} ScalarBytes(kinds: seq<Kind>, locs: seq<Loc>, i: nat)
    requires i <= |kinds| == |locs| && forall k :: k in kinds ==> !k.Struct?
    ensures MemBefore(kinds, locs, i) == 8 * MemCount(locs, i)
    decreases i
  {
    if i > 0 { ScalarBytes(kinds, locs, i - 1); }
  }

  /** One structure of 16 bytes shifts it. */
  lemma StructShifts(off: int, rbp: int)
    requires off <= 0 && rbp % 16 == 0
    ensures (rbp + StackAtCall([Struct(16)], off, false)) % 16 == 8
  {
    var kinds := [Struct(16)];
    var l := Locate(kinds, false);
    assert kinds[..0] == [];
    assert l.locs == [ByMem] && l.regCnt == 0 && l.xregCnt == 0;
    CallBaseBounds(l, off);
    NextOffIs(Struct(16), CallBase(l, off));
  }

  /** A register for the address of a structure result is counted as one argument too many: a call with scalar
      arguments that returns a structure is never aligned. */
  lemma StructResultMisaligned(kinds: seq<Kind>, off: int, rbp: int)
    requires rbp % 16 == 0 && forall k :: k in kinds ==> !k.Struct?
    ensures (rbp + StackAtCall(kinds, off, true)) % 16 == 8
  {
    hide Locate, MemCount, Down, MakeAlign;
    var l := Locate(kinds, true);
    CountIs(kinds, true);
    NoneCounted(l.locs);
    ScalarDown(kinds, l.locs, 0, CallBase(l, off));
    var count := MemCount(l.locs, |kinds|) - 1;
    BaseIs(off, count);
    OneTooMany(CallBase(l, off) - 8 * count, rbp);
  }

  lemma NoneCounted(locs: seq<Loc>)
    ensures MemCount(locs, 0) == 0
  {
  }

  lemma OneTooMany(a: int, rbp: int)
    requires a % 16 == 0 && rbp % 16 == 0
    ensures (rbp + (a - 8)) % 16 == 8
  {
  }

  lemma {:induction false} ScalarDown(kinds: seq<Kind>, locs: seq<Loc>, i: nat, off: int)
    requires i <= |kinds| == |locs| && forall k :: k in kinds ==> !k.Struct?
    ensures Down(kinds, locs, true, i, off) == off - 8 * (MemCount(locs, |locs|) - MemCount(locs, i))
    decreases |kinds| - i
  {
    if i < |kinds| { ScalarDown(kinds, locs, i + 1, off); }
  }

  /** What a call pushes begins below what the frame holds, unless the call returns a structure, passes nothing in
      memory, and less than 8 bytes of the frame are in use. Then the stack pointer is 8 bytes above the frame pointer,
      and the return address of the call takes the place of the saved frame pointer. */
  lemma BelowFrameIff(kinds: seq<Kind>, off: int, retStruct: bool)
    requires off <= 0
    ensures var l := Locate(kinds, retStruct);
            && (CallBase(l, off) <= off <==> !retStruct || MemCount(l.locs, |l.locs|) > 0 || off <= -8)
            && (CallBase(l, off) > off ==> StackAtCall(kinds, off, retStruct) == 8)
  {
    hide Locate, MemCount, Down, MakeAlign, MemBefore;
    var l := Locate(kinds, retStruct);
    CountIs(kinds, retStruct);
    BaseBelowIff(off, MemCount(l.locs, |l.locs|) - if retStruct then 1 else 0);
    if MemCount(l.locs, |l.locs|) == 0 { NoneInMemory(kinds, l.locs, 0, CallBase(l, off)); }
  }

  lemma BaseBelowIff(off: int, count: int)
    requires off <= 0 && count >= -1
    ensures var base := MakeAlign(off - 8 * count, 16) + 8 * count;
            && (base <= off <==> count >= 0 || off <= -8)
            && (base > off ==> base == 8)
  {
  }

  /** With one structure of 16 bytes among its arguments it is aligned. */
  lemma StructResultAligned(off: int, rbp: int)
    requires off <= 0 && rbp % 16 == 0
    ensures (rbp + StackAtCall([Struct(16)], off, true)) % 16 == 0
  {
    hide Locate, StackAtCall, MemBefore, MemCount;
    OneInMemory(16);
    AlignedIff([Struct(16)], off, true, rbp);
  }

  lemma OneInMemory(width: nat)
    requires width % 8 == 0
    ensures var kinds := [Struct(width)];
            var locs := Locate(kinds, true).locs;
            MemBefore(kinds, locs, 1) == width && MemCount(locs, 1) == 1
  {
    var kinds := [Struct(width)];
    assert kinds[..0] == [];
    assert Locate(kinds, true).locs == [ByMem];
  }
}
