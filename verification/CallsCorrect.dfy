/** Arguments arrive: running the caller's code and the callee's prologue gives every parameter the value of
    its argument. */
module CallsCorrect {
  import opened Words
  import opened Memory
  import opened Bits
  import opened Align
  import opened Calls

  // ---------- memory ----------

  /** Nothing at or above `limit` has changed. */
  ghost predicate Kept(m: Mem, m': Mem, limit: int) {
    forall a :: a >= limit ==> At(m', a) == At(m, a)
  }

  /** The value at an address. */
  ghost predicate Has(m: Mem, a: int, v: Val) {
    match v
    case Num(w) => Load(m, a, 8) == w
    case Obj(bytes) => ReadBytes(m, a, |bytes|) == bytes
  }

  lemma HasKept(m: Mem, m': Mem, limit: int, a: int, v: Val)
    requires Kept(m, m', limit) && Has(m, a, v) && a >= limit
    ensures Has(m', a, v)
  {
    if v.Num? { LoadSame(m, m', a, 8); }
  }

  lemma StoredNum(m: Mem, a: int, w: Word)
    ensures Has(Store(m, a, 8, w), a, Num(w))
  {
    LoadStoreWord(m, a, w);
  }

  // ---------- pushing one value ----------

  /** The value of an expression of a kind, where its code leaves it; structures lie above `limit`. */
  ghost predicate Result(s: Cpu, kind: Kind, v: Val, limit: int) {
    match kind
    case Integer => v.Num? && s.rax == v.w
    case Sse => v.Num? && s.xmm[0] == v.w
    case Struct(width) => v.Obj? && |v.bytes| == width && Has(s.mem, s.rax, v) && s.rax >= limit
  }

  function RoundUp(kind: Kind): nat {
    if kind.Struct? then MakeAlign(kind.width, 8) else 8
  }

  lemma NextOffIs(kind: Kind, off: int)
    requires off % 8 == 0 && off <= 0
    ensures NextOff(kind, off) == off - RoundUp(kind) && NextOff(kind, off) % 8 == 0
    ensures kind.Struct? ==> NextOff(kind, off) + kind.width <= off
  {
  }

  /** `n` bytes have been copied, nothing else has changed. */
  ghost predicate Copied(m: Mem, m': Mem, from: int, to: int, n: nat) {
    && (forall b :: to <= b < to + n ==> At(m', b) == At(m, b - to + from))
    && (forall b :: b < to || b >= to + n ==> At(m', b) == At(m, b))
  }

  lemma CopyStep(m: Mem, from: int, to: int, unit: nat)
    ensures Copied(m, Store(m, to, unit, Load(m, from, unit)), from, to, unit)
  {
    var m' := Store(m, to, unit, Load(m, from, unit));
    forall b | to <= b < to + unit
      ensures At(m', b) == At(m, b - to + from)
    {
      StoredByte(m, to, unit, Load(m, from, unit), b - to);
      LoadedByte(m, from, unit, b - to);
    }
  }

  lemma CopiedTwice(m: Mem, m1: Mem, m2: Mem, from: int, to: int, i: nat, j: nat)
    requires Copied(m, m1, from, to, i) && Copied(m1, m2, from + i, to + i, j)
    requires to + i + j <= from
    ensures Copied(m, m2, from, to, i + j)
  {
  }

  /** The copy loop moves the bytes; source and destination do not overlap. */
  lemma {:induction false} CopyRight(left: nat, k: nat, dst: int, s: Cpu, w: World)
    requires s.rbp + dst + k + left <= s.gp[3]
    ensures var s' := ExecAll(CopyUnits(left, k, dst), s, w);
            s'.rbp == s.rbp && s'.gp == s.gp && Copied(s.mem, s'.mem, s.gp[3] + k, s.rbp + dst + k, left)
    decreases left
  {
    hide Copied, Exec, Get, Load, Locate, Returned, Store;
    if left == 0 {
      CopiedNone(s.mem, s.gp[3] + k, s.rbp + dst + k);
    } else {
      var unit := UnitFor(left);
      var load, store := LoadThrough(k, unit), StoreRax(dst + k, unit);
      var rest := CopyUnits(left - unit, k + unit, dst);
      var s1 := Exec(load, s, w);
      var s2 := Exec(store, s1, w);
      assert CopyUnits(left, k, dst) == [load] + ([store] + rest);
      ExecTwo(load, store, rest, s, w);
      CopyPair(k, dst, unit, s, w);
      hide Exec, ExecAll;
      CopyRight(left - unit, k + unit, dst, s2, w);
      CopiedTwice(s.mem, s2.mem, ExecAll(rest, s2, w).mem, s.gp[3] + k, s.rbp + dst + k, unit, left - unit);
    }
  }

  lemma CopyPair(k: nat, dst: int, unit: nat, s: Cpu, w: World)
    ensures var s2 := Exec(StoreRax(dst + k, unit), Exec(LoadThrough(k, unit), s, w), w);
            s2.rbp == s.rbp && s2.gp == s.gp && Copied(s.mem, s2.mem, s.gp[3] + k, s.rbp + dst + k, unit)
  {
    hide Load, Store, Copied;
    CopyStep(s.mem, s.gp[3] + k, s.rbp + dst + k, unit);
  }

  lemma CopiedNone(m: Mem, from: int, to: int)
    ensures Copied(m, m, from, to, 0)
  {
  }

  lemma ExecTwo(i: Instr, j: Instr, rest: seq<Instr>, s: Cpu, w: World)
    ensures ExecAll([i] + ([j] + rest), s, w) == ExecAll(rest, Exec(j, Exec(i, s, w), w), w)
  {
    hide Exec;
    ExecAllAppend([i], [j] + rest, s, w);
    ExecAllAppend([j], rest, Exec(i, s, w), w);
    ExecOne(i, s, w);
    ExecOne(j, Exec(i, s, w), w);
  }

  lemma {:induction false} LoadedByte(m: Mem, a: int, n: nat, i: nat)
    requires i < n
    ensures LittleEndian(Load(m, a, n), n)[i] == At(m, a + i)
    decreases n
  {
    var rest := Load(m, a + 1, n - 1);
    assert (At(m, a) + 256 * rest) % 256 == At(m, a) && (At(m, a) + 256 * rest) / 256 == rest;
    if i > 0 { LoadedByte(m, a + 1, n - 1, i - 1); }
  }

  lemma PushRight(kind: Kind, off: int, s: Cpu, v: Val, w: World)
    requires off % 8 == 0 && off <= 0 && Result(s, kind, v, s.rbp + off)
    ensures var s' := ExecAll(PushCode(kind, off), s, w);
            && s'.rbp == s.rbp && Kept(s.mem, s'.mem, s.rbp + off)
            && Has(s'.mem, s.rbp + NextOff(kind, off), v)
  {
    hide ExecAll, Load, Locate, MakeAlign, ReadBytes, Returned, Store;
    NextOffIs(kind, off);
    hide ExecAll, CopyUnits, Load, Store;
    match kind
    case Integer =>
      ExecOne(StoreReg(RAX, off - 8), s, w);
      StoredNum(s.mem, s.rbp + off - 8, v.w);
    case Sse =>
      ExecOne(StoreReg(XMM(0), off - 8), s, w);
      StoredNum(s.mem, s.rbp + off - 8, v.w);
    case Struct(width) => PushStruct(width, off, s, v, w);
  }

  lemma PushStruct(width: nat, off: int, s: Cpu, v: Val, w: World)
    requires off % 8 == 0 && off <= 0 && Result(s, Struct(width), v, s.rbp + off)
    ensures var s' := ExecAll(PushCode(Struct(width), off), s, w);
            && s'.rbp == s.rbp && Kept(s.mem, s'.mem, s.rbp + off)
            && Has(s'.mem, s.rbp + NextOff(Struct(width), off), v)
  {
    hide ExecAll, Get, Load;
    var dst := NextOff(Struct(width), off);
    NextOffIs(Struct(width), off);
    var s1 := Exec(MovRcx, s, w);
    ExecAllAppend([MovRcx], CopyUnits(width, 0, dst), s, w);
    ExecOne(MovRcx, s, w);
    hide ExecAll, CopyUnits, MakeAlign, Copied, Load, Store, Kept;
    CopyRight(width, 0, dst, s1, w);
    var s' := ExecAll(PushCode(Struct(width), off), s, w);
    CopiedIs(s.mem, s'.mem, s.rax, s.rbp + dst, v.bytes, s.rbp + off);
  }

  lemma CopiedIs(m: Mem, m': Mem, from: int, to: int, bytes: seq<Byte>, limit: int)
    requires to + |bytes| <= limit
    requires Copied(m, m', from, to, |bytes|) && Has(m, from, Obj(bytes))
    ensures Has(m', to, Obj(bytes)) && Kept(m, m', limit)
  {
    forall k | 0 <= k < |bytes|
      ensures ReadBytes(m', to, |bytes|)[k] == bytes[k]
    {
      assert At(m', to + k) == At(m, from + k);
      assert ReadBytes(m, from, |bytes|)[k] == bytes[k];
    }
    assert ReadBytes(m', to, |bytes|) == bytes;
  }

  // ---------- the meaning of an expression stays ----------

  lemma {:induction false} WellFormedLower(e: Arg, off: int, off': int, w: World)
    requires WellFormed(e, off, w) && off' <= off
    ensures WellFormed(e, off', w)
  {
    if e.Binary? {
      WellFormedLower(e.lhs, off, off', w);
      WellFormedLower(e.rhs, off, off', w);
    } else if e.Call? {
      forall i | 0 <= i < |e.args|
        ensures WellFormed(e.args[i], off', w)
      {
        WellFormedLower(e.args[i], off, off', w);
      }
    }
  }

  lemma {:induction false} EvaluateKept(e: Arg, m: Mem, m': Mem, rbp: int, off: int, w: World)
    requires WellFormed(e, off, w) && Kept(m, m', rbp + off)
    ensures Evaluate(e, m', rbp, w) == Evaluate(e, m, rbp, w)
  {
    hide KindOf;
    match e
    case Call(fn, args) =>
      forall i | 0 <= i < |args|
        ensures Evaluate(args[i], m', rbp, w) == Evaluate(args[i], m, rbp, w)
      {
        EvaluateKept(args[i], m, m', rbp, off, w);
      }
      var n := |w.funcs[fn].params|;
      assert seq(n, i requires 0 <= i < |args| => Evaluate(args[i], m', rbp, w))
          == seq(n, i requires 0 <= i < |args| => Evaluate(args[i], m, rbp, w));
    case Local(o, _) => LoadSame(m, m', rbp + o, 8);
    case Object(o, width) =>
      assert ReadBytes(m', rbp + o, width) == ReadBytes(m, rbp + o, width);
    case Binary(_, l, r) =>
      EvaluateKept(l, m, m', rbp, off, w);
      EvaluateKept(r, m, m', rbp, off, w);
    case _ =>
  }

  // ---------- offsets ----------

  lemma {:induction false} DownBounds(kinds: seq<Kind>, locs: seq<Loc>, byMem: bool, i: nat, off: int)
    requires i <= |kinds| == |locs| && off % 8 == 0 && off <= 0
    ensures var d := Down(kinds, locs, byMem, i, off);
            d <= off && d % 8 == 0
    decreases |kinds| - i
  {
    if i < |kinds| {
      DownBounds(kinds, locs, byMem, i + 1, off);
      NextOffIs(kinds[i], Down(kinds, locs, byMem, i + 1, off));
    }
  }

  /** Bytes of the arguments in memory before index `i`. */
  function MemBefore(kinds: seq<Kind>, locs: seq<Loc>, i: nat): nat
    requires i <= |kinds| == |locs|
    decreases i
  {
    if i == 0 then 0
    else MemBefore(kinds, locs, i - 1) + if locs[i - 1].ByMem? then RoundUp(kinds[i - 1]) else 0
  }

  /** The first argument in memory ends up lowest. */
  lemma {:induction false} DownIsMemBefore(kinds: seq<Kind>, locs: seq<Loc>, i: nat, off: int)
    requires i <= |kinds| == |locs| && off % 8 == 0 && off <= 0
    ensures Down(kinds, locs, true, i, off) == Down(kinds, locs, true, 0, off) + MemBefore(kinds, locs, i)
    decreases i
  {
    if i > 0 {
      DownIsMemBefore(kinds, locs, i - 1, off);
      DownBounds(kinds, locs, true, i, off);
      NextOffIs(kinds[i - 1], Down(kinds, locs, true, i, off));
    }
  }

  lemma CallBaseBounds(l: Locations, off: int)
    requires off <= 0 && l.regCnt + l.xregCnt <= |l.locs|
    ensures CallBase(l, off) <= off && CallBase(l, off) % 8 == 0
  {
  }

  /** Registers handed out are among the arguments. */
  lemma {:induction false} LocateCount(kinds: seq<Kind>)
    ensures var l := Locate(kinds, false); l.regCnt + l.xregCnt <= |l.locs|
    decreases |kinds|
  {
    if kinds != [] { LocateCount(kinds[..|kinds| - 1]); }
  }

  // ---------- the callee's side ----------

  /** Where the callee keeps parameter `i`. */
  function OffsetOf(kinds: seq<Kind>, variadic: bool, i: nat): int
    requires i < |kinds|
  {
    PlaceParams(kinds, variadic, i + 1).offs[i]
  }

  lemma {:induction false} PlacePrefix(kinds: seq<Kind>, variadic: bool, i: nat, n: nat)
    requires i < n <= |kinds|
    ensures PlaceParams(kinds, variadic, n).offs[i] == OffsetOf(kinds, variadic, i)
    decreases n
  {
    if i + 1 < n { PlacePrefix(kinds, variadic, i, n - 1); }
  }

  /** Parameters in memory lie behind the return address and the saved frame pointer, in order. */
  lemma {:induction false} PlaceMem(kinds: seq<Kind>, variadic: bool, n: nat)
    requires n <= |kinds|
    ensures PlaceParams(kinds, variadic, n).mem == 16 + MemBefore(kinds, Locate(kinds, false).locs, n)
    decreases n
  {
    hide Locate, RoundUp, SaveCode;
    if n > 0 {
      PlaceMem(kinds, variadic, n - 1);
      MemBeforeEven(kinds, Locate(kinds, false).locs, n - 1);
      NextMem(PlaceParams(kinds, variadic, n - 1), Locate(kinds, false).locs[n - 1], kinds[n - 1], variadic);
    }
  }

  lemma NextMem(p: Places, loc: Loc, kind: Kind, variadic: bool)
    requires p.mem >= 0 && p.mem % 8 == 0
    ensures PlaceNext(p, loc, kind, variadic).mem == p.mem + if loc.ByMem? then RoundUp(kind) else 0
  {
  }

  lemma {:induction false} MemBeforeEven(kinds: seq<Kind>, locs: seq<Loc>, i: nat)
    requires i <= |kinds| == |locs|
    ensures MemBefore(kinds, locs, i) % 8 == 0
    decreases i
  {
    if i > 0 { MemBeforeEven(kinds, locs, i - 1); }
  }

  /** A value that the caller has passed as parameter `i`; `at` is where the arguments in memory begin. */
  ghost predicate Arrived(kinds: seq<Kind>, locs: seq<Loc>, i: nat, s: Cpu, at: int, v: Val)
    requires i < |kinds| == |locs|
  {
    && (if kinds[i].Struct? then v.Obj? && |v.bytes| == kinds[i].width else v.Num?)
    && if locs[i].ByMem? then Has(s.mem, at + MemBefore(kinds, locs, i), v)
       else v.Num? && Get(s, RegOf(locs[i])) == v.w
  }

  /** A register of a parameter is saved at the offset of the parameter. */
  ghost predicate RegSaved(kinds: seq<Kind>, variadic: bool, s: Cpu, m: Mem, i: nat)
    requires i < |kinds|
  {
    var loc := Locate(kinds, false).locs[i];
    var v := Get(s, RegOf(loc));
    !loc.ByMem? && 0 <= v < P64 && !(variadic && loc.Xmm? && s.rax % 256 == 0) ==>
      Has(m, s.rbp + OffsetOf(kinds, variadic, i), Num(v))
  }

  /** The prologue of an ordinary function saves the registers of its parameters one below the other. */
  lemma {:induction false} SavedBelow(kinds: seq<Kind>, n: nat, s: Cpu)
    requires n <= |kinds|
    ensures var locs := Locate(kinds, false).locs;
            var p := PlaceParams(kinds, false, n);
            var s' := ExecPlain(p.code, s);
            && s' == s.(mem := s'.mem) && p.reg <= 0 && Kept(s.mem, s'.mem, s.rbp)
            && (forall i :: 0 <= i < n && !locs[i].ByMem? ==> p.reg <= OffsetOf(kinds, false, i))
            && forall i :: 0 <= i < n ==> RegSaved(kinds, false, s, s'.mem, i)
    decreases n
  {
    hide Store, Load, Locate, Has, RegSaved, ExecPlain, PlaceParams, OffsetOf, Kept, Get, StoreOnly;
    if n == 0 {
      NoneSaved(kinds, s);
    } else {
      var p, loc := PlaceParams(kinds, false, n - 1), Locate(kinds, false).locs[n - 1];
      SavedBelow(kinds, n - 1, s);
      var s1 := ExecPlain(p.code, s);
      PlaceBelow(kinds, n - 1);
      if loc.ByMem? {
        NotSaved(kinds, false, s, s1.mem, n - 1);
      } else {
        PlainNext(p.code, StoreReg(RegOf(loc), p.reg - 8), s);
        BelowStep(kinds, n - 1, p.reg, s, s1);
        KeptTwice(s.mem, s1.mem, StoreOnly(StoreReg(RegOf(loc), p.reg - 8), s1).mem, s.rbp);
      }
    }
  }

  lemma NoneSaved(kinds: seq<Kind>, s: Cpu)
    ensures var p := PlaceParams(kinds, false, 0);
            p.code == [] && p.reg == 0 && ExecPlain(p.code, s) == s && Kept(s.mem, s.mem, s.rbp)
  {
  }

  lemma NoneKept(m: Mem, limit: int)
    ensures Kept(m, m, limit)
  {
  }

  lemma KeptTwice(m: Mem, m1: Mem, m2: Mem, limit: int)
    requires Kept(m, m1, limit) && Kept(m1, m2, limit)
    ensures Kept(m, m2, limit)
  {
  }

  lemma PlaceBelow(kinds: seq<Kind>, n: nat)
    requires n < |kinds|
    ensures var p, p', loc := PlaceParams(kinds, false, n), PlaceParams(kinds, false, n + 1),
            Locate(kinds, false).locs[n];
            if loc.ByMem? then p'.code == p.code && p'.reg == p.reg
            else
              && p'.code == p.code + [StoreReg(RegOf(loc), p.reg - 8)]
              && p'.reg == p.reg - 8 == OffsetOf(kinds, false, n)
  {
    hide Locate;
  }

  lemma BelowStep(kinds: seq<Kind>, n: nat, reg: int, s: Cpu, s1: Cpu)
    requires n < |kinds| && s1 == s.(mem := s1.mem) && reg <= 0 && !Locate(kinds, false).locs[n].ByMem?
    requires OffsetOf(kinds, false, n) == reg - 8
    requires forall i :: 0 <= i < n && !Locate(kinds, false).locs[i].ByMem? ==> reg <= OffsetOf(kinds, false, i)
    requires forall i :: 0 <= i < n ==> RegSaved(kinds, false, s, s1.mem, i)
    ensures var s' := StoreOnly(StoreReg(RegOf(Locate(kinds, false).locs[n]), reg - 8), s1);
            && s' == s.(mem := s'.mem) && Kept(s1.mem, s'.mem, s.rbp)
            && forall i :: 0 <= i < n + 1 ==> RegSaved(kinds, false, s, s'.mem, i)
  {
    hide Locate, OffsetOf, RegSaved;
    var loc := Locate(kinds, false).locs[n];
    NewSaved(kinds, false, s, s1.mem, n);
    var m' := Store(s1.mem, s.rbp + reg - 8, 8, Get(s, RegOf(loc)));
    forall i | 0 <= i < n
      ensures RegSaved(kinds, false, s, m', i)
    {
      StillSaved(kinds, false, s, s1.mem, s.rbp + reg - 8, Get(s, RegOf(loc)), i);
    }
    SavedNum(s1.mem, s.rbp + reg - 8, Get(s, RegOf(loc)));
  }

  lemma NotSaved(kinds: seq<Kind>, variadic: bool, s: Cpu, m: Mem, i: nat)
    requires i < |kinds| && Locate(kinds, false).locs[i].ByMem?
    ensures RegSaved(kinds, variadic, s, m, i)
  {
  }

  lemma NewSaved(kinds: seq<Kind>, variadic: bool, s: Cpu, m: Mem, i: nat)
    requires i < |kinds|
    ensures RegSaved(kinds, variadic, s,
                     Store(m, s.rbp + OffsetOf(kinds, variadic, i), 8, Get(s, RegOf(Locate(kinds, false).locs[i]))), i)
  {
    hide Store, Load, Locate, Has, OffsetOf;
    SavedNum(m, s.rbp + OffsetOf(kinds, variadic, i), Get(s, RegOf(Locate(kinds, false).locs[i])));
  }

  lemma StillSaved(kinds: seq<Kind>, variadic: bool, s: Cpu, m: Mem, at: int, v: int, i: nat)
    requires i < |kinds| && RegSaved(kinds, variadic, s, m, i)
    requires Locate(kinds, false).locs[i].ByMem? || at + 8 <= s.rbp + OffsetOf(kinds, variadic, i)
    ensures RegSaved(kinds, variadic, s, Store(m, at, 8, v), i)
  {
    SavedNum(m, at, v);
  }

  lemma PlainNext(code: seq<Instr>, i: Instr, s: Cpu)
    ensures ExecPlain(code + [i], s) == StoreOnly(i, ExecPlain(code, s))
  {
    assert (code + [i])[..|code|] == code;
  }

  /** One more saved register. */
  lemma SavedNum(m: Mem, at: int, v: int)
    ensures var m' := Store(m, at, 8, v);
            && Kept(m, m', at + 8)
            && (0 <= v < P64 ==> Has(m', at, Num(v)))
            && (forall a, x :: (a >= at + 8 || a + 8 <= at) && Has(m, a, Num(x)) ==> Has(m', a, Num(x)))
  {
    var m' := Store(m, at, 8, v);
    if 0 <= v < P64 { StoredNum(m, at, v); }
    forall a, x | (a >= at + 8 || a + 8 <= at) && Has(m, a, Num(x))
      ensures Has(m', a, Num(x))
    {
      LoadSame(m, m', a, 8);
    }
  }

  function AreaOff(i: nat): int {
    SAVE_AREA + if i < 6 then 8 * i else 48 + 16 * (i - 6)
  }

  /** A register is in its slot of the save area. */
  ghost predicate AreaHas(s: Cpu, m: Mem, i: nat) {
    var v := if i < 6 then s.gp[i] else if i < 14 then s.xmm[i - 6] else 0;
    0 <= v < P64 && (i < 6 || s.rax % 256 != 0) ==> Has(m, s.rbp + AreaOff(i), Num(v))
  }

  /** The save area of a variadic function. */
  lemma {:induction false} SaveAreaHas(n: nat, s: Cpu)
    requires n <= 14
    ensures var s' := ExecPlain(SaveCode()[..n], s);
            && s' == s.(mem := s'.mem) && Kept(s.mem, s'.mem, s.rbp)
            && forall i :: 0 <= i < n ==> AreaHas(s, s'.mem, i)
    decreases n
  {
    hide SaveCode, AreaHas, StoreOnly, Kept;
    if n == 0 {
      NoneKept(s.mem, s.rbp);
    } else {
      hide ExecPlain;
      SaveAreaHas(n - 1, s);
      SaveCodeAt(n - 1);
      var s1, i := ExecPlain(SaveCode()[..n - 1], s), SaveCode()[n - 1];
      PlainNext(SaveCode()[..n - 1], i, s);
      assert SaveCode()[..n] == SaveCode()[..n - 1] + [i];
      AreaStep(s, s1, n - 1, i);
      KeptTwice(s.mem, s1.mem, StoreOnly(i, s1).mem, s.rbp);
    }
  }

  lemma AreaStep(s: Cpu, s1: Cpu, n: nat, i: Instr)
    requires n < 14 && s1 == s.(mem := s1.mem)
    requires i == if n < 6 then StoreReg(GPR(n), AreaOff(n)) else SaveXmm(n - 6, AreaOff(n))
    requires forall i :: 0 <= i < n ==> AreaHas(s, s1.mem, i)
    ensures var s' := StoreOnly(i, s1);
            && s' == s.(mem := s'.mem) && Kept(s1.mem, s'.mem, s.rbp)
            && forall i :: 0 <= i < n + 1 ==> AreaHas(s, s'.mem, i)
  {
    hide Store, Load, Has;
    var v := if n < 6 then s.gp[n] else s.xmm[n - 6];
    SavedNum(s1.mem, s.rbp + AreaOff(n), v);
    var m' := StoreOnly(i, s1).mem;
    forall j | 0 <= j < n
      ensures AreaHas(s, m', j)
    {
      assert AreaHas(s, s1.mem, j) && AreaOff(j) + 8 <= AreaOff(n);
    }
  }

  lemma SaveCodeAt(n: nat)
    requires n < 14
    ensures SaveCode()[n] == if n < 6 then StoreReg(GPR(n), SAVE_AREA + 8 * n)
            else SaveXmm(n - 6, SAVE_AREA + 48 + 16 * (n - 6))
  {
  }

  /** In a variadic function the register of a parameter decides its slot in the save area. */
  lemma {:induction false} PlaceSaved(kinds: seq<Kind>, n: nat)
    requires n <= |kinds|
    ensures var l := Locate(kinds[..n], false);
            var p := PlaceParams(kinds, true, n);
            && p.reg == SAVE_AREA + 8 * l.regCnt && p.xreg == SAVE_AREA + 48 + 16 * l.xregCnt && p.code == SaveCode()
            && (forall i :: 0 <= i < n && l.locs[i].Gp? ==> p.offs[i] == SAVE_AREA + 8 * l.locs[i].i)
            && (forall i :: 0 <= i < n && l.locs[i].Xmm? ==> p.offs[i] == SAVE_AREA + 48 + 16 * l.locs[i].i)
    decreases n
  {
    if n > 0 {
      PlaceSaved(kinds, n - 1);
      LocateAt(kinds, false, n - 1);
    }
  }

  /** Both prologues: registers saved, nothing of the caller changed. */
  lemma PrologueSaves(sig: Sig, s: Cpu)
    ensures var s' := ExecPrologue(sig, s);
            && s'.rbp == s.rbp && Kept(s.mem, s'.mem, s.rbp)
            && forall i :: 0 <= i < |sig.params| ==> RegSaved(sig.params, sig.variadic, s, s'.mem, i)
  {
    hide RegSaved, ExecPlain, Kept;
    if sig.variadic {
      SaveAreaHas(14, s);
      PlaceSaved(sig.params, |sig.params|);
      assert SaveCode()[..14] == SaveCode();
      forall i | 0 <= i < |sig.params|
        ensures RegSaved(sig.params, true, s, ExecPrologue(sig, s).mem, i)
      {
        AreaIsSaved(sig.params, s, ExecPrologue(sig, s).mem, i);
      }
    } else {
      SavedBelow(sig.params, |sig.params|, s);
    }
  }

  lemma AreaIsSaved(kinds: seq<Kind>, s: Cpu, m: Mem, i: nat)
    requires i < |kinds| && forall k :: 0 <= k < 14 ==> AreaHas(s, m, k)
    ensures RegSaved(kinds, true, s, m, i)
  {
    hide Locate, Load, PlaceParams;
    var loc := Locate(kinds, false).locs[i];
    PlaceSaved(kinds, i + 1);
    LocateAt(kinds, false, i);
    LocateDistinct(kinds, false);
    if loc.Gp? { assert AreaHas(s, m, loc.i); }
    if loc.Xmm? { assert AreaHas(s, m, loc.i + 6); }
  }

  /** Whatever the caller has put in the places of the parameters is what the callee reads. */
  lemma CalleeReads(sig: Sig, s: Cpu, vals: seq<Val>)
    requires |vals| == |sig.params|
    requires forall i :: 0 <= i < |vals| ==> Arrived(sig.params, Locate(sig.params, false).locs, i, s, s.rsp, vals[i])
    requires sig.variadic && s.rax % 256 == 0 ==> forall i ::
             0 <= i < |vals| ==> !Locate(sig.params, false).locs[i].Xmm?
    ensures ReadParams(sig, ExecPrologue(sig, Entered(s))) == vals
  {
    hide ExecPrologue, Locate, RegSaved, Arrived;
    var e := Entered(s);
    PrologueSaves(sig, e);
    var s' := ExecPrologue(sig, e);
    forall i | 0 <= i < |vals|
      ensures ReadParams(sig, s')[i] == vals[i]
    {
      CalleeReadsOne(sig, s, s'.mem, i, vals[i]);
      PlacePrefix(sig.params, sig.variadic, i, |sig.params|);
    }
  }

  lemma EnteredKeeps(s: Cpu)
    ensures Kept(s.mem, Entered(s).mem, s.rsp) && Entered(s).rbp == s.rsp - 16
  {
  }

  lemma CalleeReadsOne(sig: Sig, s: Cpu, m: Mem, i: nat, v: Val)
    requires i < |sig.params| && Arrived(sig.params, Locate(sig.params, false).locs, i, s, s.rsp, v)
    requires Kept(Entered(s).mem, m, s.rsp - 16) && RegSaved(sig.params, sig.variadic, Entered(s), m, i)
    requires sig.variadic && s.rax % 256 == 0 ==> !Locate(sig.params, false).locs[i].Xmm?
    ensures ReadParam(sig.params[i], m, s.rsp - 16 + OffsetOf(sig.params, sig.variadic, i)) == v
  {
    hide Load, Locate, MakeAlign, ReadBytes, Store;
    EnteredKeeps(s);
    var loc := Locate(sig.params, false).locs[i];
    var at := s.rsp - 16 + OffsetOf(sig.params, sig.variadic, i);
    LocateDistinct(sig.params, false);
    if loc.ByMem? {
      PlaceMem(sig.params, sig.variadic, i);
      OffsetOfMem(sig.params, sig.variadic, i);
      KeptLater(s.mem, Entered(s).mem, m, s.rsp, s.rsp - 16);
      HasKept(s.mem, m, s.rsp, at, v);
    }
    hide Locate, OffsetOf, Entered;
    if v.Num? { ModSmall(v.w, P64); }
  }

  lemma OffsetOfMem(kinds: seq<Kind>, variadic: bool, i: nat)
    requires i < |kinds| && Locate(kinds, false).locs[i].ByMem?
    ensures OffsetOf(kinds, variadic, i) == PlaceParams(kinds, variadic, i).mem
  {
  }

  lemma KeptLater(m: Mem, m1: Mem, m2: Mem, limit: int, lower: int)
    requires Kept(m, m1, limit) && Kept(m1, m2, lower) && lower <= limit
    ensures Kept(m, m2, limit)
  {
  }

  // ---------- the caller's side ----------

  /** The code of an expression has run: its value is in place, and what was at or above `off` is unchanged. */
  ghost predicate Ran(e: Arg, off: int, s: Cpu, s': Cpu, w: World) {
    && s'.rbp == s.rbp && Kept(s.mem, s'.mem, s.rbp + off)
    && Result(s', KindOf(e, w), Evaluate(e, s.mem, s.rbp, w), s.rbp + off)
  }

  /** Argument `j` is on the stack. */
  ghost predicate Pushed(args: seq<Arg>, locs: seq<Loc>, byMem: bool, j: nat, off: int, m: Mem, m': Mem, rbp: int,
      w: World)
    requires j < |args| == |locs|
  {
    locs[j].ByMem? == byMem ==>
      Has(m', rbp + Down(Kinds(args, w), locs, byMem, j, off), Evaluate(args[j], m, rbp, w))
  }

  ghost predicate AllFormed(args: seq<Arg>, off: int, w: World) {
    forall i :: 0 <= i < |args| ==> WellFormed(args[i], off, w)
  }

  lemma {:induction false} DownMono(kinds: seq<Kind>, locs: seq<Loc>, byMem: bool, i: nat, j: nat, off: int)
    requires i <= j <= |kinds| == |locs| && off % 8 == 0 && off <= 0
    ensures Down(kinds, locs, byMem, i, off) <= Down(kinds, locs, byMem, j, off)
    decreases j - i
  {
    if i < j {
      DownMono(kinds, locs, byMem, i + 1, j, off);
      DownBounds(kinds, locs, byMem, i + 1, off);
      NextOffIs(kinds[i], Down(kinds, locs, byMem, i + 1, off));
    }
  }

  lemma {:induction false} PushAllRight(args: seq<Arg>, locs: seq<Loc>, byMem: bool, i: nat, off: int, s: Cpu, w: World)
    requires i <= |args| == |locs| && off % 8 == 0 && off <= 0 && AllFormed(args, off, w)
    ensures var s' := ExecAll(PushAll(args, locs, byMem, i, off, w), s, w);
            && s'.rbp == s.rbp && Kept(s.mem, s'.mem, s.rbp + off)
            && forall j :: i <= j < |args| ==> Pushed(args, locs, byMem, j, off, s.mem, s'.mem, s.rbp, w)
    decreases args, |args| - i
  {
    hide ExecAll, Kept, Pushed, PushOne, AllFormed;
    if i == |args| {
      NoneKept(s.mem, s.rbp + off);
      ExecNone(s, w);
    } else {
      PushAllRight(args, locs, byMem, i + 1, off, s, w);
      var code := PushAll(args, locs, byMem, i + 1, off, w);
      var s1 := ExecAll(code, s, w);
      if locs[i].ByMem? == byMem {
        PushOneRight(args, locs, byMem, i, off, s, s1, w);
        ExecAllAppend(code, PushOne(args, locs, byMem, i, off, w), s, w);
      } else {
        NotPushed(args, locs, byMem, i, off, s.mem, s1.mem, s.rbp, w);
        assert code + [] == code;
      }
    }
  }

  lemma ExecNone(s: Cpu, w: World)
    ensures ExecAll([], s, w) == s
  {
  }

  lemma NotPushed(args: seq<Arg>, locs: seq<Loc>, byMem: bool, i: nat, off: int, m: Mem, m': Mem, rbp: int, w: World)
    requires i < |args| == |locs| && locs[i].ByMem? != byMem
    ensures Pushed(args, locs, byMem, i, off, m, m', rbp, w)
  {
  }

  lemma PushOneRight(args: seq<Arg>, locs: seq<Loc>, byMem: bool, i: nat, off: int, s: Cpu, s1: Cpu, w: World)
    requires i < |args| == |locs| && off % 8 == 0 && off <= 0 && AllFormed(args, off, w)
    requires locs[i].ByMem? == byMem && s1.rbp == s.rbp && Kept(s.mem, s1.mem, s.rbp + off)
    requires forall j :: i + 1 <= j < |args| ==> Pushed(args, locs, byMem, j, off, s.mem, s1.mem, s.rbp, w)
    ensures var s' := ExecAll(PushOne(args, locs, byMem, i, off, w), s1, w);
            && s'.rbp == s.rbp && Kept(s.mem, s'.mem, s.rbp + off)
            && forall j :: i <= j < |args| ==> Pushed(args, locs, byMem, j, off, s.mem, s'.mem, s.rbp, w)
    decreases args, 0
  {
    hide ExecAll, Kept, Result, Evaluate, PushCode, Compile, WellFormed, Has;
    var kinds := Kinds(args, w);
    var at := Down(kinds, locs, byMem, i + 1, off);
    DownBounds(kinds, locs, byMem, i + 1, off);
    WellFormedLower(args[i], off, at, w);
    CompileRight(args[i], at, s1, w);
    var s2 := ExecAll(Compile(args[i], at, w), s1, w);
    EvaluateKept(args[i], s.mem, s1.mem, s.rbp, off, w);
    var v := Evaluate(args[i], s.mem, s.rbp, w);
    PushRight(kinds[i], at, s2, v, w);
    ExecAllAppend(Compile(args[i], at, w), PushCode(kinds[i], at), s1, w);
    var s' := ExecAll(PushOne(args, locs, byMem, i, off, w), s1, w);
    KeptTwice(s1.mem, s2.mem, s'.mem, s.rbp + at);
    KeptLater(s.mem, s1.mem, s'.mem, s.rbp + off, s.rbp + at);
    forall j | i + 1 <= j < |args|
      ensures Pushed(args, locs, byMem, j, off, s.mem, s'.mem, s.rbp, w)
    {
      StillPushed(args, locs, byMem, i + 1, j, off, s.mem, s1.mem, s'.mem, s.rbp, w);
    }
  }

  lemma StillPushed(args: seq<Arg>, locs: seq<Loc>, byMem: bool, i: nat, j: nat, off: int, m: Mem, m1: Mem, m2: Mem,
                    rbp: int, w: World)
    requires i <= j < |args| == |locs| && off % 8 == 0 && off <= 0
    requires Pushed(args, locs, byMem, j, off, m, m1, rbp, w)
    requires Kept(m1, m2, rbp + Down(Kinds(args, w), locs, byMem, i, off))
    ensures Pushed(args, locs, byMem, j, off, m, m2, rbp, w)
  {
    DownMono(Kinds(args, w), locs, byMem, i, j, off);
    if locs[j].ByMem? == byMem {
      HasKept(m1, m2, rbp + Down(Kinds(args, w), locs, byMem, i, off), rbp + Down(Kinds(args, w), locs, byMem, j, off),
              Evaluate(args[j], m, rbp, w));
    }
  }

  lemma PopParts(kinds: seq<Kind>, locs: seq<Loc>, i: nat, off: int)
    requires i <= |kinds| == |locs| && (i < |kinds| && !locs[i].ByMem? ==> !kinds[i].Struct?)
    ensures var at := Down(kinds, locs, false, i, off);
            if i == |kinds| then PopAll(locs, i, at) == []
            else if locs[i].ByMem? then
              Down(kinds, locs, false, i + 1, off) == at && PopAll(locs, i, at) == PopAll(locs, i + 1, at)
            else
              && Down(kinds, locs, false, i + 1, off) == at + 8
              && PopAll(locs, i, at) == [LoadReg(at, RegOf(locs[i]))] + PopAll(locs, i + 1, at + 8)
  {
  }

  /** Popping loads every argument register from its slot and touches nothing else. */
  lemma {:induction false} PopRight(kinds: seq<Kind>, i: nat, off: int, s: Cpu, w: World)
    requires i <= |kinds|
    ensures var locs := Locate(kinds, false).locs;
            var s' := ExecAll(PopAll(locs, i, Down(kinds, locs, false, i, off)), s, w);
            && s'.rbp == s.rbp && s'.mem == s.mem
            && (forall j :: i <= j < |kinds| && !locs[j].ByMem? ==>
                  Get(s', RegOf(locs[j])) == Load(s.mem, s.rbp + Down(kinds, locs, false, j, off), 8))
            && (forall j :: 0 <= j < i && !locs[j].ByMem? ==> Get(s', RegOf(locs[j])) == Get(s, RegOf(locs[j])))
    decreases |kinds| - i
  {
    hide ExecAll, Load, Locate, Down, PopAll;
    var locs := Locate(kinds, false).locs;
    var at := Down(kinds, locs, false, i, off);
    LocateDistinct(kinds, false);
    PopParts(kinds, locs, i, off);
    if i == |kinds| {
      ExecNone(s, w);
    } else if locs[i].ByMem? {
      PopRight(kinds, i + 1, off, s, w);
    } else {
      var pop := LoadReg(at, RegOf(locs[i]));
      ExecOne(pop, s, w);
      var s1 := Exec(pop, s, w);
      PopRight(kinds, i + 1, off, s1, w);
      ExecAllAppend([pop], PopAll(locs, i + 1, at + 8), s, w);
    }
  }

  lemma {:induction false} CompileRight(e: Arg, off: int, s: Cpu, w: World)
    requires WellFormed(e, off, w) && off <= 0
    ensures Ran(e, off, s, ExecAll(Compile(e, off, w), s, w), w)
    decreases e, 1
  {
    hide ExecAll, Load;
    match e
    case Int(v) => ExecOne(SetReg(RAX, v), s, w);
    case Flt(v) => ExecOne(SetReg(XMM(0), v), s, w);
    case Local(o, kind) => LocalRight(o, kind, s, w);
    case Object(o, _) => ExecOne(LeaRax(o), s, w);
    case Binary(_, _, _) => BinaryRight(e, off, s, w);
    case Call(fn, args) => CallRight(e, off, s, w);
  }

  lemma LocalRight(o: int, kind: Kind, s: Cpu, w: World)
    requires !kind.Struct?
    ensures var s' := ExecAll([LoadReg(o, ResultReg(kind))], s, w);
            s'.rbp == s.rbp && s'.mem == s.mem && Get(s', ResultReg(kind)) == Load(s.mem, s.rbp + o, 8) % P64
  {
    hide Load, ExecAll;
    ExecOne(LoadReg(o, ResultReg(kind)), s, w);
    LoadBelow64(s.mem, s.rbp + o);
    ModSmall(Load(s.mem, s.rbp + o, 8), P64);
  }

  /** The left operand is spilled while the code of the right one runs, whatever that calls. */
  lemma BinaryRight(e: Arg, off: int, s: Cpu, w: World)
    requires e.Binary? && WellFormed(e, off, w) && off <= 0
    ensures Ran(e, off, s, ExecAll(Compile(e, off, w), s, w), w)
    decreases e, 0
  {
    hide ExecAll, Exec, Kept, Evaluate, Compile, WellFormed, Has, Load, Store, OperateCode;
    BinaryParts(e, off, s.mem, s.rbp, w);
    var kind := KindOf(e.lhs, w);
    var c1, c2 := Compile(e.lhs, off, w), Compile(e.rhs, off - 8, w);
    var spill := StoreReg(ResultReg(kind), off - 8);
    CompileRight(e.lhs, off, s, w);
    var s1 := ExecAll(c1, s, w);
    var s2 := Exec(spill, s1, w);
    SpillRight(kind, off, s1, NumberOf(Evaluate(e.lhs, s.mem, s.rbp, w)), w);
    WellFormedLower(e.rhs, off, off - 8, w);
    CompileRight(e.rhs, off - 8, s2, w);
    var s3 := ExecAll(c2, s2, w);
    KeptTwice(s.mem, s1.mem, s2.mem, s.rbp + off);
    EvaluateKept(e.rhs, s.mem, s2.mem, s.rbp, off, w);
    KeptLater(s.mem, s2.mem, s3.mem, s.rbp + off, s.rbp + off - 8);
    HasKept(s2.mem, s3.mem, s.rbp + off - 8, s.rbp + off - 8, Num(NumberOf(Evaluate(e.lhs, s.mem, s.rbp, w))));
    OperateRight(e.op, kind, off - 8, s3, NumberOf(Evaluate(e.lhs, s.mem, s.rbp, w)),
        NumberOf(Evaluate(e.rhs, s.mem, s.rbp, w)), w);
    ExecAllAppend(c1 + [spill] + c2, OperateCode(e.op, kind, off - 8), s, w);
    ExecAllAppend(c1 + [spill], c2, s, w);
    ExecAllAppend(c1, [spill], s, w);
    ExecOne(spill, s1, w);
  }

  lemma BinaryParts(e: Arg, off: int, m: Mem, rbp: int, w: World)
    requires e.Binary? && WellFormed(e, off, w)
    ensures var kind := KindOf(e.lhs, w);
            && WellFormed(e.lhs, off, w) && WellFormed(e.rhs, off, w) && KindOf(e, w) == kind == KindOf(e.rhs, w)
               && !kind.Struct?
            && Evaluate(e, m, rbp, w)
               == Num(OpResult(e.op, kind, NumberOf(Evaluate(e.lhs, m, rbp, w)), NumberOf(Evaluate(e.rhs, m, rbp, w)),
                   w))
            && Compile(e, off, w)
               == Compile(e.lhs, off, w) + [StoreReg(ResultReg(kind), off - 8)] + Compile(e.rhs, off - 8, w)
                  + OperateCode(e.op, kind, off - 8)
  {
  }

  lemma SpillRight(kind: Kind, off: int, s: Cpu, v: Word, w: World)
    requires !kind.Struct? && Get(s, ResultReg(kind)) == v
    ensures var s' := Exec(StoreReg(ResultReg(kind), off - 8), s, w);
            s'.rbp == s.rbp && Kept(s.mem, s'.mem, s.rbp + off) && Has(s'.mem, s.rbp + off - 8, Num(v))
  {
    hide Load;
    StoredNum(s.mem, s.rbp + off - 8, v);
  }

  lemma OperateRight(op: Op, kind: Kind, at: int, s: Cpu, a: Word, b: Word, w: World)
    requires !kind.Struct? && Get(s, ResultReg(kind)) == b && Has(s.mem, s.rbp + at, Num(a))
    ensures var s' := ExecAll(OperateCode(op, kind, at), s, w);
            s'.rbp == s.rbp && s'.mem == s.mem && Get(s', ResultReg(kind)) == OpResult(op, kind, a, b, w)
  {
    hide Load, ExecAll, OpResult;
    assert OperateCode(op, kind, at) == [MoveAside(kind)] + ([LoadReg(at, ResultReg(kind))] + [Operate(op, kind)]);
    ExecTwo(MoveAside(kind), LoadReg(at, ResultReg(kind)), [Operate(op, kind)], s, w);
    ExecOne(Operate(op, kind), Exec(LoadReg(at, ResultReg(kind)), Exec(MoveAside(kind), s, w), w), w);
  }

  lemma LoadBelow64(m: Mem, a: int)
    ensures Load(m, a, 8) < P64
  {
    LoadBound(m, a, Long);
  }

  lemma EvaluateKind(e: Arg, m: Mem, rbp: int, off: int, w: World)
    requires WellFormed(e, off, w)
    ensures var v := Evaluate(e, m, rbp, w);
            if KindOf(e, w).Struct? then v.Obj? && |v.bytes| == KindOf(e, w).width else v.Num?
  {
  }

  /** The code that brings the arguments into place. */
  function ArgsCode(args: seq<Arg>, locs: seq<Loc>, off1: int, w: World): seq<Instr>
    requires |args| == |locs|
  {
    var kinds := Kinds(args, w);
    var off2 := Down(kinds, locs, true, 0, off1);
    PushAll(args, locs, true, 0, off1, w) + PushAll(args, locs, false, 0, off2, w)
    + PopAll(locs, 0, Down(kinds, locs, false, 0, off2))
  }

  lemma ArgsArrive(args: seq<Arg>, off1: int, s: Cpu, w: World)
    requires off1 % 8 == 0 && off1 <= 0 && AllFormed(args, off1, w)
    ensures var kinds := Kinds(args, w);
            var locs := Locate(kinds, false).locs;
            var s' := ExecAll(ArgsCode(args, locs, off1, w), s, w);
            && s'.rbp == s.rbp && Kept(s.mem, s'.mem, s.rbp + off1)
            && forall i :: 0 <= i < |args| ==>
                 Arrived(kinds, locs, i, s', s.rbp + Down(kinds, locs, true, 0, off1),
                     Evaluate(args[i], s.mem, s.rbp, w))
    decreases args, |args| + 1
  {
    hide ExecAll, Kept, Pushed, PushAll, PopAll, Evaluate, Locate, Arrived, AllFormed;
    var kinds := Kinds(args, w);
    var locs := Locate(kinds, false).locs;
    var off2 := Down(kinds, locs, true, 0, off1);
    var off3 := Down(kinds, locs, false, 0, off2);
    DownBounds(kinds, locs, true, 0, off1);
    var c1, c2, c3 := PushAll(args, locs, true, 0, off1, w), PushAll(args, locs, false, 0, off2, w),
        PopAll(locs, 0, off3);
    var s1 := ExecAll(c1, s, w);
    var s2 := ExecAll(c2, s1, w);
    var s3 := ExecAll(c3, s2, w);
    ExecAllAppend(c1 + c2, c3, s, w);
    ExecAllAppend(c1, c2, s, w);
    AllFormedLower(args, off1, off2, w);
    PushAllRight(args, locs, true, 0, off1, s, w);
    PushAllRight(args, locs, false, 0, off2, s1, w);
    PopRight(kinds, 0, off2, s2, w);
    KeptLater(s.mem, s1.mem, s2.mem, s.rbp + off1, s.rbp + off2);
    forall i | 0 <= i < |args|
      ensures Arrived(kinds, locs, i, s3, s.rbp + off2, Evaluate(args[i], s.mem, s.rbp, w))
    {
      FormedAt(args, off1, i, w);
      if locs[i].ByMem? {
        StillPushed(args, locs, true, 0, i, off1, s.mem, s1.mem, s2.mem, s.rbp, w);
        MemArrived(args, i, off1, s.mem, s3, w);
      } else {
        RegArrived(args, i, off1, off2, s.mem, s1, s2.mem, s3, w);
      }
    }
  }

  lemma AllFormedLower(args: seq<Arg>, off: int, off': int, w: World)
    requires AllFormed(args, off, w) && off' <= off
    ensures AllFormed(args, off', w)
  {
    forall i | 0 <= i < |args|
      ensures WellFormed(args[i], off', w)
    {
      WellFormedLower(args[i], off, off', w);
    }
  }

  lemma FormedAt(args: seq<Arg>, off: int, i: nat, w: World)
    requires AllFormed(args, off, w) && i < |args|
    ensures WellFormed(args[i], off, w)
  {
  }

  lemma MemArrived(args: seq<Arg>, i: nat, off1: int, m: Mem, s: Cpu, w: World)
    requires i < |args| && off1 % 8 == 0 && off1 <= 0 && WellFormed(args[i], off1, w)
    requires Locate(Kinds(args, w), false).locs[i].ByMem?
    requires Pushed(args, Locate(Kinds(args, w), false).locs, true, i, off1, m, s.mem, s.rbp, w)
    ensures var kinds := Kinds(args, w);
            var locs := Locate(kinds, false).locs;
            Arrived(kinds, locs, i, s, s.rbp + Down(kinds, locs, true, 0, off1), Evaluate(args[i], m, s.rbp, w))
  {
    var kinds := Kinds(args, w);
    var locs := Locate(kinds, false).locs;
    EvaluateKind(args[i], m, s.rbp, off1, w);
    DownIsMemBefore(kinds, locs, i, off1);
  }

  lemma RegArrived(args: seq<Arg>, i: nat, off1: int, off2: int, m: Mem, s1: Cpu, m2: Mem, s: Cpu, w: World)
    requires i < |args| && WellFormed(args[i], off1, w) && Kept(m, s1.mem, s.rbp + off1) && s1.rbp == s.rbp
    requires !Locate(Kinds(args, w), false).locs[i].ByMem?
    requires Pushed(args, Locate(Kinds(args, w), false).locs, false, i, off2, s1.mem, m2, s.rbp, w)
    requires Get(s, RegOf(Locate(Kinds(args, w), false).locs[i]))
          == Load(m2, s.rbp + Down(Kinds(args, w), Locate(Kinds(args, w), false).locs, false, i, off2), 8)
    ensures forall at ::
            Arrived(Kinds(args, w), Locate(Kinds(args, w), false).locs, i, s, at, Evaluate(args[i], m, s.rbp, w))
  {
    hide Load, Locate, Evaluate, WellFormed, Kept, Down;
    EvaluateKind(args[i], m, s.rbp, off1, w);
    EvaluateKept(args[i], m, s1.mem, s.rbp, off1, w);
    LocateDistinct(Kinds(args, w), false);
  }

  lemma {:induction false} MemBeforePrefix(kinds: seq<Kind>, locs: seq<Loc>, n: nat, i: nat)
    requires i <= n <= |kinds| == |locs|
    ensures MemBefore(kinds[..n], locs[..n], i) == MemBefore(kinds, locs, i)
    decreases i
  {
    if i > 0 { MemBeforePrefix(kinds, locs, n, i - 1); }
  }

  /** What arrives for all arguments arrives for the named parameters. */
  lemma ArrivedPrefix(kinds: seq<Kind>, n: nat, i: nat, s: Cpu, at: int, v: Val)
    requires i < n <= |kinds| && Arrived(kinds, Locate(kinds, false).locs, i, s, at, v)
    ensures Arrived(kinds[..n], Locate(kinds[..n], false).locs, i, s, at, v)
  {
    hide Locate; hide Has;
    LocatePrefix(kinds, false, n);
    MemBeforePrefix(kinds, Locate(kinds, false).locs, n, i);
  }

  /** The arguments do not use `%rax`, `%rsp` or the frame pointer. */
  lemma ArrivedSame(kinds: seq<Kind>, locs: seq<Loc>, i: nat, s: Cpu, s': Cpu, at: int, v: Val)
    requires i < |kinds| == |locs| && Arrived(kinds, locs, i, s, at, v)
    requires s'.gp == s.gp && s'.xmm == s.xmm && s'.mem == s.mem
    ensures Arrived(kinds, locs, i, s', at, v)
  {
  }

  /** The state in which `call` is executed. */
  function AtCall(s3: Cpu, l: Locations, off2: int, variadic: bool): Cpu {
    s3.(rsp := s3.rbp + off2, rax := if variadic then l.xregCnt else s3.rax)
  }

  lemma CallTail(l: Locations, off2: int, variadic: bool, fn: string, area: nat, s3: Cpu, w: World)
    ensures ExecAll((if variadic then [SetReg(RAX, l.xregCnt)] else []) + [LeaRsp(off2), CallFunc(fn, area)], s3, w)
         == Exec(CallFunc(fn, area), AtCall(s3, l, off2, variadic), w)
  {
    hide Exec;
    assert [LeaRsp(off2), CallFunc(fn, area)] == [LeaRsp(off2)] + [CallFunc(fn, area)];
    var s4 := if variadic then s3.(rax := l.xregCnt) else s3;
    ExecAllAppend(if variadic then [SetReg(RAX, l.xregCnt)] else [], [LeaRsp(off2), CallFunc(fn, area)], s3, w);
    SetRax(l.xregCnt, s3, w);
    ExecNone(s3, w);
    ExecAllAppend([LeaRsp(off2)], [CallFunc(fn, area)], s4, w);
    SetRsp(off2, s4, w);
    ExecOne(CallFunc(fn, area), s4.(rsp := s4.rbp + off2), w);
  }

  lemma SetRax(v: int, s: Cpu, w: World)
    ensures ExecAll([SetReg(RAX, v)], s, w) == s.(rax := v)
  {
    ExecOne(SetReg(RAX, v), s, w);
  }

  lemma SetRsp(off: int, s: Cpu, w: World)
    ensures ExecAll([LeaRsp(off)], s, w) == s.(rsp := s.rbp + off)
  {
    ExecOne(LeaRsp(off), s, w);
  }

  /** A call computes what its function computes from the values of the arguments. */
  lemma CallRight(e: Arg, off: int, s: Cpu, w: World)
    requires e.Call? && WellFormed(e, off, w) && off <= 0
    ensures Ran(e, off, s, ExecAll(Compile(e, off, w), s, w), w)
    decreases e, 0
  {
    hide Exec, Get, Load, Returned;
    var kinds := Kinds(e.args, w);
    var l := Locate(kinds, false);
    var sig := w.funcs[e.fn];
    var off1 := CallBase(l, off);
    LocateCount(kinds);
    CallBaseBounds(l, off);
    AllFormedLower(e.args, off, off1, w);
    ArgsArrive(e.args, off1, s, w);
    var s3 := ExecAll(ArgsCode(e.args, l.locs, off1, w), s, w);
    var off2 := Down(kinds, l.locs, true, 0, off1);
    DownBounds(kinds, l.locs, true, 0, off1);
    var tail := (if sig.variadic then [SetReg(RAX, l.xregCnt)] else []) + [LeaRsp(off2), CallFunc(e.fn, off1 - off2)];
    CompileIs(e, off, w);
    ExecAllAppend(ArgsCode(e.args, l.locs, off1, w), tail, s, w);
    CallTail(l, off2, sig.variadic, e.fn, off1 - off2, s3, w);
    CallReturns(e, off, off1, off2, s, s3, w);
  }

  lemma CompileIs(e: Arg, off: int, w: World)
    requires e.Call? && WellFormed(e, off, w)
    ensures var kinds := Kinds(e.args, w);
            var l := Locate(kinds, false);
            var off1 := CallBase(l, off);
            var off2 := Down(kinds, l.locs, true, 0, off1);
            off1 >= off2 ==>
            Compile(e, off, w) == ArgsCode(e.args, l.locs, off1, w)
              + ((if w.funcs[e.fn].variadic then [SetReg(RAX, l.xregCnt)] else [])
                  + [LeaRsp(off2), CallFunc(e.fn, off1 - off2)])
  {
    hide PushAll, PopAll, Locate, Down, CallBase;
  }

  function ArgVals(e: Arg, n: nat, s: Cpu, w: World): seq<Val>
    requires e.Call? && n <= |e.args|
  {
    seq(n, i requires 0 <= i < |e.args| => Evaluate(e.args[i], s.mem, s.rbp, w))
  }

  lemma CallReads(e: Arg, off: int, off2: int, s: Cpu, s3: Cpu, w: World)
    requires e.Call? && WellFormed(e, off, w) && s3.rbp == s.rbp
    requires forall i :: 0 <= i < |e.args| ==>
      Arrived(Kinds(e.args, w), Locate(Kinds(e.args, w), false).locs, i, s3, s.rbp + off2,
          Evaluate(e.args[i], s.mem, s.rbp, w))
    ensures var sig := w.funcs[e.fn];
            ReadParams(sig, ExecPrologue(sig, Entered(AtCall(s3, Locate(Kinds(e.args, w), false), off2, sig.variadic))))
            == ArgVals(e, |sig.params|, s, w)
  {
    hide Arrived, Locate, Evaluate, ReadParams, ExecPrologue, Entered;
    var kinds := Kinds(e.args, w);
    var l := Locate(kinds, false);
    var sig := w.funcs[e.fn];
    var n := |sig.params|;
    var vals := ArgVals(e, n, s, w);
    var s4 := AtCall(s3, l, off2, sig.variadic);
    assert kinds[..n] == sig.params;
    forall i | 0 <= i < n
      ensures Arrived(sig.params, Locate(sig.params, false).locs, i, s4, s4.rsp, vals[i])
    {
      ArrivedPrefix(kinds, n, i, s3, s.rbp + off2, vals[i]);
      ArrivedSame(sig.params, Locate(sig.params, false).locs, i, s3, s4, s.rbp + off2, vals[i]);
    }
    LocatePrefix(kinds, false, n);
    LocateDistinct(kinds, false);
    CalleeReads(sig, s4, vals);
  }

  lemma CallReturns(e: Arg, off: int, off1: int, off2: int, s: Cpu, s3: Cpu, w: World)
    requires e.Call? && WellFormed(e, off, w) && off2 <= off1 <= off && s3.rbp == s.rbp
             && Kept(s.mem, s3.mem, s.rbp + off1)
    requires forall i :: 0 <= i < |e.args| ==>
      Arrived(Kinds(e.args, w), Locate(Kinds(e.args, w), false).locs, i, s3, s.rbp + off2,
          Evaluate(e.args[i], s.mem, s.rbp, w))
    ensures var l := Locate(Kinds(e.args, w), false);
            Ran(e, off, s, Exec(CallFunc(e.fn, off1 - off2), AtCall(s3, l, off2, w.funcs[e.fn].variadic), w), w)
  {
    hide Arrived, Locate, Kept, ReadParams, ExecPrologue, Entered, Evaluate, Load, Store, ArgVals;
    CallReads(e, off, off2, s, s3, w);
    var sig := w.funcs[e.fn];
    var s4 := AtCall(s3, Locate(Kinds(e.args, w), false), off2, sig.variadic);
    ReturnedKeeps(s.mem, s4, e.fn, off1 - off2, off, w);
    CallValue(e, s, w);
  }

  lemma CallValue(e: Arg, s: Cpu, w: World)
    requires e.Call? && e.fn in w.funcs && |w.funcs[e.fn].params| <= |e.args|
    ensures Evaluate(e, s.mem, s.rbp, w) == Num(w.result(e.fn, ArgVals(e, |w.funcs[e.fn].params|, s, w)))
  {
    var n := |w.funcs[e.fn].params|;
    assert ArgVals(e, n, s, w) == seq(n, i requires 0 <= i < |e.args| => Evaluate(e.args[i], s.mem, s.rbp, w));
  }

  lemma ReturnedKeeps(m: Mem, s: Cpu, fn: string, area: nat, off: int, w: World)
    requires fn in w.funcs && Kept(m, s.mem, s.rsp + area) && s.rsp + area <= s.rbp + off
    ensures Kept(m, Returned(s, fn, area, w).mem, s.rbp + off)
  {
  }
}
