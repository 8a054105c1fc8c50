/** `va_start` and `va_arg`: walking through the unnamed arguments, first in the save area of the registers,
    then behind the named arguments in memory. */
module Varargs {
  import opened Words
  import opened Memory
  import opened Align
  import opened Calls
  import opened CallsCorrect
  import opened CallsGenerator

  const GP_LIMIT := 48
  const FP_LIMIT := 176

  /** `va_list`; addresses are relative to the frame pointer of the callee. */
  datatype VaList = VaList(gpOffset: int, fpOffset: int, overflow: int, saveArea: int)

  /** The source hands the declared result type on as the flag for a structure result; as a type that exists
      converts to true, the first register always counts as used. */
  method GetParamRegOffsets(kinds: seq<Kind>) returns (gpOffset: int, fpOffset: int, overflow: int)
    ensures VaList(gpOffset, fpOffset, overflow, SAVE_AREA) == VaStart(kinds)
  {
    var locations := GetParamLocations(kinds, true);
    gpOffset, fpOffset, overflow := 0, 48, 16;
    for i := 0 to |kinds|
      invariant VaList(gpOffset, fpOffset, overflow, SAVE_AREA) == Started(locations.locs, i)
    {
      match locations.locs[i] {
        case Xmm(_) => fpOffset := fpOffset + 16;
        case ByMem => overflow := overflow + 8;
        case Gp(_) => gpOffset := gpOffset + 8;
      }
    }
  }

  function Started(locs: seq<Loc>, n: nat): VaList
    requires n <= |locs|
  {
    if n == 0 then VaList(0, 48, 16, SAVE_AREA)
    else
      var v := Started(locs, n - 1);
      match locs[n - 1]
      case Xmm(_) => v.(fpOffset := v.fpOffset + 16)
      case ByMem => v.(overflow := v.overflow + 8)
      case Gp(_) => v.(gpOffset := v.gpOffset + 8)
  }

  function VaStart(kinds: seq<Kind>): VaList {
    Started(Locate(kinds, true).locs, |kinds|)
  }

  /** `va_arg`: the address of the next argument of a type, and the list behind it. */
  class Walker {
    var ap: VaList

    constructor (ap: VaList)
      ensures this.ap == ap
    {
      this.ap := ap;
    }

    method VaArg(kind: Kind) returns (address: int)
      modifies this
      ensures (address, ap) == Next(old(ap), kind)
    {
      if kind.Integer? && ap.gpOffset < GP_LIMIT {
        address := ap.saveArea + ap.gpOffset;
        ap := ap.(gpOffset := ap.gpOffset + 8);
        return;
      }
      if kind.Sse? && ap.fpOffset < FP_LIMIT {
        address := ap.saveArea + ap.fpOffset;
        ap := ap.(fpOffset := ap.fpOffset + 16);
        return;
      }
      address := ap.overflow;
      ap := ap.(overflow := ap.overflow + MakeAlign(WidthOf(kind), 8));
    }

    /** Any number of uses. */
    method Walk(kinds: seq<Kind>) returns (addresses: seq<int>)
      modifies this
      ensures addresses == Walked(old(ap), kinds)
    {
      addresses := [];
      for i := 0 to |kinds|
        invariant addresses == Walked(old(ap), kinds[..i]) && ap == After(old(ap), kinds[..i])
      {
        assert kinds[..i + 1][..i] == kinds[..i];
        var a := VaArg(kinds[i]);
        addresses := addresses + [a];
      }
      assert kinds[..|kinds|] == kinds;
    }
  }

  function Next(ap: VaList, kind: Kind): (int, VaList) {
    if kind.Integer? && ap.gpOffset < GP_LIMIT then
      (ap.saveArea + ap.gpOffset, ap.(gpOffset := ap.gpOffset + 8))
    else if kind.Sse? && ap.fpOffset < FP_LIMIT then
      (ap.saveArea + ap.fpOffset, ap.(fpOffset := ap.fpOffset + 16))
    else
      (ap.overflow, ap.(overflow := ap.overflow + MakeAlign(WidthOf(kind), 8)))
  }

  function After(ap: VaList, kinds: seq<Kind>): VaList
    decreases |kinds|
  {
    if kinds == [] then ap else Next(After(ap, kinds[..|kinds| - 1]), kinds[|kinds| - 1]).1
  }

  function Walked(ap: VaList, kinds: seq<Kind>): (s: seq<int>)
    ensures |s| == |kinds|
    decreases |kinds|
  {
    if kinds == [] then []
    else
      var n := |kinds| - 1;
      Walked(ap, kinds[..n]) + [Next(After(ap, kinds[..n]), kinds[n]).0]
  }

  // ---------- where the arguments are ----------

  /** Where argument `i` of a call is, relative to the frame pointer of the callee: its register in the save
      area, or its place behind the return address. */
  function Place(kinds: seq<Kind>, i: nat): int
    requires i < |kinds|
  {
    var locs := Locate(kinds, false).locs;
    match locs[i]
    case Gp(r) => SAVE_AREA + 8 * r
    case Xmm(r) => SAVE_AREA + 48 + 16 * r
    case ByMem => 16 + MemBefore(kinds, locs, i)
  }

  function IntegerCount(kinds: seq<Kind>): nat {
    if kinds == [] then 0 else IntegerCount(kinds[..|kinds| - 1]) + if kinds[|kinds| - 1].Integer? then 1 else 0
  }

  /** The list that would stand right before argument `n`. */
  function Right(kinds: seq<Kind>, n: nat): VaList
    requires n <= |kinds|
  {
    var l := Locate(kinds[..n], false);
    VaList(8 * l.regCnt, 48 + 16 * l.xregCnt, 16 + MemBefore(kinds, Locate(kinds, false).locs, n), SAVE_AREA)
  }

  /** From the right start every use finds the right argument. */
  lemma NextIsRight(kinds: seq<Kind>, n: nat)
    requires n < |kinds|
    ensures Next(Right(kinds, n), kinds[n]) == (Place(kinds, n), Right(kinds, n + 1))
  {
    LocateAt(kinds, false, n);
  }

  lemma {:induction false} WalkIsRight(kinds: seq<Kind>, n: nat, m: nat)
    requires n <= m <= |kinds|
    ensures After(Right(kinds, n), kinds[n..m]) == Right(kinds, m)
    ensures forall i :: n <= i < m ==> Walked(Right(kinds, n), kinds[n..m])[i - n] == Place(kinds, i)
    decreases m - n
  {
    if n < m {
      WalkIsRight(kinds, n, m - 1);
      assert kinds[n..m][..m - 1 - n] == kinds[n..m - 1];
      NextIsRight(kinds, m - 1);
    } else {
      assert kinds[n..m] == [];
    }
  }

  /** While the named arguments do not fill the registers, counting one register too many changes nothing but
      the numbers of the registers. */
  lemma {:induction false} ShiftedLocate(kinds: seq<Kind>)
    ensures var l, l' := Locate(kinds, false), Locate(kinds, true);
            && l'.xregCnt == l.xregCnt
            && l.regCnt == (if IntegerCount(kinds) <= 6 then IntegerCount(kinds) else 6)
            && l'.regCnt == (if IntegerCount(kinds) <= 5 then IntegerCount(kinds) + 1 else 6)
            && (IntegerCount(kinds) <= 5 ==> Shifted(l.locs, l'.locs))
    decreases |kinds|
  {
    if kinds != [] { ShiftedLocate(kinds[..|kinds| - 1]); }
  }

  ghost predicate Shifted(a: seq<Loc>, b: seq<Loc>) {
    |a| == |b| && forall i :: 0 <= i < |a| ==> if a[i].Gp? then b[i] == Gp(a[i].i + 1) else b[i] == a[i]
  }

  lemma {:induction false} StartedShifted(a: seq<Loc>, b: seq<Loc>, n: nat)
    requires Shifted(a, b) && n <= |a|
    ensures Started(b, n) == Started(a, n)
    decreases n
  {
    if n > 0 { StartedShifted(a, b, n - 1); }
  }

  /** The counts of `va_start` are those of the registers and of the arguments in memory. */
  lemma {:induction false} StartedIs(kinds: seq<Kind>, retStruct: bool, n: nat)
    requires n <= |kinds|
    ensures var l := Locate(kinds[..n], retStruct);
            Started(Locate(kinds, retStruct).locs, n)
            == VaList(8 * (l.regCnt - if retStruct then 1 else 0), 48 + 16 * l.xregCnt,
                      16 + 8 * MemCount(Locate(kinds, retStruct).locs, n), SAVE_AREA)
    decreases n
  {
    if n > 0 {
      StartedIs(kinds, retStruct, n - 1);
      LocateAt(kinds, retStruct, n - 1);
    } else {
      assert kinds[..0] == [];
    }
  }

  // ---------- the main results ----------

  /** Named arguments that `va_start` counts right: at most five in integer registers, and in memory 8 bytes each. */
  ghost predicate Countable(named: seq<Kind>) {
    var locs := Locate(named, false).locs;
    IntegerCount(named) <= 5 && MemBefore(named, locs, |named|) == 8 * MemCount(locs, |named|)
  }

  /** Uses of `va_arg` with the types of the unnamed arguments give the places of these arguments, in order. */
  ghost predicate FindsAll(named: seq<Kind>, rest: seq<Kind>) {
    forall i :: 0 <= i < |rest| ==> Walked(VaStart(named), rest)[i] == Place(named + rest, |named| + i)
  }

  lemma StartIsRight(named: seq<Kind>, rest: seq<Kind>)
    requires Countable(named)
    ensures VaStart(named) == Right(named + rest, |named|)
  {
    var n, all := |named|, named + rest;
    assert all[..n] == named && named[..n] == named;
    ShiftedLocate(named);
    StartedShifted(Locate(named, false).locs, Locate(named, true).locs, n);
    StartedIs(named, false, n);
    LocatePrefix(all, false, n);
    MemBeforePrefix(all, Locate(all, false).locs, n, n);
  }

  lemma FindsRest(named: seq<Kind>, rest: seq<Kind>)
    requires Countable(named)
    ensures FindsAll(named, rest)
  {
    var n, all := |named|, named + rest;
    StartIsRight(named, rest);
    assert all[n..|all|] == rest;
    WalkIsRight(all, n, |all|);
    forall i | 0 <= i < |rest|
      ensures Walked(VaStart(named), rest)[i] == Place(all, n + i)
    {
      assert Walked(Right(all, n), all[n..|all|])[n + i - n] == Place(all, n + i);
    }
  }

  /** Exactly for countable named arguments every list of unnamed arguments is found. */
  lemma FindsAllIff(named: seq<Kind>)
    ensures (forall rest :: FindsAll(named, rest)) <==> Countable(named)
  {
    if Countable(named) {
      forall rest
        ensures FindsAll(named, rest)
      {
        FindsRest(named, rest);
      }
    } else if IntegerCount(named) > 5 {
      SixthLost(named);
    } else {
      BytesMiscounted(named);
    }
  }

  /** With six integer arguments the first unnamed integer is looked for in the last register. */
  lemma SixthLost(named: seq<Kind>)
    requires IntegerCount(named) > 5
    ensures !FindsAll(named, [Integer])
  {
    var n, all := |named|, named + [Integer];
    assert all[..n] == named && named[..n] == named;
    ShiftedLocate(named);
    StartedIs(named, true, n);
    LocateAt(all, false, n);
    WalkedOne(VaStart(named), Integer);
    assert Place(all, n) >= 16;
    assert Walked(VaStart(named), [Integer])[0] != Place(named + [Integer], n + 0);
  }

  lemma WalkedOne(ap: VaList, kind: Kind)
    ensures Walked(ap, [kind]) == [Next(ap, kind).0]
  {
    assert [kind][..0] == [];
  }

  /** A named structure counts as 8 bytes whatever its size. */
  lemma BytesMiscounted(named: seq<Kind>)
    requires IntegerCount(named) <= 5 && !Countable(named)
    ensures !FindsAll(named, [Struct(8)])
  {
    var n, all := |named|, named + [Struct(8)];
    assert all[..n] == named && named[..n] == named;
    ShiftedLocate(named);
    StartedShifted(Locate(named, false).locs, Locate(named, true).locs, n);
    StartedIs(named, false, n);
    LocateAt(all, false, n);
    LocatePrefix(all, false, n);
    MemBeforePrefix(all, Locate(all, false).locs, n, n);
    WalkedOne(VaStart(named), Struct(8));
    assert Place(all, n) == 16 + MemBefore(named, Locate(named, false).locs, n);
    assert Walked(VaStart(named), [Struct(8)])[0] != Place(named + [Struct(8)], n + 0);
  }

  /** In the callee every argument of the call, named or not, is at its place. */
  lemma AtPlace(sig: Sig, kinds: seq<Kind>, s: Cpu, i: nat, v: Val)
    requires sig.variadic && i < |kinds|
    requires Arrived(kinds, Locate(kinds, false).locs, i, s, s.rsp, v)
    requires s.rax % 256 == 0 ==> !Locate(kinds, false).locs[i].Xmm?
    ensures var s' := ExecPrologue(sig, Entered(s));
            ReadParam(kinds[i], s'.mem, s'.rbp + Place(kinds, i)) == v
  {
    hide ExecPrologue, Locate, AreaHas, Entered, Arrived, ReadParam, Place, Kept;
    var s' := ExecPrologue(sig, Entered(s));
    AreaAfter(sig, Entered(s));
    EnteredKeeps(s);
    if Locate(kinds, false).locs[i].ByMem? {
      MemAtPlace(kinds, s, s'.mem, i, v);
    } else {
      RegAtPlace(kinds, s, s'.mem, i, v);
    }
  }

  lemma AreaAfter(sig: Sig, e: Cpu)
    requires sig.variadic
    ensures var s' := ExecPrologue(sig, e);
            s'.rbp == e.rbp && Kept(e.mem, s'.mem, e.rbp) && forall k :: 0 <= k < 14 ==> AreaHas(e, s'.mem, k)
  {
    hide ExecPlain, Kept, AreaHas;
    SaveAreaHas(14, e);
    PlaceSaved(sig.params, |sig.params|);
    assert SaveCode()[..14] == SaveCode();
  }

  lemma MemAtPlace(kinds: seq<Kind>, s: Cpu, m: Mem, i: nat, v: Val)
    requires i < |kinds| && Locate(kinds, false).locs[i].ByMem?
    requires Arrived(kinds, Locate(kinds, false).locs, i, s, s.rsp, v) && Kept(Entered(s).mem, m, s.rsp - 16)
    ensures ReadParam(kinds[i], m, s.rsp - 16 + Place(kinds, i)) == v
  {
    hide Entered, Locate, Load, ReadBytes, MemBefore, Store;
    EnteredKeeps(s);
    KeptLater(s.mem, Entered(s).mem, m, s.rsp, s.rsp - 16);
    HasKept(s.mem, m, s.rsp, s.rsp + MemBefore(kinds, Locate(kinds, false).locs, i), v);
    if v.Num? { ModSmall(v.w, P64); }
  }

  lemma RegAtPlace(kinds: seq<Kind>, s: Cpu, m: Mem, i: nat, v: Val)
    requires i < |kinds| && !Locate(kinds, false).locs[i].ByMem?
    requires Arrived(kinds, Locate(kinds, false).locs, i, s, s.rsp, v)
    requires s.rax % 256 == 0 ==> !Locate(kinds, false).locs[i].Xmm?
    requires forall k :: 0 <= k < 14 ==> AreaHas(Entered(s), m, k)
    ensures ReadParam(kinds[i], m, s.rsp - 16 + Place(kinds, i)) == v
  {
    LocateDistinct(kinds, false);
    hide Locate, Load, Store;
    var loc := Locate(kinds, false).locs[i];
    assert AreaHas(Entered(s), m, if loc.Gp? then loc.i else loc.i + 6);
    ModSmall(v.w, P64);
  }

  /** Reading what `va_arg` gives yields the unnamed arguments of the call, in order and however many. */
  lemma VarargsArrive(sig: Sig, kinds: seq<Kind>, s: Cpu, i: nat, v: Val)
    requires sig.variadic && sig.params <= kinds && Countable(sig.params)
    requires |sig.params| <= i < |kinds| && Arrived(kinds, Locate(kinds, false).locs, i, s, s.rsp, v)
    requires s.rax % 256 == 0 ==> !Locate(kinds, false).locs[i].Xmm?
    ensures var n := |sig.params|;
            var s' := ExecPrologue(sig, Entered(s));
            var address := Walked(VaStart(sig.params), kinds[n..])[i - n];
            ReadParam(kinds[i], s'.mem, s'.rbp + address) == v
  {
    hide Walked, Locate, ExecPrologue, Arrived, Place, Countable, ReadParam, Entered;
    var n := |sig.params|;
    FindsRest(sig.params, kinds[n..]);
    assert sig.params + kinds[n..] == kinds;
    assert n + (i - n) == i;
    assert Walked(VaStart(sig.params), kinds[n..])[i - n] == Place(sig.params + kinds[n..], n + (i - n));
    AtPlace(sig, kinds, s, i, v);
  }

  /** The state in which a compiled call of a variadic function enters the callee. */
  function VariadicCall(e: Arg, off: int, s: Cpu, w: World): Cpu
    requires e.Call?
  {
    var kinds := Kinds(e.args, w);
    var l := Locate(kinds, false);
    var off1 := CallBase(l, off);
    AtCall(ExecAll(ArgsCode(e.args, l.locs, off1, w), s, w), l, Down(kinds, l.locs, true, 0, off1), true)
  }

  lemma ArrivedAtCall(e: Arg, off: int, s: Cpu, w: World, i: nat)
    requires e.Call? && WellFormed(e, off, w) && off <= 0 && i < |e.args|
    ensures var kinds := Kinds(e.args, w);
            var s4 := VariadicCall(e, off, s, w);
            && Arrived(kinds, Locate(kinds, false).locs, i, s4, s4.rsp, Evaluate(e.args[i], s.mem, s.rbp, w))
            && (s4.rax % 256 == 0 ==> !Locate(kinds, false).locs[i].Xmm?)
  {
    hide Locate, Evaluate;
    var kinds := Kinds(e.args, w);
    var l := Locate(kinds, false);
    var off1 := CallBase(l, off);
    CallStart(e, off, w);
    XmmCounted(kinds, i);
    hide Locate, ExecAll, Arrived, Evaluate, ArgsCode, Down, CallBase, AllFormed, Kept;
    ArgsArrive(e.args, off1, s, w);
    var s3 := ExecAll(ArgsCode(e.args, l.locs, off1, w), s, w);
    var off2 := Down(kinds, l.locs, true, 0, off1);
    ArrivedSame(kinds, l.locs, i, s3, AtCall(s3, l, off2, true), s.rbp + off2, Evaluate(e.args[i], s.mem, s.rbp, w));
  }

  lemma CallStart(e: Arg, off: int, w: World)
    requires e.Call? && WellFormed(e, off, w) && off <= 0
    ensures var off1 := CallBase(Locate(Kinds(e.args, w), false), off);
            off1 <= 0 && off1 % 8 == 0 && AllFormed(e.args, off1, w)
  {
    var l := Locate(Kinds(e.args, w), false);
    LocateCount(Kinds(e.args, w));
    CallBaseBounds(l, off);
    AllFormedLower(e.args, off, CallBase(l, off), w);
  }

  lemma XmmCounted(kinds: seq<Kind>, i: nat)
    requires i < |kinds|
    ensures var l := Locate(kinds, false);
            l.xregCnt % 256 == 0 ==> !l.locs[i].Xmm?
  {
    LocateDistinct(kinds, false);
  }

  /** The same from the caller's code on: in a compiled call of a variadic function the callee's `va_arg` finds
      the value of every unnamed argument expression. */
  lemma UnnamedArrive(e: Arg, off: int, s: Cpu, w: World, i: nat)
    requires e.Call? && WellFormed(e, off, w) && off <= 0
    requires w.funcs[e.fn].variadic && Countable(w.funcs[e.fn].params) && |w.funcs[e.fn].params| <= i < |e.args|
    ensures var sig, kinds := w.funcs[e.fn], Kinds(e.args, w);
            var callee := ExecPrologue(sig, Entered(VariadicCall(e, off, s, w)));
            var address := Walked(VaStart(sig.params), kinds[|sig.params|..])[i - |sig.params|];
            ReadParam(kinds[i], callee.mem, callee.rbp + address) == Evaluate(e.args[i], s.mem, s.rbp, w)
  {
    hide Locate, Arrived, Walked, ExecPrologue, ReadParam, Evaluate, Entered, Countable, VaStart, VariadicCall;
    ArrivedAtCall(e, off, s, w, i);
    VarargsArrive(w.funcs[e.fn], Kinds(e.args, w), VariadicCall(e, off, s, w), i, Evaluate(e.args[i], s.mem, s.rbp, w));
  }
}
