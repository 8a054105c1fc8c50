/** Places for local objects: each block of a function goes on downwards from where the frame ends, largest
    alignments first; temporaries of expressions come below. */
module FrameAllocation {
  import opened Words
  import opened Align
  import opened Expressions
  import EC = ExprCode
  import ECC = ExprCorrect

  datatype Object = Object(id: nat, width: nat, align: nat, isArray: bool, isStatic: bool, isParam: bool)

  datatype Slot = Slot(obj: Object, off: int)

  /** Arrays count as pointers: they are not aligned more than 8 bytes. */
  function AlignOf(o: Object): nat {
    if o.isArray && o.align > 8 then 8 else o.align
  }

  predicate Apart(a: Slot, b: Slot) {
    a.off + a.obj.width <= b.off || b.off + b.obj.width <= a.off
  }

  /** Slots between two offsets, without overlap, each at a multiple of its alignment. */
  ghost predicate Laid(slots: seq<Slot>, top: int, bottom: int) {
    && (forall i :: 0 <= i < |slots| ==> bottom <= slots[i].off && slots[i].off + slots[i].obj.width <= top)
    && (forall i :: 0 <= i < |slots| ==> AlignOf(slots[i].obj) > 0 && slots[i].off % AlignOf(slots[i].obj) == 0)
    && (forall i, j :: 0 <= i < j < |slots| ==> Apart(slots[i], slots[j]))
  }

  lemma LaidTwice(a: seq<Slot>, b: seq<Slot>, top: int, middle: int, bottom: int)
    requires Laid(a, top, middle) && Laid(b, middle, bottom) && bottom <= middle <= top
    ensures Laid(a + b, top, bottom)
  {
  }

  /** A slot as high below `top` as its alignment allows: the next multiple would not leave room. */
  predicate Highest(slot: Slot, top: int) {
    var align := AlignOf(slot.obj);
    align > 0 && slot.off % align == 0 && slot.off + slot.obj.width <= top < slot.off + slot.obj.width + align
  }

  /** Slots one below the other without wasted room. */
  ghost predicate Packed(slots: seq<Slot>, top: int, bottom: int) {
    && bottom == Ceiling(slots, top, |slots|)
    && forall i :: 0 <= i < |slots| ==> Highest(slots[i], Ceiling(slots, top, i))
  }

  /** Where the room for a slot begins. */
  function Ceiling(slots: seq<Slot>, top: int, i: nat): int
    requires i <= |slots|
  {
    if i == 0 then top else slots[i - 1].off
  }

  lemma PackedTwice(a: seq<Slot>, b: seq<Slot>, top: int, middle: int, bottom: int)
    requires Packed(a, top, middle) && Packed(b, middle, bottom)
    ensures Packed(a + b, top, bottom)
  {
    hide Highest;
    var s := a + b;
    forall i | 0 <= i < |s|
      ensures Highest(s[i], Ceiling(s, top, i))
    {
      if i < |a| {
        assert s[i] == a[i] && Ceiling(s, top, i) == Ceiling(a, top, i);
      } else {
        assert s[i] == b[i - |a|] && Ceiling(s, top, i) == Ceiling(b, middle, i - |a|);
      }
    }
  }

  lemma PackedOne(slot: Slot, top: int)
    requires Highest(slot, top)
    ensures Packed([slot], top, slot.off)
  {
  }

  lemma PackedNone(top: int)
    ensures Packed([], top, top)
  {
  }

  function Objects(slots: seq<Slot>): multiset<Object> {
    if slots == [] then multiset{} else Objects(slots[..|slots| - 1]) + multiset{slots[|slots| - 1].obj}
  }

  lemma {:induction false} ObjectsAppend(a: seq<Slot>, b: seq<Slot>)
    ensures Objects(a + b) == Objects(a) + Objects(b)
    decreases |b|
  {
    if b == [] {
      assert a + b == a;
    } else {
      assert (a + b)[..|a + b| - 1] == a + b[..|b| - 1];
      ObjectsAppend(a, b[..|b| - 1]);
    }
  }

  /** The objects of a scope that live in the frame and are not placed yet. */
  function Automatic(scope: seq<Object>): seq<Object> {
    if scope == [] then []
    else Automatic(scope[..|scope| - 1])
         + if scope[|scope| - 1].isStatic || scope[|scope| - 1].isParam then [] else [scope[|scope| - 1]]
  }

  datatype Block = Block(scope: seq<Object>, items: seq<Item>)

  /** Statements that are not blocks only need temporaries. */
  datatype Item = Inner(block: Block) | Statement(work: Work)

  /** What an expression needs of the frame: nothing, a spilled left operand while the right one is computed, or the
      pushed arguments of a call, `byMemCnt` of them in memory, in the order in which they are pushed. */
  datatype Work = Nothing | Operands(lhs: Work, rhs: Work) | CallOf(byMemCnt: nat, args: seq<Pushed>)

  /** An argument; a structure takes its width, a scalar 8 bytes. */
  datatype Pushed = Pushed(work: Work, isStruct: bool, width: nat)

  function AllObjects(b: Block): multiset<Object>
    decreases b
  {
    multiset(Automatic(b.scope)) + ItemObjects(b.items)
  }

  function ItemObjects(items: seq<Item>): multiset<Object>
    decreases items
  {
    if items == [] then multiset{} else ItemObject(items[0]) + ItemObjects(items[1..])
  }

  function ItemObject(i: Item): multiset<Object>
    decreases i
  {
    match i
    case Inner(b) => AllObjects(b)
    case Statement(_) => multiset{}
  }

  predicate Aligned(b: Block) {
    && (forall o :: o in b.scope ==> o.align > 0)
    && forall i :: 0 <= i < |b.items| && b.items[i].Inner? ==> Aligned(b.items[i].block)
  }

  /** A temporary, and how many slots there were when it was pushed. */
  datatype Temporary = Temporary(off: int, width: nat, after: nat)

  /** The temporaries of an expression that is computed where the frame ends at `top`: a left operand is kept while
      the right one is computed, and an argument once it is computed. */
  function Temps(work: Work, top: int, count: nat): seq<Temporary>
    decreases work
  {
    match work
    case Nothing => []
    case Operands(l, r) => Temps(l, top, count) + [Temporary(top - 8, 8, count)] + Temps(r, top - 8, count)
    case CallOf(cnt, args) => ArgTemps(args, CallStart(top, cnt), count)
  }

  function ArgTemps(args: seq<Pushed>, start: int, count: nat): seq<Temporary>
    decreases args
  {
    if args == [] then []
    else
      var before, arg := args[..|args| - 1], args[|args| - 1];
      assert arg.work < arg;
      ArgTemps(before, start, count) + Temps(arg.work, ArgEnd(before, start), count)
      + [Temporary(ArgEnd(args, start), if arg.isStruct then arg.width else 8, count)]
  }

  /** Where the frame ends when the arguments are pushed. */
  function ArgEnd(args: seq<Pushed>, start: int): int {
    if args == [] then start
    else
      var top, arg := ArgEnd(args[..|args| - 1], start), args[|args| - 1];
      if arg.isStruct then MakeAlign(top - arg.width, 8) else top - 8
  }

  /** Room for the arguments in memory, so that the stack will be aligned. */
  function CallStart(top: int, cnt: nat): int {
    MakeAlign(top - cnt * 8, 16) + cnt * 8
  }

  /** Temporaries pushed since there were `n`: behind `count` slots and below an offset. */
  ghost predicate PushedBelow(temps: seq<Temporary>, n: nat, count: nat, top: int) {
    forall k :: n <= k < |temps| ==> temps[k].after == count && temps[k].off + temps[k].width <= top
  }

  class Allocator {
    var offset: int
    var slots: seq<Slot>
    var temps: seq<Temporary>

    ghost predicate Valid()
      reads this
    {
      && offset <= 0 && Laid(slots, 0, offset)
      && forall k :: 0 <= k < |temps| ==> TempBelow(temps[k])
    }

    /** A temporary lies below everything that was placed before it. */
    ghost predicate TempBelow(t: Temporary)
      reads this
    {
      t.after <= |slots| && forall i :: 0 <= i < t.after ==> t.off + t.width <= slots[i].off
    }

    constructor ()
      ensures Valid() && offset == 0 && slots == [] && temps == []
    {
      offset, slots, temps := 0, [], [];
    }

    /** Parameters that come in registers are stored first. */
    method PushParams(params: seq<Object>) returns (ghost placed: seq<Slot>)
      requires Valid() && temps == []
      requires forall i :: 0 <= i < |params| ==> params[i].width <= 8 && params[i].align in {1, 2, 4, 8}
      requires offset % 8 == 0
      modifies this
      ensures Valid() && offset <= old(offset) && temps == [] && slots == old(slots) + placed
      ensures Objects(placed) == multiset(params) && Laid(placed, old(offset), offset)
      ensures |placed| == |params| && offset == old(offset) - 8 * |params|
      ensures forall i :: 0 <= i < |params| ==> placed[i] == Slot(params[i], old(offset) - 8 * (i + 1))
    {
      hide Laid, Objects, AlignOf;
      placed := [];
      NothingLaid(offset);
      for n := 0 to |params|
        invariant offset == old(offset) - 8 * n && temps == [] && slots == old(slots) + placed
        invariant Objects(placed) == multiset(params[..n]) && Laid(placed, old(offset), offset)
        invariant |placed| == n && forall i :: 0 <= i < n ==> placed[i] == Slot(params[i], old(offset) - 8 * (i + 1))
      {
        ghost var before := offset;
        offset := offset - 8;
        var slot := Slot(params[n], offset);
        ParamSlot(slot, before);
        LaidTwice(placed, [slot], old(offset), before, offset);
        OneMore(placed, slot);
        assert params[..n + 1] == params[..n] + [params[n]];
        placed := placed + [slot];
        slots := slots + [slot];
      }
      assert params[..|params|] == params;
      LaidTwice(old(slots), placed, 0, old(offset), offset);
    }

    /** The objects of a scope, in the order of a priority queue. */
    method AllocObjects(scope: seq<Object>) returns (ghost placed: seq<Slot>)
      requires Valid() && forall o :: o in scope ==> o.align > 0
      modifies this
      ensures Valid() && offset <= old(offset) && temps == old(temps) && slots == old(slots) + placed
      ensures Objects(placed) == multiset(Automatic(scope)) && Laid(placed, old(offset), offset)
      ensures Packed(placed, old(offset), offset)
      ensures forall i, j :: 0 <= i < j < |placed| ==> placed[i].obj.align >= placed[j].obj.align
    {
      hide Laid, Objects, AlignOf, Automatic, Packed, Highest;
      NothingLaid(offset);
      PackedNone(offset);
      var off := offset;
      var heap := Collect(scope);
      placed := [];
      while heap != []
        invariant unchanged(`offset, `temps) && off <= offset && slots == old(slots) + placed
        invariant forall o :: o in heap ==> o.align > 0
        invariant Objects(placed) + multiset(heap) == multiset(Automatic(scope))
        invariant Laid(placed, offset, off) && Packed(placed, offset, off)
        invariant forall i, j :: 0 <= i < j < |placed| ==> placed[i].obj.align >= placed[j].obj.align
        invariant forall i, o :: 0 <= i < |placed| && o in heap ==> placed[i].obj.align >= o.align
        decreases |heap|
      {
        var obj, rest := PopMax(heap);
        heap := rest;
        ghost var before := off;
        off := off - obj.width;
        var align := obj.align;
        if obj.isArray { align := if align <= 8 then align else 8; }
        off := MakeAlign(off, align);
        AlignOfIs(obj, align);
        var slot := Slot(obj, off);
        OneSlot(slot, before);
        LaidTwice(placed, [slot], offset, before, off);
        PackedOne(slot, before);
        PackedTwice(placed, [slot], offset, before, off);
        OneMore(placed, slot);
        placed := placed + [slot];
        slots := slots + [slot];
      }
      LaidTwice(old(slots), placed, 0, offset, off);
      offset := off;
    }

    method Collect(scope: seq<Object>) returns (heap: seq<Object>)
      ensures heap == Automatic(scope)
      ensures forall o :: o in heap ==> o in scope
    {
      heap := [];
      for n := 0 to |scope|
        invariant heap == Automatic(scope[..n]) && forall o :: o in heap ==> o in scope
      {
        assert scope[..n + 1][..n] == scope[..n];
        if !scope[n].isStatic && !scope[n].isParam { heap := heap + [scope[n]]; }
      }
      assert scope[..|scope|] == scope;
    }

    /** An object with the largest alignment; which one of several is left open. */
    method PopMax(heap: seq<Object>) returns (top: Object, rest: seq<Object>)
      requires heap != []
      ensures multiset(heap) == multiset(rest) + multiset{top} && |rest| < |heap|
      ensures forall o :: o in heap ==> o.align <= top.align
      ensures top in heap && forall o :: o in rest ==> o in heap
    {
      var at := 0;
      for n := 1 to |heap|
        invariant at < |heap| && forall i :: 0 <= i < n ==> heap[i].align <= heap[at].align
      {
        if heap[n].align > heap[at].align { at := n; }
      }
      top, rest := heap[at], heap[..at] + heap[at + 1..];
      assert heap == heap[..at] + [heap[at]] + heap[at + 1..];
    }

    /** A block: its own objects, then its statements; the frame does not shrink behind it. */
    method VisitCompoundStmt(b: Block) returns (ghost placed: seq<Slot>)
      requires Valid() && Aligned(b)
      modifies this
      ensures Valid() && offset <= old(offset) && slots == old(slots) + placed && old(temps) <= temps
      ensures Objects(placed) == AllObjects(b) && Laid(placed, old(offset), offset)
      ensures Packed(placed, old(offset), offset)
      decreases b
    {
      hide Laid, Objects, AlignOf, Automatic, Packed, Highest;
      placed := AllocObjects(b.scope);
      assert b.items[0..] == b.items;
      for n := 0 to |b.items|
        invariant Valid() && offset <= old(offset) && slots == old(slots) + placed && old(temps) <= temps
        invariant Objects(placed) + ItemObjects(b.items[n..]) == AllObjects(b)
        invariant Laid(placed, old(offset), offset) && Packed(placed, old(offset), offset)
      {
        assert b.items[n..][1..] == b.items[n + 1..];
        match b.items[n] {
          case Inner(inner) =>
            ghost var before := offset;
            ghost var more := VisitCompoundStmt(inner);
            LaidTwice(placed, more, old(offset), before, offset);
            PackedTwice(placed, more, old(offset), before, offset);
            ObjectsAppend(placed, more);
            placed := placed + more;
          case Statement(work) => VisitExpr(work);
        }
      }
    }

    /** Temporaries are pushed below everything there is, also below those of the expressions around, and popped
        again. */
    method VisitExpr(work: Work)
      requires Valid()
      modifies this
      ensures Valid() && offset == old(offset) && slots == old(slots) && old(temps) <= temps
      ensures temps == old(temps) + Temps(work, offset, |slots|)
      ensures PushedBelow(temps, |old(temps)|, |slots|, offset)
      decreases work
    {
      hide Laid, MakeAlign, CallStart;
      ghost var base := offset;
      match work
      case Nothing =>
      case Operands(l, r) =>
        VisitExpr(l);
        Push(8, offset - 8);
        VisitExpr(r);
        offset := offset + 8;
        LaidLower(slots, base, offset);
      case CallOf(cnt, args) =>
        var top := offset;
        offset := MakeAlign(offset - cnt * 8, 16) + cnt * 8;
        CallBase(top, cnt);
        var start := offset;
        LaidLower(slots, base, offset);
        VisitArgs(args);
        assert start == CallStart(base, cnt);
        offset := top;
    }

    /** The arguments of a call, and the room they take. */
    method VisitArgs(args: seq<Pushed>)
      requires Valid()
      modifies this
      ensures Valid() && offset == ArgEnd(args, old(offset)) && slots == old(slots)
      ensures temps == old(temps) + ArgTemps(args, old(offset), |slots|)
      ensures PushedBelow(temps, |old(temps)|, |slots|, old(offset))
      decreases args
    {
      hide Laid, MakeAlign, Temps, ArgTemps, ArgEnd;
      ghost var base := offset;
      NoArgs(base, |slots|);
      for n := 0 to |args|
        invariant Valid() && offset <= base && slots == old(slots)
        invariant offset == ArgEnd(args[..n], base) && temps == old(temps) + ArgTemps(args[..n], base, |slots|)
        invariant PushedBelow(temps, |old(temps)|, |slots|, base)
      {
        NextArg(args, n, base, |slots|);
        assert args[n].work < args[n];
        VisitExpr(args[n].work);
        if args[n].isStruct {
          PushedRoom(offset, args[n].width);
          Push(args[n].width, MakeAlign(offset - args[n].width, 8));
        } else {
          Push(8, offset - 8);
        }
      }
      assert args[..|args|] == args;
    }

    /** One more temporary, which ends at or below the old top of the frame. */
    method Push(width: nat, at: int)
      requires Valid() && at + width <= offset
      modifies this
      ensures Valid() && offset == at && slots == old(slots) && temps == old(temps) + [Temporary(at, width, |slots|)]
    {
      ghost var before := offset;
      offset := at;
      temps := temps + [Temporary(at, width, |slots|)];
      LaidLower(slots, before, at);
    }
  }

  /** As high as it can be with the end of the arguments in memory at a multiple of 16. */
  lemma CallBase(top: int, cnt: nat)
    requires top <= 0
    ensures CallStart(top, cnt) == MakeAlign(top - cnt * 8, 16) + cnt * 8
    ensures (CallStart(top, cnt) - cnt * 8) % 16 == 0 && CallStart(top, cnt) <= top < CallStart(top, cnt) + 16
  {
  }

  lemma NoArgs(start: int, count: nat)
    ensures ArgTemps([], start, count) == [] && ArgEnd([], start) == start
  {
  }

  lemma NextArg(args: seq<Pushed>, n: nat, start: int, count: nat)
    requires n < |args|
    ensures var top, arg := ArgEnd(args[..n], start), args[n];
            && ArgEnd(args[..n + 1], start) == (if arg.isStruct then MakeAlign(top - arg.width, 8) else top - 8)
            && ArgTemps(args[..n + 1], start, count)
               == ArgTemps(args[..n], start, count) + Temps(arg.work, top, count)
                  + [Temporary(ArgEnd(args[..n + 1], start), if arg.isStruct then arg.width else 8, count)]
  {
    hide MakeAlign, Temps;
    assert args[..n + 1][..n] == args[..n];
  }

  lemma PushedRoom(offset: int, width: nat)
    requires offset <= 0
    ensures MakeAlign(offset - width, 8) + width <= offset
  {
  }

  lemma NothingLaid(at: int)
    ensures Laid([], at, at) && Objects([]) == multiset{}
  {
  }

  lemma AlignOfIs(o: Object, align: nat)
    requires align == if o.isArray && o.align > 8 then 8 else o.align
    ensures AlignOf(o) == align
  {
  }

  lemma OneMore(placed: seq<Slot>, slot: Slot)
    ensures Objects(placed + [slot]) == Objects(placed) + multiset{slot.obj}
  {
    assert (placed + [slot])[..|placed|] == placed;
  }

  lemma ParamSlot(slot: Slot, before: int)
    requires slot.off == before - 8 && before % 8 == 0 && slot.obj.width <= 8 && slot.obj.align in {1, 2, 4, 8}
    ensures Laid([slot], before, slot.off)
  {
    EightDivides(slot.off, AlignOf(slot.obj));
  }

  lemma EightDivides(x: int, align: nat)
    requires x % 8 == 0 && align in {1, 2, 4, 8}
    ensures x % align == 0
  {
    if align == 1 {
    } else if align == 2 {
    } else if align == 4 {
    }
  }

  lemma OneSlot(slot: Slot, before: int)
    requires before <= 0 && AlignOf(slot.obj) > 0
    requires slot.off == MakeAlign(before - slot.obj.width, AlignOf(slot.obj))
    ensures Laid([slot], before, slot.off) && slot.off <= before && Highest(slot, before)
  {
  }

  lemma LaidLower(slots: seq<Slot>, bottom: int, lower: int)
    requires Laid(slots, 0, bottom) && lower <= bottom
    ensures Laid(slots, 0, lower)
  {
  }

  // ---------- what the code generator needs ----------

  /** A whole function: parameters in registers, then the body. */
  method GenFuncBody(params: seq<Object>, body: Block) returns (a: Allocator)
    requires Aligned(body) && forall i :: 0 <= i < |params| ==> params[i].width <= 8 && params[i].align in {1, 2, 4, 8}
    ensures fresh(a) && a.Valid()
    ensures Objects(a.slots) == multiset(params) + AllObjects(body)
    ensures forall i, j ::
            0 <= i < |params| <= j < |a.slots| ==> a.slots[j].off + a.slots[j].obj.width <= a.slots[i].off
    ensures |params| <= |a.slots|
    ensures forall i :: 0 <= i < |params| ==> a.slots[i] == Slot(params[i], -8 * (i + 1))
    ensures Packed(a.slots[|params|..], -8 * |params|, a.offset)
  {
    hide Laid, Objects, AlignOf, AllObjects, Packed, Highest;
    a := new Allocator();
    ghost var first := a.PushParams(params);
    ghost var top := a.offset;
    ghost var rest := a.VisitCompoundStmt(body);
    ObjectsAppend(first, rest);
    ParamsAbove(first, rest, top, a.offset);
    NothingLaid(0);
    assert [] + first == first;
    assert a.slots[|params|..] == rest;
  }

  lemma ParamsAbove(first: seq<Slot>, rest: seq<Slot>, top: int, bottom: int)
    requires Laid(first, 0, top) && Laid(rest, top, bottom)
    ensures var all := first + rest;
            forall i, j :: 0 <= i < |first| <= j < |all| ==> all[j].off + all[j].obj.width <= all[i].off
  {
  }

  /** Local variables of the two integer types, placed in this way, are a frame for the compiled code: the
      assumption under which expressions and functions are compiled correctly. */
  lemma AllocatedFrameOk(slots: seq<Slot>, frame: EC.Frame, bottom: int, at: map<Name, nat>)
    requires Laid(slots, 0, bottom) && at.Keys == frame.Keys
    requires forall x :: x in frame ==> at[x] < |slots| && slots[at[x]].off == frame[x].off
                                        && slots[at[x]].obj.width == Bytes(frame[x].ty)
    requires forall x, y :: x in frame && y in frame && x != y ==> at[x] != at[y]
    ensures ECC.FrameOk(frame, bottom)
  {
    forall x, y | x in frame && y in frame && x != y
      ensures ECC.Apart(frame[x], frame[y])
    {
      if at[x] < at[y] {
        assert Apart(slots[at[x]], slots[at[y]]);
      } else {
        assert Apart(slots[at[y]], slots[at[x]]);
      }
    }
  }
}
