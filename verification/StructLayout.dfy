/** Placing the members of structures and unions: ordinary members, bit-fields, anonymous aggregates. */
module StructLayout {
  import opened Options
  import opened Words
  import opened Align

  /** A bit range of an object. */
  datatype Range = Range(first: int, count: nat)

  predicate Apart(a: Range, b: Range) {
    a.first + a.count <= b.first || b.first + b.count <= a.first
  }

  predicate Inside(a: Range, b: Range) {
    b.first <= a.first && a.first + a.count <= b.first + b.count
  }

  /** An entry of the member list; `bits` is 0 for an ordinary member or an anonymous aggregate. */
  datatype Member = Member(named: bool, offset: nat, size: nat, align: nat, begin: nat, bits: nat)

  function RangeOf(m: Member): Range {
    if m.bits > 0 then Range(8 * m.offset + m.begin, m.bits) else Range(8 * m.offset, 8 * m.size)
  }

  function EndOf(m: Member): nat {
    RangeOf(m).first + RangeOf(m).count
  }

  // ---------- powers of two ----------

  predicate Power(n: nat) {
    n == 1 || (n % 2 == 0 && n > 0 && Power(n / 2))
  }

  function Max(a: nat, b: nat): nat {
    if a >= b then a else b
  }

  /** The smaller of two powers of two divides the larger. */
  lemma {:induction false} PowerDivides(a: nat, b: nat)
    requires Power(a) && Power(b) && a <= b
    ensures b % a == 0
    decreases b
  {
    if a == 1 {
    } else {
      PowerDivides(a / 2, b / 2);
      var q := (b / 2) / (a / 2);
      DivMod(b / 2, a / 2);
      assert b == q * a + 0;
      ModShift(0, q, a);
    }
  }

  lemma MultipleOfMultiple(x: int, b: nat, a: nat)
    requires a > 0 && b > 0 && x % b == 0 && b % a == 0
    ensures x % a == 0
  {
    DivMod(x, b);
    DivMod(b, a);
    var k := (x / b) * (b / a);
    assert x == k * a + 0 by {
      assert x == (x / b) * ((b / a) * a);
      assert (x / b) * ((b / a) * a) == ((x / b) * (b / a)) * a;
    }
    ModShift(0, k, a);
  }

  // ---------- the state of a type under construction ----------

  datatype Layout = Layout(isStruct: bool, members: seq<Member>, memberMap: map<string, Member>,
                           offset: nat, width: nat, align: nat, bitFieldAlign: nat)

  function Start(isStruct: bool): Layout {
    Layout(isStruct, [], map[], 0, 0, 1, 1)
  }

  /** Up to the next multiple. */
  function RoundUp(n: nat, align: nat): nat
    requires align > 0
  {
    MakeAlign(n, align)
  }

  function WithMember(l: Layout, name: string, size: nat, align: nat): Layout
    requires align > 0 && l.align > 0
  {
    var at := RoundUp(l.offset, align);
    var m := Member(true, at, size, align, 0, 0);
    var newAlign := Max(l.align, align);
    l.(members := l.members + [m], memberMap := l.memberMap[name := m],
       align := newAlign, bitFieldAlign := Max(l.bitFieldAlign, newAlign),
       offset := if l.isStruct then at + size else l.offset,
       width := RoundUp(if l.isStruct then at + size else Max(l.width, size), newAlign))
  }

  function WithBitField(l: Layout, named: bool, name: string, unit: nat, begin: nat, bits: nat, at: nat): Layout
    requires unit > 0 && l.bitFieldAlign > 0
  {
    var m := Member(named, at, unit, unit, begin, bits);
    var end := at + RoundUp(begin + bits, 8) / 8;
    var newAlign := Max(l.bitFieldAlign, unit);
    l.(members := l.members + [m], memberMap := if named then l.memberMap[name := m] else l.memberMap,
       bitFieldAlign := newAlign,
       offset := if l.isStruct then end else l.offset,
       width := if l.isStruct then RoundUp(end, newAlign) else Max(l.width, unit))
  }

  /** The members of an anonymous aggregate, moved to where it lies. */
  function Shifted(inner: map<string, Member>, at: nat): map<string, Member> {
    map n | n in inner :: Moved(inner[n], at)
  }

  function Moved(m: Member, at: nat): Member {
    m.(offset := m.offset + at)
  }

  function WithAnony(l: Layout, inner: Layout): Layout
    requires inner.align > 0 && l.align > 0
  {
    var at := RoundUp(l.offset, inner.align);
    var newAlign := Max(l.align, inner.align);
    l.(members := l.members + [Member(false, at, inner.width, inner.align, 0, 0)],
       memberMap := l.memberMap + Shifted(inner.memberMap, at),
       align := newAlign,
       offset := if l.isStruct then at + inner.width else l.offset,
       width := if l.isStruct then RoundUp(at + inner.width, newAlign) else Max(l.width, inner.width))
  }

  // ---------- where a bit-field goes ----------

  datatype BitFieldError = NegativeWidth | ZeroWidthNamed | TooWide

  datatype Spot = Spot(at: nat, begin: nat) | Refused(error: BitFieldError)

  /** Right behind the last member as long as it fits into the first unit of the structure, otherwise in a
      unit of its own behind everything. */
  function SpotFor(l: Layout, unit: nat, bits: int): Spot
    requires unit > 0
  {
    if bits < 0 then Refused(NegativeWidth)
    else if bits == 0 then Refused(ZeroWidthNamed)
    else if bits > 8 * unit then Refused(TooWide)
    else if !l.isStruct || l.members == [] then Spot(0, 0)
    else
      var totalBits := EndOf(l.members[|l.members| - 1]);
      if bits + totalBits <= 8 * unit then Spot(totalBits / 8, totalBits % 8)
      else Spot(RoundUp(l.offset, unit), 0)
  }

  // ---------- what holds ----------

  predicate Placed(m: Member) {
    if m.bits > 0 then m.size in {1, 2, 4, 8} && m.begin < 8 && m.begin + m.bits <= 8 * m.size
    else m.begin == 0 && m.align > 0 && m.offset % m.align == 0
  }

  ghost predicate Owned(l: Layout, r: Range) {
    exists k :: 0 <= k < |l.members| && Inside(r, RangeOf(l.members[k]))
  }

  /** Members in order of their places, without overlap and inside the structure. */
  ghost predicate InOrder(members: seq<Member>, offset: nat) {
    && (forall k :: 0 <= k < |members| ==> EndOf(members[k]) <= 8 * offset)
    && (if members == [] then offset == 0 else 8 * offset < EndOf(members[|members| - 1]) + 8)
    && (forall j, k :: 0 <= j < k < |members| ==> EndOf(members[j]) <= RangeOf(members[k]).first)
  }

  /** What a name stands for: a placed member inside an entry, aligned no more than the type. */
  ghost predicate NameOk(l: Layout, m: Member) {
    Placed(m) && Owned(l, RangeOf(m)) && (m.bits == 0 ==> Power(m.align) && m.align <= l.align)
  }

  /** Ordinary members at multiples of their alignment, bit-fields inside a unit of their type that starts at their
      byte, everything inside the object, every name inside a member, and in a structure nothing overlaps. */
  ghost predicate Valid(l: Layout) {
    && Power(l.align) && Power(l.bitFieldAlign)
    && (forall k :: 0 <= k < |l.members| ==> Placed(l.members[k]) && EndOf(l.members[k]) <= 8 * l.width)
    && (forall n :: n in l.memberMap ==> NameOk(l, l.memberMap[n]))
    && (if l.isStruct then l.offset <= l.width && InOrder(l.members, l.offset)
        else l.offset == 0 && forall k :: 0 <= k < |l.members| ==> l.members[k].offset == 0)
  }

  /** The width is a multiple of the alignment, and bit-fields are not aligned less than the type. */
  predicate WidthFits(l: Layout) {
    l.align > 0 && l.width % l.align == 0 && l.align <= l.bitFieldAlign
  }

  lemma RoundUpBounds(n: nat, align: nat)
    requires align > 0
    ensures n <= RoundUp(n, align) < n + align && RoundUp(n, align) % align == 0
  {
  }

  lemma {:induction false} PowerPositive(n: nat)
    requires Power(n)
    ensures n > 0
  {
  }

  /** Appending an entry that starts behind all others. */
  lemma AppendInOrder(members: seq<Member>, offset: nat, m: Member, offset': nat)
    requires InOrder(members, offset)
    requires forall k :: 0 <= k < |members| ==> EndOf(members[k]) <= RangeOf(m).first
    requires EndOf(m) <= 8 * offset' < EndOf(m) + 8
    requires offset <= offset'
    ensures InOrder(members + [m], offset')
  {
  }

  lemma StillOk(l: Layout, l': Layout, m: Member, n: Member)
    requires l'.members == l.members + [m] && l.align <= l'.align && NameOk(l, n)
    ensures NameOk(l', n)
  {
    var k :| 0 <= k < |l.members| && Inside(RangeOf(n), RangeOf(l.members[k]));
    assert l'.members[k] == l.members[k];
  }

  lemma NewOk(l: Layout, l': Layout, m: Member, n: Member)
    requires l'.members == l.members + [m] && Placed(n) && Inside(RangeOf(n), RangeOf(m))
    requires n.bits == 0 ==> Power(n.align) && n.align <= l'.align
    ensures NameOk(l', n)
  {
    assert l'.members[|l.members|] == m;
  }

  /** What one more entry must satisfy. */
  lemma Appended(l: Layout, l': Layout, m: Member)
    requires Valid(l) && l'.isStruct == l.isStruct && l'.members == l.members + [m] && l.align <= l'.align
    requires Power(l'.align) && Power(l'.bitFieldAlign) && Placed(m) && EndOf(m) <= 8 * l'.width
    requires l.isStruct ==> l'.offset <= l'.width && InOrder(l'.members, l'.offset)
    requires !l.isStruct ==> l.width <= l'.width && l'.offset == 0 && m.offset == 0
    requires forall n :: n in l'.memberMap ==>
               || (n in l.memberMap && l'.memberMap[n] == l.memberMap[n])
               || (Placed(l'.memberMap[n]) && Inside(RangeOf(l'.memberMap[n]), RangeOf(m))
                   && (l'.memberMap[n].bits == 0 ==> Power(l'.memberMap[n].align) && l'.memberMap[n].align <= l'.align))
    ensures Valid(l')
  {
    assert l'.members[|l.members|] == m;
    forall n | n in l'.memberMap
      ensures NameOk(l', l'.memberMap[n])
    {
      if n in l.memberMap && l'.memberMap[n] == l.memberMap[n] {
        StillOk(l, l', m, l.memberMap[n]);
      } else {
        NewOk(l, l', m, l'.memberMap[n]);
      }
    }
    hide RangeOf, Inside, Power, NameOk;
  }

  lemma Parts(l: Layout)
    requires Valid(l)
    ensures l.align > 0 && l.bitFieldAlign > 0 && Power(l.align) && Power(l.bitFieldAlign)
    ensures l.isStruct ==> InOrder(l.members, l.offset) && forall k ::
            0 <= k < |l.members| ==> EndOf(l.members[k]) <= 8 * l.offset
    ensures !l.isStruct ==> l.offset == 0
  {
    PowerPositive(l.align);
    PowerPositive(l.bitFieldAlign);
  }

  lemma MemberValid(l: Layout, name: string, size: nat, align: nat)
    requires Valid(l) && Power(align)
    ensures Valid(WithMember(l, name, size, align))
  {
    hide Valid, InOrder, Power, RoundUp;
    PowerPositive(align);
    Parts(l);
    RoundUpBounds(l.offset, align);
    var at := RoundUp(l.offset, align);
    var m := Member(true, at, size, align, 0, 0);
    RoundUpBounds(if l.isStruct then at + size else Max(l.width, size), Max(l.align, align));
    if l.isStruct {
      AppendInOrder(l.members, l.offset, m, at + size);
    } else {
      RoundUpZero(align);
    }
    Appended(l, WithMember(l, name, size, align), m);
  }

  lemma RoundUpZero(align: nat)
    requires align > 0
    ensures RoundUp(0, align) == 0
  {
  }

  lemma BytesFor(bits: nat)
    ensures bits <= 8 * (RoundUp(bits, 8) / 8) < bits + 8
  {
  }

  /** What the parser's choice guarantees. */
  lemma SpotIsFree(l: Layout, unit: nat, bits: int)
    requires Valid(l) && unit in {1, 2, 4, 8} && SpotFor(l, unit, bits).Spot?
    ensures var spot := SpotFor(l, unit, bits);
            && 0 < bits && spot.begin < 8 && spot.begin + bits <= 8 * unit
            && (!l.isStruct ==> spot.at == 0)
            && (l.isStruct ==> forall k :: 0 <= k < |l.members| ==> EndOf(l.members[k]) <= 8 * spot.at + spot.begin)
            && (l.isStruct ==> l.offset <= spot.at + (spot.begin + bits + 7) / 8)
  {
    if l.isStruct && l.members != [] {
      var last := l.members[|l.members| - 1];
      RoundUpBounds(l.offset, unit);
      hide RoundUp;
      forall k | 0 <= k < |l.members|
        ensures EndOf(l.members[k]) <= EndOf(last)
      {
      }
    }
  }

  /** The new entry is in place behind the others. */
  lemma BitFieldInOrder(l: Layout, named: bool, unit: nat, bits: int)
    requires Valid(l) && unit in {1, 2, 4, 8} && SpotFor(l, unit, bits).Spot?
    ensures var spot := SpotFor(l, unit, bits);
            0 < bits &&
            var m := Member(named, spot.at, unit, unit, spot.begin, bits);
            var end := spot.at + RoundUp(spot.begin + bits, 8) / 8;
            && Placed(m) && EndOf(m) <= 8 * end && EndOf(m) <= 8 * unit + 8 * spot.at
            && (if l.isStruct then InOrder(l.members + [m], end) else m.offset == 0)
  {
    hide Valid, InOrder, Power, RoundUp, SpotFor;
    Parts(l);
    SpotIsFree(l, unit, bits);
    var spot := SpotFor(l, unit, bits);
    BytesFor(spot.begin + bits);
    if l.isStruct {
      AppendInOrder(l.members, l.offset, Member(named, spot.at, unit, unit, spot.begin, bits),
                    spot.at + RoundUp(spot.begin + bits, 8) / 8);
    }
  }

  lemma BitFieldValid(l: Layout, named: bool, name: string, unit: nat, bits: int)
    requires Valid(l) && unit in {1, 2, 4, 8} && SpotFor(l, unit, bits).Spot?
    ensures var spot := SpotFor(l, unit, bits);
            0 < bits && Valid(WithBitField(l, named, name, unit, spot.begin, bits, spot.at))
  {
    hide Valid, InOrder, Power, RoundUp, SpotFor, Placed, EndOf;
    PowerUnit(unit);
    Parts(l);
    BitFieldInOrder(l, named, unit, bits);
    var spot := SpotFor(l, unit, bits);
    var m := Member(named, spot.at, unit, unit, spot.begin, bits);
    RoundUpBounds(spot.at + RoundUp(spot.begin + bits, 8) / 8, Max(l.bitFieldAlign, unit));
    Appended(l, WithBitField(l, named, name, unit, spot.begin, bits, spot.at), m);
  }

  lemma AnonyValid(l: Layout, inner: Layout)
    requires Valid(l) && Valid(inner)
    ensures Power(inner.align) && Power(l.align) && inner.align > 0 && l.align > 0 && Valid(WithAnony(l, inner))
  {
    hide Valid, InOrder, Power, RoundUp;
    Parts(l);
    Parts(inner);
    RoundUpBounds(l.offset, inner.align);
    var at := RoundUp(l.offset, inner.align);
    var m := Member(false, at, inner.width, inner.align, 0, 0);
    RoundUpBounds(at + inner.width, Max(l.align, inner.align));
    RoundUpZero(inner.align);
    if l.isStruct { AppendInOrder(l.members, l.offset, m, at + inner.width); }
    forall n | n in inner.memberMap
      ensures Placed(Moved(inner.memberMap[n], at)) && Inside(RangeOf(Moved(inner.memberMap[n], at)), RangeOf(m))
      ensures inner.memberMap[n].bits == 0 ==>
              Power(inner.memberMap[n].align) && inner.memberMap[n].align <= inner.align
    {
      InnerOk(inner, n, at);
    }
    Appended(l, WithAnony(l, inner), m);
  }

  /** Moving an aggregate to a multiple of its alignment keeps its members aligned. */
  lemma InnerOk(inner: Layout, n: string, at: nat)
    requires Valid(inner) && n in inner.memberMap && inner.align > 0 && at % inner.align == 0
    ensures var m := Moved(inner.memberMap[n], at);
            && Placed(m) && Inside(RangeOf(m), Range(8 * at, 8 * inner.width))
            && (m.bits == 0 ==> Power(m.align) && m.align <= inner.align)
  {
    var m := inner.memberMap[n];
    assert NameOk(inner, m);
    var k :| 0 <= k < |inner.members| && Inside(RangeOf(m), RangeOf(inner.members[k]));
    assert EndOf(inner.members[k]) <= 8 * inner.width;
    if m.bits == 0 {
      PowerDivides(m.align, inner.align);
      MultipleOfMultiple(at, inner.align, m.align);
      MultipleSum(m.offset, at, m.align);
    }
    hide Valid, Power;
  }

  // ---------- width and alignment ----------

  lemma MemberWidthFits(l: Layout, name: string, size: nat, align: nat)
    requires Valid(l) && WidthFits(l) && Power(align)
    ensures align > 0 && WidthFits(WithMember(l, name, size, align))
  {
    PowerPositive(align);
    RoundUpBounds(if l.isStruct then RoundUp(l.offset, align) + size else Max(l.width, size), Max(l.align, align));
    hide RoundUp;
  }

  lemma BitFieldWidthFits(l: Layout, named: bool, name: string, unit: nat, begin: nat, bits: nat, at: nat)
    requires Valid(l) && WidthFits(l) && l.isStruct && unit in {1, 2, 4, 8}
    ensures l.bitFieldAlign > 0 && WidthFits(WithBitField(l, named, name, unit, begin, bits, at))
  {
    PowerPositive(l.bitFieldAlign);
    var newAlign := Max(l.bitFieldAlign, unit);
    var end := at + RoundUp(begin + bits, 8) / 8;
    BytesFor(begin + bits);
    RoundUpBounds(end, newAlign);
    assert Power(unit);
    PowerDivides(l.align, newAlign);
    MultipleOfMultiple(RoundUp(end, newAlign), newAlign, l.align);
  }

  /** A merged aggregate counts for the alignment of the type but not for that of bit-fields. */
  lemma AnonyWidthFitsIff(l: Layout, inner: Layout)
    requires Valid(l) && WidthFits(l) && l.isStruct && Power(inner.align)
    ensures inner.align > 0 && (WidthFits(WithAnony(l, inner)) <==> inner.align <= l.bitFieldAlign)
  {
    PowerPositive(inner.align);
    RoundUpBounds(RoundUp(l.offset, inner.align) + inner.width, Max(l.align, inner.align));
    hide RoundUp;
  }

  /** `struct { struct { long x; }; char c : 1; }` has 9 bytes and alignment 8. */
  lemma MergedThenBitField()
    ensures var inner := WithMember(Start(true), "x", 8, 8);
            var l := WithBitField(WithAnony(Start(true), inner), true, "c", 1, 0, 1, 8);
            && SpotFor(WithAnony(Start(true), inner), 1, 1) == Spot(8, 0)
            && l.width == 9 && l.align == 8
  {
    Rounded(0, 8, 0);
    Rounded(8, 8, 8);
    Rounded(1, 8, 8);
    Rounded(9, 1, 9);
    hide RoundUp;
    assert RangeOf(Member(false, 0, 8, 8, 0, 0)) == Range(0, 64);
  }

  lemma Rounded(n: nat, align: nat, r: nat)
    requires align > 0 && n <= r < n + align && r % align == 0
    ensures RoundUp(n, align) == r
  {
    RoundUpBounds(n, align);
    var d := RoundUp(n, align) - r;
    MultipleSum(RoundUp(n, align), r, align);
    DivMod(d, align);
    SmallMultiple(d / align, align);
  }

  function OneChar(): Layout {
    Layout(true, [Member(true, 0, 1, 1, 0, 0)], map["c" := Member(true, 0, 1, 1, 0, 0)], 1, 1, 1, 1)
  }

  /** A bit-field may be placed so that its unit ends behind the structure: the one of
      `struct { char c; int b : 20; }` has bytes 1 to 4 of a structure of 4 bytes. */
  lemma UnitBehindEnd()
    ensures WithMember(Start(true), "c", 1, 1) == OneChar()
    ensures SpotFor(OneChar(), 4, 20) == Spot(1, 0)
    ensures WithBitField(OneChar(), true, "b", 4, 0, 20, 1).width == 4
  {
    hide TruncMod;
    Rounded(0, 1, 0);
    Rounded(1, 1, 1);
    Rounded(20, 8, 24);
    Rounded(4, 4, 4);
    hide RoundUp;
    assert EndOf(OneChar().members[0]) == 8;
  }

  /** A unit of its own, at a multiple of its size. */
  lemma OwnUnit(at: nat, bits: nat, unit: nat, align: nat)
    requires unit > 0 && at % unit == 0 && bits > 0 && align > 0 && align % unit == 0
    ensures at + unit <= RoundUp(at + RoundUp(bits, 8) / 8, align)
  {
    var end := at + RoundUp(bits, 8) / 8;
    BytesFor(bits);
    RoundUpBounds(end, align);
    hide RoundUp;
    MultipleOfMultiple(RoundUp(end, align), align, unit);
    NextMultiple(at, RoundUp(end, align), unit);
  }

  /** A field in the first unit of the structure ends there, and so the structure has one alignment. */
  lemma FirstUnit(at: nat, begin: nat, bits: nat, unit: nat, align: nat)
    requires bits > 0 && 8 * at + begin + bits <= 8 * unit && begin < 8 && unit <= align
    ensures RoundUp(at + RoundUp(begin + bits, 8) / 8, align) == align
  {
    BytesFor(begin + bits);
    var end := at + RoundUp(begin + bits, 8) / 8;
    hide RoundUp;
    Rounded(end, align, align);
  }

  lemma SpotCases(l: Layout, unit: nat, bits: int)
    requires unit > 0 && SpotFor(l, unit, bits).Spot?
    ensures var spot := SpotFor(l, unit, bits);
            && 0 < bits <= 8 * unit
            && if l.isStruct && l.members != [] && bits + EndOf(l.members[|l.members| - 1]) > 8 * unit
               then spot.begin == 0 && spot.at % unit == 0
               else
                 && spot.begin < 8 && 8 * spot.at + spot.begin + bits <= 8 * unit
                 && (!l.isStruct || l.members == [] ==> spot.at == 0)
  {
    RoundUpBounds(l.offset, unit);
    hide RoundUp, EndOf;
  }

  lemma PowerUnit(unit: nat)
    requires unit in {1, 2, 4, 8}
    ensures Power(unit)
  {
  }

  /** When the unit of a new bit-field lies inside the object: always in a union, in front, or in a unit of its own;
      otherwise when the unit that starts at its byte ends within the alignment of bit-fields. */
  lemma UnitInsideIff(l: Layout, named: bool, name: string, unit: nat, bits: int)
    requires Valid(l) && unit in {1, 2, 4, 8} && SpotFor(l, unit, bits).Spot?
    ensures var spot := SpotFor(l, unit, bits);
            0 < bits && l.bitFieldAlign > 0 &&
            var l' := WithBitField(l, named, name, unit, spot.begin, bits, spot.at);
            spot.at + unit <= l'.width
            <==> (!l.isStruct || l.members == [] || bits + EndOf(l.members[|l.members| - 1]) > 8 * unit
                  || spot.at + unit <= Max(l.bitFieldAlign, unit))
  {
    hide Valid, RoundUp, Power, EndOf, SpotFor;
    Parts(l);
    PowerUnit(unit);
    SpotCases(l, unit, bits);
    var spot := SpotFor(l, unit, bits);
    var align := Max(l.bitFieldAlign, unit);
    PowerDivides(unit, align);
    if l.isStruct {
      if l.members != [] && bits + EndOf(l.members[|l.members| - 1]) > 8 * unit {
        OwnUnit(spot.at, bits, unit, align);
      } else {
        FirstUnit(spot.at, spot.begin, bits, unit, align);
      }
    }
  }

  lemma NextMultiple(x: int, y: int, m: nat)
    requires m > 0 && x % m == 0 && y % m == 0 && x < y
    ensures x + m <= y
  {
    MultipleSum(y, x, m);
    DivMod(y - x, m);
    if y - x < m { ModSmall(y - x, m); }
  }

  // ---------- whole declarations ----------

  datatype Decl =
    | Ordinary(name: string, size: nat, align: nat)
    | BitField(named: bool, name: string, unit: nat, bits: int)
    | Anonymous(isStruct: bool, decls: seq<Decl>)

  predicate Proper(d: Decl) {
    match d
    case Ordinary(_, _, align) => Power(align)
    case BitField(named, _, unit, bits) => unit in {1, 2, 4, 8} && (named || bits != 0)
    case Anonymous(_, ds) => forall i :: 0 <= i < |ds| ==> Proper(ds[i])
  }

  datatype Outcome = Laid(l: Layout) | Error(error: BitFieldError) | Duplicate

  function AddDecl(l: Layout, d: Decl): (r: Outcome)
    requires Proper(d) && Valid(l)
    ensures r.Laid? ==> Valid(r.l)
    decreases d
  {
    match d
    case Ordinary(name, size, align) =>
      if name in l.memberMap then Duplicate
      else
        PowerPositive(align);
        PowerPositive(l.align);
        MemberValid(l, name, size, align);
        Laid(WithMember(l, name, size, align))
    case BitField(named, name, unit, bits) =>
      (match SpotFor(l, unit, bits)
       case Refused(e) => Error(e)
       case Spot(at, begin) =>
         if named && name in l.memberMap then Duplicate else
         PowerPositive(l.bitFieldAlign);
         BitFieldValid(l, named, name, unit, bits);
         Laid(WithBitField(l, named, name, unit, begin, bits, at)))
    case Anonymous(isStruct, ds) =>
      match Build(Start(isStruct), ds)
      case Laid(inner) =>
        if inner.memberMap.Keys !! l.memberMap.Keys then
          AnonyValid(l, inner);
          Laid(WithAnony(l, inner))
        else Duplicate
      case e => e
  }

  /** Any sequence of members, bit-fields and anonymous aggregates, nested as one likes. */
  function Build(l: Layout, ds: seq<Decl>): (r: Outcome)
    requires Valid(l) && forall i :: 0 <= i < |ds| ==> Proper(ds[i])
    ensures r.Laid? ==> Valid(r.l)
    decreases ds
  {
    if ds == [] then Laid(l)
    else
      match AddDecl(l, ds[0])
      case Laid(l') => Build(l', ds[1..])
      case e => e
  }

  /** Whatever a structure declares: nothing overlaps, everything is inside, ordinary members are aligned, and a
      bit-field fits the unit of its type that starts at its byte. */
  lemma BuildIsSafe(ds: seq<Decl>)
    requires forall i :: 0 <= i < |ds| ==> Proper(ds[i])
    requires Build(Start(true), ds).Laid?
    ensures var l := Build(Start(true), ds).l;
            && (forall j, k :: 0 <= j < k < |l.members| ==> Apart(RangeOf(l.members[j]), RangeOf(l.members[k])))
            && (forall k :: 0 <= k < |l.members| ==>
               Inside(RangeOf(l.members[k]), Range(0, 8 * l.width)) && Placed(l.members[k]))
            && (forall n :: n in l.memberMap ==> Placed(l.memberMap[n]) && Owned(l, RangeOf(l.memberMap[n])))
  {
    BuildKind(Start(true), ds);
  }

  /** Structures stay structures. */
  lemma {:induction false} BuildKind(l: Layout, ds: seq<Decl>)
    requires Valid(l) && forall i :: 0 <= i < |ds| ==> Proper(ds[i])
    ensures Build(l, ds).Laid? ==> Build(l, ds).l.isStruct == l.isStruct
    decreases |ds|
  {
    if ds != [] && AddDecl(l, ds[0]).Laid? { BuildKind(AddDecl(l, ds[0]).l, ds[1..]); }
  }

  lemma DeclWidthFits(l: Layout, d: Decl)
    requires Valid(l) && WidthFits(l) && l.isStruct && Proper(d) && !d.Anonymous? && AddDecl(l, d).Laid?
    ensures Valid(AddDecl(l, d).l) && WidthFits(AddDecl(l, d).l) && AddDecl(l, d).l.isStruct
  {
    hide Valid, WidthFits, SpotFor;
    match d
    case Ordinary(name, size, align) =>
      MemberValid(l, name, size, align);
      MemberWidthFits(l, name, size, align);
    case BitField(named, name, unit, bits) =>
      var spot := SpotFor(l, unit, bits);
      SpotIsFree(l, unit, bits);
      BitFieldValid(l, named, name, unit, bits);
      BitFieldWidthFits(l, named, name, unit, spot.begin, bits, spot.at);
  }

  /** As long as nothing is merged, the width of a structure is a multiple of its alignment. */
  lemma {:induction false} BuildWidthFits(l: Layout, ds: seq<Decl>)
    requires Valid(l) && WidthFits(l) && l.isStruct
    requires forall i :: 0 <= i < |ds| ==> Proper(ds[i]) && !ds[i].Anonymous?
    ensures Build(l, ds).Laid? ==> WidthFits(Build(l, ds).l)
    decreases |ds|
  {
    hide Valid, WidthFits, AddDecl;
    if ds != [] && AddDecl(l, ds[0]).Laid? {
      DeclWidthFits(l, ds[0]);
      BuildWidthFits(AddDecl(l, ds[0]).l, ds[1..]);
    }
  }

  /** Declarations that merge nothing. */
  ghost predicate PlainDecls(ds: seq<Decl>) {
    forall i :: 0 <= i < |ds| ==> Proper(ds[i]) && !ds[i].Anonymous?
  }

  /** Whatever plain members follow, the width of the structure is a multiple of its alignment. */
  ghost predicate StaysMultiple(l: Layout)
    requires Valid(l)
  {
    forall ds :: PlainDecls(ds) && Build(l, ds).Laid? ==>
        Build(l, ds).l.align > 0 && Build(l, ds).l.width % Build(l, ds).l.align == 0
  }

  /** Bit-fields of one byte each. */
  function ByteFields(k: nat): seq<Decl> {
    seq(k, i => BitField(false, "", 1, 8))
  }

  lemma ByteFieldAdds(l: Layout)
    requires Valid(l) && l.isStruct
    ensures AddDecl(l, BitField(false, "", 1, 8)).Laid?
    ensures var l' := AddDecl(l, BitField(false, "", 1, 8)).l;
            && l'.isStruct && l'.offset == l.offset + 1 && l'.align == l.align && l'.bitFieldAlign == l.bitFieldAlign
            && l'.bitFieldAlign > 0 && l'.width == RoundUp(l'.offset, l'.bitFieldAlign)
  {
    Parts(l);
    Rounded(l.offset, 1, l.offset);
    Rounded(8, 8, 8);
    hide RoundUp;
    assert SpotFor(l, 1, 8) == Spot(l.offset, 0);
  }

  lemma {:induction false} ByteRun(l: Layout, k: nat)
    requires Valid(l) && l.isStruct && k > 0
    ensures PlainDecls(ByteFields(k)) && Build(l, ByteFields(k)).Laid?
    ensures var l' := Build(l, ByteFields(k)).l;
            && l'.offset == l.offset + k && l'.align == l.align && l'.bitFieldAlign == l.bitFieldAlign
            && l'.bitFieldAlign > 0 && l'.width == RoundUp(l'.offset, l'.bitFieldAlign)
    decreases k
  {
    hide RoundUp, AddDecl, Valid;
    ByteFieldAdds(l);
    var l1 := AddDecl(l, BitField(false, "", 1, 8)).l;
    assert ByteFields(k)[0] == BitField(false, "", 1, 8) && ByteFields(k)[1..] == ByteFields(k - 1);
    if k > 1 { ByteRun(l1, k - 1); } else { assert ByteFields(0) == []; }
  }

  /** The first place behind a multiple of `a`, rounded up to the smaller `b`. */
  lemma FirstBehind(n: nat, a: nat, b: nat) returns (k: nat)
    requires 0 < b < a && a % b == 0
    ensures k > 0 && RoundUp(n + k, b) % a == b
  {
    var q := n / a + 1;
    DivMod(n, a);
    assert q * a == (n / a) * a + a;
    k := q * a + 1 - n;
    ModShift(0, q, a);
    hide RoundUp;
    MultipleOfMultiple(q * a, a, b);
    ModShift(0, 1, b);
    MultipleSum(q * a, b, b);
    Rounded(n + k, b, q * a + b);
    ModShift(b, q, a);
    ModSmall(b, a);
  }

  /** With an alignment above that of bit-fields, some run of bit-fields ends behind a multiple of it. */
  lemma RunBehindMultiple(l: Layout)
    requires Valid(l) && l.isStruct && l.align > l.bitFieldAlign
    ensures !StaysMultiple(l)
  {
    hide RoundUp, Power, Build, Valid;
    Parts(l);
    PowerDivides(l.bitFieldAlign, l.align);
    var k := FirstBehind(l.offset, l.align, l.bitFieldAlign);
    ByteRun(l, k);
    assert Build(l, ByteFields(k)).l.width % l.align == l.bitFieldAlign;
  }

  /** The exact condition on a structure: its width fits now, and its alignment is not above that of bit-fields. */
  lemma StaysMultipleIff(l: Layout)
    requires Valid(l) && l.isStruct
    ensures l.align > 0
    ensures StaysMultiple(l) <==> l.width % l.align == 0 && l.align <= l.bitFieldAlign
  {
    Parts(l);
    if l.align > l.bitFieldAlign {
      RunBehindMultiple(l);
    } else if l.width % l.align == 0 {
      forall ds | PlainDecls(ds) && Build(l, ds).Laid?
        ensures WidthFits(Build(l, ds).l)
      {
        BuildWidthFits(l, ds);
      }
    } else {
      assert PlainDecls([]) && Build(l, []) == Laid(l);
    }
  }

  /** What merging an aggregate into a structure whose width fits means for all that may follow. */
  lemma MergedStaysMultipleIff(l: Layout, inner: Layout)
    requires Valid(l) && Valid(inner) && l.isStruct && StaysMultiple(l)
    ensures inner.align > 0 && l.align > 0 && Valid(WithAnony(l, inner))
    ensures StaysMultiple(WithAnony(l, inner)) <==> inner.align <= l.bitFieldAlign
  {
    StaysMultipleIff(l);
    AnonyValid(l, inner);
    AnonyWidthFitsIff(l, inner);
    StaysMultipleIff(WithAnony(l, inner));
  }

  // ---------- the type as it is built ----------

  /** Unnamed bit-fields only matter for placing. */
  function Finalized(members: seq<Member>): seq<Member> {
    if members == [] then [] else Kept(members[0]) + Finalized(members[1..])
  }

  function Kept(m: Member): seq<Member> {
    if m.bits > 0 && !m.named then [] else [m]
  }

  lemma {:induction false} FinalizedAppend(a: seq<Member>, m: Member)
    ensures Finalized(a + [m]) == Finalized(a) + Kept(m)
    decreases |a|
  {
    hide Kept;
    if a == [] {
      assert [m][1..] == [];
    } else {
      assert (a + [m])[1..] == a[1..] + [m];
      FinalizedAppend(a[1..], m);
    }
  }

  /** Exactly the unnamed bit-fields go, and the others keep their order: `at` are the places of those that stay. */
  ghost predicate Picked(at: seq<nat>, all: seq<Member>, kept: seq<Member>) {
    && |at| == |kept|
    && (forall i, j :: 0 <= i < j < |at| ==> at[i] < at[j])
    && (forall i :: 0 <= i < |at| ==> at[i] < |all| && kept[i] == all[at[i]])
    && forall k :: 0 <= k < |all| ==> (k in at <==> all[k].bits == 0 || all[k].named)
  }

  lemma PickedStays(at: seq<nat>, all: seq<Member>, kept: seq<Member>, m: Member)
    requires Picked(at, all, kept) && (m.bits == 0 || m.named)
    ensures Picked(at + [|all|], all + [m], kept + [m])
  {
    var at', all' := at + [|all|], all + [m];
    forall k | 0 <= k < |all'|
      ensures k in at' <==> all'[k].bits == 0 || all'[k].named
    {
      if k < |all| {
        assert k in at' <==> k in at;
      } else {
        assert at'[|at|] == k;
      }
    }
  }

  lemma PickedGoes(at: seq<nat>, all: seq<Member>, kept: seq<Member>, m: Member)
    requires Picked(at, all, kept) && m.bits > 0 && !m.named
    ensures Picked(at, all + [m], kept)
  {
    forall k | 0 <= k < |all + [m]|
      ensures k in at <==> (all + [m])[k].bits == 0 || (all + [m])[k].named
    {
    }
  }

  lemma {:induction false} FinalizedPicks(all: seq<Member>) returns (at: seq<nat>)
    ensures Picked(at, all, Finalized(all))
    decreases |all|
  {
    hide Picked, Finalized;
    if all == [] {
      at := [];
      NonePicked();
    } else {
      var n := |all| - 1;
      at := FinalizedPicks(all[..n]);
      FinalizedAppend(all[..n], all[n]);
      assert all == all[..n] + [all[n]];
      if all[n].bits == 0 || all[n].named {
        PickedStays(at, all[..n], Finalized(all[..n]), all[n]);
        at := at + [n];
      } else {
        PickedGoes(at, all[..n], Finalized(all[..n]), all[n]);
        assert Finalized(all[..n]) + [] == Finalized(all[..n]);
      }
    }
  }

  lemma NonePicked()
    ensures Picked([], [], Finalized([]))
  {
  }

  // ---------- where things go ----------

  predicate Multiple(x: nat, a: nat)
    requires a > 0
  {
    x % a == 0
  }

  /** The first byte at or behind the bit `end` that is a multiple of `a`. */
  ghost predicate FirstFrom(x: nat, end: nat, a: nat)
    requires a > 0
  {
    Multiple(x, a) && end <= 8 * x && forall y: nat :: Multiple(y, a) && end <= 8 * y ==> x <= y
  }

  lemma RoundUpFirst(n: nat, end: nat, a: nat)
    requires a > 0 && end <= 8 * n < end + 8
    ensures FirstFrom(RoundUp(n, a), end, a)
  {
    RoundUpBounds(n, a);
    var x := RoundUp(n, a);
    hide RoundUp;
    forall y: nat | Multiple(y, a) && end <= 8 * y
      ensures x <= y
    {
      if y < x { NextMultiple(y, x, a); }
    }
  }

  /** The bit behind the last entry. */
  function EndBit(members: seq<Member>): nat {
    if members == [] then 0 else EndOf(members[|members| - 1])
  }

  /** One entry more, and the names it gives. */
  predicate OneMore(l: Layout, l': Layout, m: Member, names: map<string, Member>) {
    && l'.isStruct == l.isStruct && l'.members == l.members + [m] && l'.memberMap == l.memberMap + names
  }

  /** What an ordinary member does to a type: in a structure it is at the first multiple of its alignment behind the
      last entry, and the type ends at the first multiple of its own alignment behind the member. */
  ghost predicate MemberPlaced(l: Layout, l': Layout, name: string, size: nat, align: nat)
    requires l.align > 0 && align > 0
  {
    exists at: nat ::
      && OneMore(l, l', Member(true, at, size, align, 0, 0), map[name := Member(true, at, size, align, 0, 0)])
      && (if l.isStruct then FirstFrom(at, EndBit(l.members), align) else at == 0)
      && l'.align == Max(l.align, align) && l'.bitFieldAlign == Max(l.bitFieldAlign, l'.align)
      && FirstFrom(l'.width, if l.isStruct then EndBit(l'.members) else 8 * Max(l.width, size), l'.align)
  }

  lemma MemberIsPlaced(l: Layout, name: string, size: nat, align: nat)
    requires Valid(l) && Power(align)
    ensures l.align > 0 && align > 0 && MemberPlaced(l, WithMember(l, name, size, align), name, size, align)
  {
    hide Valid, InOrder, Power, RoundUp, FirstFrom;
    PowerPositive(align);
    Parts(l);
    var l' := WithMember(l, name, size, align);
    var at := RoundUp(l.offset, align);
    var m := Member(true, at, size, align, 0, 0);
    if l.isStruct {
      EndIs(l);
      RoundUpFirst(l.offset, EndBit(l.members), align);
      RoundUpFirst(at + size, EndOf(m), l'.align);
    } else {
      RoundUpZero(align);
      RoundUpFirst(Max(l.width, size), 8 * Max(l.width, size), l'.align);
    }
    assert OneMore(l, l', m, map[name := m]);
  }

  /** The next free byte of a structure follows from its last entry. */
  lemma EndIs(l: Layout)
    requires Valid(l) && l.isStruct
    ensures EndBit(l.members) <= 8 * l.offset < EndBit(l.members) + 8
  {
  }

  /** A bit-field: right behind the last entry when it ends within the first unit of the structure, otherwise at the
      first unit behind it. */
  ghost predicate BitFieldPlaced(l: Layout, l': Layout, named: bool, name: string, unit: nat, bits: nat)
    requires unit > 0 && l.bitFieldAlign > 0
  {
    exists at: nat, begin: nat ::
      && OneMore(l, l', Member(named, at, unit, unit, begin, bits),
                 if named then map[name := Member(named, at, unit, unit, begin, bits)] else map[])
      && (if !l.isStruct then at == 0 && begin == 0
          else if bits + EndBit(l.members) <= 8 * unit then 8 * at + begin == EndBit(l.members) && begin < 8
          else FirstFrom(at, EndBit(l.members), unit) && begin == 0)
      && l'.align == l.align && l'.bitFieldAlign == Max(l.bitFieldAlign, unit)
      && (if l.isStruct then FirstFrom(l'.width, EndBit(l'.members), l'.bitFieldAlign)
          else l'.width == Max(l.width, unit))
  }

  /** A width is accepted exactly if it is positive and fits the type. */
  lemma SpotIff(l: Layout, unit: nat, bits: int)
    requires unit > 0
    ensures SpotFor(l, unit, bits).Spot? <==> 0 < bits <= 8 * unit
    ensures SpotFor(l, unit, bits).Refused? ==>
              SpotFor(l, unit, bits).error
              == if bits < 0 then NegativeWidth else if bits == 0 then ZeroWidthNamed else TooWide
  {
  }

  lemma BitFieldIsPlaced(l: Layout, named: bool, name: string, unit: nat, bits: nat)
    requires Valid(l) && unit in {1, 2, 4, 8} && 0 < bits <= 8 * unit
    ensures var spot := SpotFor(l, unit, bits);
            && spot.Spot? && l.bitFieldAlign > 0
            && BitFieldPlaced(l, WithBitField(l, named, name, unit, spot.begin, bits, spot.at), named, name, unit, bits)
  {
    hide Valid, InOrder, Power, RoundUp, FirstFrom, SpotFor;
    SpotIff(l, unit, bits);
    Parts(l);
    SpotBehind(l, unit, bits);
    var spot := SpotFor(l, unit, bits);
    var l' := WithBitField(l, named, name, unit, spot.begin, bits, spot.at);
    var m := Member(named, spot.at, unit, unit, spot.begin, bits);
    BytesFor(spot.begin + bits);
    if l.isStruct {
      RoundUpFirst(spot.at + RoundUp(spot.begin + bits, 8) / 8, EndOf(m), l'.bitFieldAlign);
    }
    assert OneMore(l, l', m, if named then map[name := m] else map[]);
  }

  lemma SpotBehind(l: Layout, unit: nat, bits: nat)
    requires Valid(l) && unit > 0 && SpotFor(l, unit, bits).Spot?
    ensures var spot := SpotFor(l, unit, bits);
            if !l.isStruct then spot.at == 0 && spot.begin == 0
            else if bits + EndBit(l.members) <= 8 * unit
            then 8 * spot.at + spot.begin == EndBit(l.members) && spot.begin < 8
            else FirstFrom(spot.at, EndBit(l.members), unit) && spot.begin == 0
  {
    hide FirstFrom, RoundUp, InOrder, Valid;
    if l.isStruct {
      EndIs(l);
      RoundUpFirst(l.offset, EndBit(l.members), unit);
    }
  }

  /** A merged aggregate lies where an ordinary member of its width and alignment would. */
  ghost predicate AnonyPlaced(l: Layout, l': Layout, inner: Layout)
    requires l.align > 0 && inner.align > 0
  {
    exists at: nat ::
      && OneMore(l, l', Member(false, at, inner.width, inner.align, 0, 0),
                 map n | n in inner.memberMap :: inner.memberMap[n].(offset := inner.memberMap[n].offset + at))
      && (if l.isStruct then FirstFrom(at, EndBit(l.members), inner.align) else at == 0)
      && l'.align == Max(l.align, inner.align) && l'.bitFieldAlign == l.bitFieldAlign
      && (if l.isStruct then FirstFrom(l'.width, EndBit(l'.members), l'.align)
          else l'.width == Max(l.width, inner.width))
  }

  lemma AnonyIsPlaced(l: Layout, inner: Layout)
    requires Valid(l) && Valid(inner)
    ensures l.align > 0 && inner.align > 0 && AnonyPlaced(l, WithAnony(l, inner), inner)
  {
    hide Valid, InOrder, Power, RoundUp, FirstFrom;
    Parts(l);
    Parts(inner);
    var l' := WithAnony(l, inner);
    var at := RoundUp(l.offset, inner.align);
    if l.isStruct {
      EndIs(l);
      RoundUpFirst(l.offset, EndBit(l.members), inner.align);
      RoundUpFirst(at + inner.width, 8 * (at + inner.width), l'.align);
    } else {
      RoundUpZero(inner.align);
    }
    assert OneMore(l, l', Member(false, at, inner.width, inner.align, 0, 0), Shifted(inner.memberMap, at));
  }

  class StructType {
    const isStruct: bool
    var members: seq<Member>
    var memberMap: map<string, Member>
    var offset: nat
    var width: nat
    var align: nat
    var bitFieldAlign: nat

    constructor (isStruct: bool)
      ensures State() == Start(isStruct)
    {
      this.isStruct := isStruct;
      members, memberMap := [], map[];
      offset, width, align, bitFieldAlign := 0, 0, 1, 1;
    }

    ghost function State(): Layout
      reads this
    {
      Layout(isStruct, members, memberMap, offset, width, align, bitFieldAlign)
    }

    method AddMember(name: string, size: nat, memberAlign: nat)
      requires memberAlign > 0 && align > 0 && name !in memberMap
      modifies this
      ensures State() == WithMember(old(State()), name, size, memberAlign)
      ensures Valid(old(State())) && Power(memberAlign) ==>
                MemberPlaced(old(State()), State(), name, size, memberAlign)
    {
      hide Valid, Power, MemberPlaced;
      if Valid(State()) && Power(memberAlign) { MemberIsPlaced(State(), name, size, memberAlign); }
      var at := MakeAlign(offset, memberAlign);
      members := members + [Member(true, at, size, memberAlign, 0, 0)];
      memberMap := memberMap[name := Member(true, at, size, memberAlign, 0, 0)];
      align := Max(align, memberAlign);
      bitFieldAlign := Max(bitFieldAlign, align);
      if isStruct {
        offset := at + size;
        width := MakeAlign(offset, align);
      } else {
        width := Max(width, size);
        width := MakeAlign(width, align);
      }
    }

    method AddBitField(named: bool, name: string, unit: nat, begin: nat, bits: nat, at: nat)
      requires unit > 0 && bits > 0 && bitFieldAlign > 0 && (named ==> name !in memberMap)
      modifies this
      ensures State() == WithBitField(old(State()), named, name, unit, begin, bits, at)
    {
      members := members + [Member(named, at, unit, unit, begin, bits)];
      if named { memberMap := memberMap[name := Member(named, at, unit, unit, begin, bits)]; }
      var bytes := MakeAlign(begin + bits, 8) / 8;
      bitFieldAlign := Max(bitFieldAlign, unit);
      if isStruct {
        offset := at + bytes;
        width := MakeAlign(offset, Max(bitFieldAlign, unit));
      } else {
        width := Max(width, unit);
      }
    }

    method ParseBitField(named: bool, name: string, unit: nat, bits: int) returns (error: Option<BitFieldError>)
      requires unit > 0 && bitFieldAlign > 0 && (named || bits != 0) && (named ==> name !in memberMap)
      modifies this
      ensures match SpotFor(old(State()), unit, bits)
              case Refused(e) => error == Some(e)
              case Spot(at, begin) =>
                error.None? && 0 < bits && State() == WithBitField(old(State()), named, name, unit, begin, bits, at)
      ensures error == if bits < 0 then Some(NegativeWidth) else if bits == 0 then Some(ZeroWidthNamed)
                       else if bits > 8 * unit then Some(TooWide) else None
      ensures error.None? && Valid(old(State())) && unit in {1, 2, 4, 8} ==>
                BitFieldPlaced(old(State()), State(), named, name, unit, bits)
    {
      hide MakeAlign, WithBitField, Valid, BitFieldPlaced;
      if Valid(State()) && unit in {1, 2, 4, 8} && 0 < bits <= 8 * unit {
        BitFieldIsPlaced(State(), named, name, unit, bits);
      }
      if bits < 0 { return Some(NegativeWidth); }
      if bits == 0 { return Some(ZeroWidthNamed); }
      if bits > 8 * unit { return Some(TooWide); }
      var at, begin := 0, 0;
      if isStruct && |members| > 0 {
        var last := members[|members| - 1];
        var totalBits := last.offset * 8;
        if last.bits > 0 {
          totalBits := totalBits + last.begin + last.bits;
        } else {
          totalBits := totalBits + last.size * 8;
        }
        if bits + totalBits <= unit * 8 {
          begin := totalBits % 8;
          at := totalBits / 8;
        } else {
          at := MakeAlign(offset, unit);
        }
      }
      AddBitField(named, name, unit, begin, bits, at);
      return None;
    }

    /** `false` when a name of the aggregate is taken. */
    method MergeAnony(inner: StructType) returns (ok: bool)
      requires inner != this && inner.align > 0 && align > 0
      modifies this
      ensures ok <==> old(inner.memberMap.Keys) !! old(memberMap.Keys)
      ensures ok ==> State() == WithAnony(old(State()), old(inner.State()))
      ensures ok && Valid(old(State())) && Valid(old(inner.State())) ==>
                AnonyPlaced(old(State()), State(), old(inner.State()))
    {
      hide Valid, AnonyPlaced;
      if Valid(State()) && Valid(inner.State()) { AnonyIsPlaced(State(), inner.State()); }
      var at := MakeAlign(offset, inner.align);
      var todo := inner.memberMap.Keys;
      while todo != {}
        invariant todo <= inner.memberMap.Keys
        invariant unchanged(`members, `offset, `width, `align, `bitFieldAlign)
        invariant memberMap.Keys == old(memberMap.Keys) + (inner.memberMap.Keys - todo)
        invariant (inner.memberMap.Keys - todo) !! old(memberMap.Keys)
        invariant forall n :: n in memberMap ==>
                    memberMap[n] == if n in old(memberMap) then old(memberMap)[n] else Shifted(inner.memberMap, at)[n]
        decreases todo
      {
        var n :| n in todo;
        if n in memberMap { return false; }
        memberMap := memberMap[n := Moved(inner.memberMap[n], at)];
        todo := todo - {n};
      }
      assert memberMap == old(memberMap) + Shifted(inner.memberMap, at);
      members := members + [Member(false, at, inner.width, inner.align, 0, 0)];
      align := Max(align, inner.align);
      if isStruct {
        offset := at + inner.width;
        width := MakeAlign(offset, align);
      } else {
        width := Max(width, inner.width);
      }
      return true;
    }

    method Finalize()
      modifies this`members
      ensures members == Finalized(old(members))
      ensures exists at :: Picked(at, old(members), members)
    {
      ghost var at := FinalizedPicks(members);
      var kept: seq<Member> := [];
      for i := 0 to |members|
        invariant members == old(members) && kept == Finalized(members[..i])
      {
        assert members[..i + 1] == members[..i] + [members[i]];
        FinalizedAppend(members[..i], members[i]);
        if members[i].bits == 0 || members[i].named { kept := kept + [members[i]]; }
      }
      assert members[..|members|] == members;
      members := kept;
    }
  }
}
