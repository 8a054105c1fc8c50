/** Where every declaration of a structure or union goes, for whole lists of declarations. */
module StructPlaces {
  import opened StructLayout

  /** The alignment that a declaration brings to its type; bit-fields bring none. */
  function Brings(d: Decl): nat
    requires Proper(d)
  {
    match d
    case Ordinary(_, _, align) => align
    case BitField(_, _, _, _) => 1
    case Anonymous(isStruct, ds) => if Build(Start(isStruct), ds).Laid? then Build(Start(isStruct), ds).l.align else 1
  }

  /** The alignment of a type is the largest that its declarations bring. */
  function Alignment(ds: seq<Decl>): nat
    requires forall i :: 0 <= i < |ds| ==> Proper(ds[i])
  {
    if ds == [] then 1 else Max(Brings(ds[0]), Alignment(ds[1..]))
  }

  /** The entry of a declaration that begins looking for its place at the bit `end`. */
  ghost predicate Follows(d: Decl, end: nat, m: Member)
    requires Proper(d)
  {
    match d
    case Ordinary(_, size, align) =>
      PowerPositive(align);
      m == Member(true, m.offset, size, align, 0, 0) && FirstFrom(m.offset, end, align)
    case BitField(named, _, unit, bits) =>
      && m.named == named && m.size == unit && m.align == unit && m.bits == bits
      && if bits + end <= 8 * unit then 8 * m.offset + m.begin == end && m.begin < 8
         else m.begin == 0 && FirstFrom(m.offset, end, unit)
    case Anonymous(isStruct, ds) =>
      var inner := Build(Start(isStruct), ds);
      && inner.Laid? && inner.l.align > 0
      && m == Member(false, m.offset, inner.l.width, inner.l.align, 0, 0) && FirstFrom(m.offset, end, inner.l.align)
  }

  /** Each new entry is placed by where the one before it ends. */
  ghost predicate InPlace(before: seq<Member>, ds: seq<Decl>, all: seq<Member>)
    requires forall i :: 0 <= i < |ds| ==> Proper(ds[i])
  {
    && |all| == |before| + |ds| && before == all[..|before|]
    && forall k :: 0 <= k < |ds| ==> Follows(ds[k], EndBit(all[..|before| + k]), all[|before| + k])
  }

  /** A structure ends at the first multiple of its alignment behind the last entry; of the alignment kept for
      bit-fields when that entry is one. */
  ghost predicate Ended(l: Layout, last: Decl) {
    var align := if last.BitField? then l.bitFieldAlign else l.align;
    align > 0 && FirstFrom(l.width, EndBit(l.members), align)
  }

  /** What one declaration does to a structure. */
  ghost predicate Step(l: Layout, d: Decl, l': Layout)
    requires Proper(d)
  {
    && l'.isStruct && |l'.members| == |l.members| + 1 && l'.members[..|l.members|] == l.members
    && Follows(d, EndBit(l.members), l'.members[|l.members|])
    && l'.align == Max(l.align, Brings(d)) && Ended(l', d)
  }

  lemma MemberStep(l: Layout, name: string, size: nat, align: nat)
    requires Valid(l) && l.isStruct && Proper(Ordinary(name, size, align))
    ensures l.align > 0 && align > 0 && Step(l, Ordinary(name, size, align), WithMember(l, name, size, align))
  {
    MemberIsPlaced(l, name, size, align);
    hide Valid, FirstFrom, WithMember, EndBit, Power;
  }

  lemma BitFieldStep(l: Layout, named: bool, name: string, unit: nat, bits: int)
    requires Valid(l) && l.isStruct && unit in {1, 2, 4, 8} && SpotFor(l, unit, bits).Spot?
    requires Proper(BitField(named, name, unit, bits))
    ensures var spot := SpotFor(l, unit, bits);
            0 < bits && l.bitFieldAlign > 0 &&
            Step(l, BitField(named, name, unit, bits), WithBitField(l, named, name, unit, spot.begin, bits, spot.at))
  {
    hide Valid, FirstFrom, WithBitField, EndBit, SpotFor;
    SpotIff(l, unit, bits);
    BitFieldIsPlaced(l, named, name, unit, bits);
    AlignsPositive(l);
  }

  lemma AlignsPositive(l: Layout)
    requires Valid(l)
    ensures l.align > 0 && l.bitFieldAlign > 0
  {
    Parts(l);
  }

  lemma StartValid(isStruct: bool)
    ensures Valid(Start(isStruct))
  {
  }

  lemma AnonyStep(l: Layout, isStruct: bool, ds: seq<Decl>)
    requires Valid(l) && l.isStruct && Proper(Anonymous(isStruct, ds)) && Build(Start(isStruct), ds).Laid?
    ensures var inner := Build(Start(isStruct), ds).l;
            l.align > 0 && inner.align > 0 && Step(l, Anonymous(isStruct, ds), WithAnony(l, inner))
  {
    hide Valid, FirstFrom, WithAnony, EndBit, Build;
    StartValid(isStruct);
    AnonyIsPlaced(l, Build(Start(isStruct), ds).l);
  }

  lemma OneFollows(l: Layout, d: Decl)
    requires Proper(d) && Valid(l) && l.isStruct && AddDecl(l, d).Laid?
    ensures Step(l, d, AddDecl(l, d).l)
  {
    hide Valid, Step, WithMember, WithBitField, WithAnony, SpotFor;
    match d
    case Ordinary(name, size, align) => MemberStep(l, name, size, align);
    case BitField(named, name, unit, bits) => BitFieldStep(l, named, name, unit, bits);
    case Anonymous(isStruct, ds) => AnonyStep(l, isStruct, ds);
  }

  lemma {:induction false} RunFollows(l: Layout, ds: seq<Decl>)
    requires Valid(l) && l.isStruct && (forall i :: 0 <= i < |ds| ==> Proper(ds[i])) && Build(l, ds).Laid?
    ensures InPlace(l.members, ds, Build(l, ds).l.members) && Build(l, ds).l.isStruct
    ensures Build(l, ds).l.align == Max(l.align, Alignment(ds))
    ensures ds != [] ==> Ended(Build(l, ds).l, ds[|ds| - 1])
    decreases |ds|
  {
    hide Valid, AddDecl, Follows, Ended, EndBit, Brings;
    AlignsPositive(l);
    if ds != [] {
      OneFollows(l, ds[0]);
      var l1, all := AddDecl(l, ds[0]).l, Build(l, ds).l.members;
      RunFollows(l1, ds[1..]);
      assert |ds| > 1 ==> ds[1..][|ds| - 2] == ds[|ds| - 1];
      assert all[..|l.members|] == all[..|l1.members|][..|l.members|] == l.members;
      forall k | 0 <= k < |ds|
        ensures Follows(ds[k], EndBit(all[..|l.members| + k]), all[|l.members| + k])
      {
        if k == 0 {
          assert all[|l.members|] == l1.members[|l.members|];
        } else {
          assert ds[1..][k - 1] == ds[k] && |l1.members| + (k - 1) == |l.members| + k;
        }
      }
    }
  }

  /** Every entry of a structure is where its declaration and the end of the entry before it put it: as far in front as
      its alignment allows, bit-fields next to each other while they end within the first unit. */
  lemma StructInPlace(ds: seq<Decl>)
    requires (forall i :: 0 <= i < |ds| ==> Proper(ds[i])) && Build(Start(true), ds).Laid?
    ensures var l := Build(Start(true), ds).l;
            && InPlace([], ds, l.members)
            && l.align == Alignment(ds)
            && (ds != [] ==> Ended(l, ds[|ds| - 1]))
  {
    RunFollows(Start(true), ds);
    AlignmentPositive(ds);
  }

  lemma {:induction false} AlignmentPositive(ds: seq<Decl>)
    requires forall i :: 0 <= i < |ds| ==> Proper(ds[i])
    ensures Alignment(ds) >= 1
    decreases |ds|
  {
    if ds != [] { AlignmentPositive(ds[1..]); }
  }

  // ---------- unions ----------

  function Largest(ds: seq<Decl>): nat
    requires forall i :: 0 <= i < |ds| ==> ds[i].Ordinary?
  {
    if ds == [] then 0 else Max(Largest(ds[..|ds| - 1]), ds[|ds| - 1].size)
  }

  /** The first multiple of a larger power of two is not before that of a smaller one. */
  lemma FirstAgain(x: nat, size: nat, a: nat, y: nat, more: nat, b: nat)
    requires Power(a) && Power(b) && a <= b && a > 0 && b > 0
    requires FirstFrom(x, 8 * size, a) && FirstFrom(y, 8 * Max(x, more), b)
    ensures FirstFrom(y, 8 * Max(size, more), b)
  {
    PowerDivides(a, b);
    forall z: nat | Multiple(z, b) && 8 * Max(size, more) <= 8 * z
      ensures y <= z
    {
      MultipleOfMultiple(z, b, a);
      assert Multiple(z, a);
    }
  }

  /** In a union every ordinary member is at 0, and the width is the first multiple of the alignment that covers the
      largest. */
  lemma {:induction false} UnionInPlace(ds: seq<Decl>)
    requires (forall i :: 0 <= i < |ds| ==> Proper(ds[i]) && ds[i].Ordinary?) && Build(Start(false), ds).Laid?
    ensures var l := Build(Start(false), ds).l;
            && !l.isStruct && l.align > 0 && FirstFrom(l.width, 8 * Largest(ds), l.align)
            && |l.members| == |ds|
            && forall k :: 0 <= k < |ds| ==> l.members[k] == Member(true, 0, ds[k].size, ds[k].align, 0, 0)
    decreases |ds|
  {
    hide Valid, FirstFrom, Build;
    StartValid(false);
    if ds == [] {
      NoneBuilt(Start(false));
      ZeroFirst();
    } else {
      BuildLast(Start(false), ds);
      UnionInPlace(ds[..|ds| - 1]);
      UnionStep(Build(Start(false), ds[..|ds| - 1]).l, ds[|ds| - 1], Largest(ds[..|ds| - 1]));
    }
  }

  lemma NoneBuilt(l: Layout)
    requires Valid(l)
    ensures Build(l, []) == Laid(l)
  {
  }

  lemma UnionStep(l: Layout, d: Decl, size: nat)
    requires Valid(l) && !l.isStruct && Proper(d) && d.Ordinary? && AddDecl(l, d).Laid?
    requires l.align > 0 && FirstFrom(l.width, 8 * size, l.align)
    ensures var l' := AddDecl(l, d).l;
            && !l'.isStruct && l'.align > 0 && FirstFrom(l'.width, 8 * Max(size, d.size), l'.align)
            && l'.members == l.members + [Member(true, 0, d.size, d.align, 0, 0)]
  {
    hide Valid, FirstFrom, WithMember, Power;
    var l' := AddDecl(l, d).l;
    ProperPower(d);
    MemberIsPlaced(l, d.name, d.size, d.align);
    Powers(l);
    Powers(l');
    FirstAgain(l.width, size, l.align, l'.width, d.size, l'.align);
  }

  lemma ProperPower(d: Decl)
    requires Proper(d) && d.Ordinary?
    ensures Power(d.align)
  {
  }

  lemma Powers(l: Layout)
    requires Valid(l)
    ensures Power(l.align)
  {
  }

  lemma ZeroFirst()
    ensures FirstFrom(0, 0, 1)
  {
  }

  lemma {:induction false} BuildLast(l: Layout, ds: seq<Decl>)
    requires Valid(l) && ds != [] && (forall i :: 0 <= i < |ds| ==> Proper(ds[i])) && Build(l, ds).Laid?
    ensures var b := Build(l, ds[..|ds| - 1]);
            b.Laid? && AddDecl(b.l, ds[|ds| - 1]).Laid? && Build(l, ds).l == AddDecl(b.l, ds[|ds| - 1]).l
    decreases |ds|
  {
    hide Valid, AddDecl;
    if |ds| > 1 {
      BuildLast(AddDecl(l, ds[0]).l, ds[1..]);
      assert ds[1..][..|ds| - 2] == ds[..|ds| - 1][1..];
    }
  }
}
