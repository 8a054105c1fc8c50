/** The names of a structure, through all its anonymous aggregates: what each stands for, and that no two share bits
    unless a union is meant to. */
module StructNames {
  import opened StructLayout

  function NamesOf(d: Decl): set<string>
    decreases d
  {
    match d
    case Ordinary(name, _, _) => {name}
    case BitField(named, name, _, _) => if named then {name} else {}
    case Anonymous(_, ds) => Names(ds)
  }

  function Names(ds: seq<Decl>): set<string>
    decreases ds
  {
    if ds == [] then {} else NamesOf(ds[0]) + Names(ds[1..])
  }

  lemma {:induction false} NamesAt(ds: seq<Decl>, n: string)
    ensures n in Names(ds) <==> exists k :: 0 <= k < |ds| && n in NamesOf(ds[k])
    decreases |ds|
  {
    if ds != [] {
      NamesAt(ds[1..], n);
      if n in Names(ds[1..]) {
        var k :| 0 <= k < |ds| - 1 && n in NamesOf(ds[1..][k]);
        assert n in NamesOf(ds[k + 1]);
      }
      if k :| 0 < k < |ds| && n in NamesOf(ds[k]) { assert n in NamesOf(ds[1..][k - 1]); }
    }
  }

  /** An anonymous union, however deep, holds both names. */
  predicate HeldByUnion(ds: seq<Decl>, a: string, b: string)
    decreases ds
  {
    exists k :: 0 <= k < |ds| && ds[k].Anonymous? && a in NamesOf(ds[k]) && b in NamesOf(ds[k])
                && (!ds[k].isStruct || HeldByUnion(ds[k].decls, a, b))
  }

  /** A declaration, however deep, gives the name this size and alignment, or this unit and number of bits. */
  predicate Declares(ds: seq<Decl>, n: string, m: Member)
    decreases ds
  {
    exists k :: 0 <= k < |ds| && DeclaresOne(ds[k], n, m)
  }

  predicate DeclaresOne(d: Decl, n: string, m: Member)
    decreases d
  {
    match d
    case Ordinary(name, size, align) => name == n && m.size == size && m.align == align && m.bits == 0
    case BitField(named, name, unit, bits) => named && name == n && m.size == unit && m.bits == bits
    case Anonymous(_, ds) => Declares(ds, n, m)
  }

  ghost predicate AllProper(ds: seq<Decl>) {
    forall i :: 0 <= i < |ds| ==> Proper(ds[i])
  }

  /** What a name of one declaration stands for, when the declaration has the entry `e`. */
  ghost predicate Stands(d: Decl, e: Member, n: string, m: Member)
    requires Proper(d)
  {
    && Inside(RangeOf(m), RangeOf(e)) && DeclaresOne(d, n, m)
    && (d.Anonymous? ==>
          var inner := Build(Start(d.isStruct), d.decls);
          inner.Laid? && n in inner.l.memberMap && m == Moved(inner.l.memberMap[n], e.offset))
  }

  /** One entry for each declaration, and every name of a declaration in the map. */
  ghost predicate Describes(l: Layout, ds: seq<Decl>)
    requires AllProper(ds)
  {
    && |l.members| == |ds| && l.memberMap.Keys == Names(ds)
    && (forall k, n :: 0 <= k < |ds| && n in NamesOf(ds[k]) ==>
          n in l.memberMap && Stands(ds[k], l.members[k], n, l.memberMap[n]))
  }

  lemma {:induction false} NamesAppend(ds: seq<Decl>, d: Decl)
    ensures Names(ds + [d]) == Names(ds) + NamesOf(d)
    decreases |ds|
  {
    if ds == [] {
      assert [d][1..] == [];
    } else {
      assert (ds + [d])[0] == ds[0] && (ds + [d])[1..] == ds[1..] + [d];
      NamesAppend(ds[1..], d);
    }
  }

  /** The new declaration has an entry and names of its own; the old ones keep theirs. */
  lemma DescribesMore(l: Layout, ds: seq<Decl>, d: Decl, l': Layout, e: Member)
    requires AllProper(ds) && Proper(d) && Describes(l, ds) && l'.members == l.members + [e]
    requires l'.memberMap.Keys == l.memberMap.Keys + NamesOf(d) && NamesOf(d) !! l.memberMap.Keys
    requires forall n :: n in l.memberMap ==> l'.memberMap[n] == l.memberMap[n]
    requires forall n :: n in NamesOf(d) ==> n in l'.memberMap && Stands(d, e, n, l'.memberMap[n])
    ensures AllProper(ds + [d]) && Describes(l', ds + [d])
  {
    NamesAppend(ds, d);
    hide Stands, Names, NamesOf;
    forall k, n | 0 <= k < |ds + [d]| && n in NamesOf((ds + [d])[k])
      ensures n in l'.memberMap && Stands((ds + [d])[k], l'.members[k], n, l'.memberMap[n])
    {
      if k < |ds| { assert Stands(ds[k], l.members[k], n, l.memberMap[n]); }
    }
  }

  lemma StartValid(isStruct: bool)
    ensures Valid(Start(isStruct))
  {
  }

  /** What a declaration that merges nothing adds. */
  lemma PlainAdds(l: Layout, d: Decl)
    requires Valid(l) && Proper(d) && !d.Anonymous? && AddDecl(l, d).Laid?
    ensures var l' := AddDecl(l, d).l;
            && |l'.members| == |l.members| + 1
            && var e := l'.members[|l.members|];
            && l'.members == l.members + [e] && NamesOf(d) !! l.memberMap.Keys
            && l'.memberMap.Keys == l.memberMap.Keys + NamesOf(d)
            && (forall n :: n in l.memberMap ==> l'.memberMap[n] == l.memberMap[n])
            && (forall n :: n in NamesOf(d) ==> l'.memberMap[n] == e && Stands(d, e, n, e))
  {
    hide Valid, RoundUp, SpotFor;
  }

  /** What an anonymous aggregate adds. */
  lemma AnonyAdds(l: Layout, d: Decl)
    requires Valid(l) && Proper(d) && d.Anonymous? && AddDecl(l, d).Laid?
    ensures Build(Start(d.isStruct), d.decls).Laid?
    ensures var inner := Build(Start(d.isStruct), d.decls).l;
            && Valid(inner) && inner.align > 0 && l.align > 0 && AddDecl(l, d).l == WithAnony(l, inner)
            && inner.memberMap.Keys !! l.memberMap.Keys
  {
    Parts(l);
    hide Valid;
    Parts(Build(Start(d.isStruct), d.decls).l);
  }

  lemma {:induction false} AddDescribes(l: Layout, ds: seq<Decl>, d: Decl)
    requires Valid(l) && AllProper(ds) && Proper(d) && Describes(l, ds) && AddDecl(l, d).Laid?
    ensures AllProper(ds + [d]) && Describes(AddDecl(l, d).l, ds + [d])
    decreases d
  {
    hide Valid, AddDecl, Stands, Names, Build;
    var l' := AddDecl(l, d).l;
    if d.Anonymous? {
      AnonyAdds(l, d);
      StartDescribes(d.isStruct, d.decls);
      StartValid(d.isStruct);
      var inner := Build(Start(d.isStruct), d.decls).l;
      var e := l'.members[|l.members|];
      assert NamesOf(d) == inner.memberMap.Keys;
      forall n | n in NamesOf(d)
        ensures n in l'.memberMap && Stands(d, e, n, l'.memberMap[n])
      {
        AnonyStands(l, d, inner, n);
      }
      hide Describes, NamesOf;
      DescribesMore(l, ds, d, l', e);
    } else {
      PlainAdds(l, d);
      hide Describes, NamesOf;
      DescribesMore(l, ds, d, l', l'.members[|l.members|]);
    }
  }

  lemma AnonyStands(l: Layout, d: Decl, inner: Layout, n: string)
    requires Valid(l) && Valid(inner) && d.Anonymous? && Proper(d) && Build(Start(d.isStruct), d.decls) == Laid(inner)
    requires Describes(inner, d.decls) && n in NamesOf(d) && inner.align > 0 && l.align > 0
    ensures var l' := WithAnony(l, inner);
            n in l'.memberMap && Stands(d, l'.members[|l.members|], n, l'.memberMap[n])
  {
    hide Valid, RoundUp, Build, Names, Declares, Power;
    RoundUpBounds(l.offset, inner.align);
    var at := RoundUp(l.offset, inner.align);
    InnerOk(inner, n, at);
    InnerDeclares(d, inner, n);
    MovedDeclares(d, n, inner.memberMap[n], at);
    hide DeclaresOne, Describes, NamesOf;
  }

  lemma InnerDeclares(d: Decl, inner: Layout, n: string)
    requires d.Anonymous? && Proper(d) && Describes(inner, d.decls) && n in inner.memberMap
    ensures DeclaresOne(d, n, inner.memberMap[n])
  {
    NamesAt(d.decls, n);
    hide Names;
    var k :| 0 <= k < |d.decls| && n in NamesOf(d.decls[k]);
    assert Stands(d.decls[k], inner.members[k], n, inner.memberMap[n]);
  }

  /** Moving does not change what is declared. */
  lemma {:induction false} MovedDeclares(d: Decl, n: string, m: Member, at: nat)
    requires DeclaresOne(d, n, m)
    ensures DeclaresOne(d, n, Moved(m, at))
    decreases d
  {
    if d.Anonymous? {
      var k :| 0 <= k < |d.decls| && DeclaresOne(d.decls[k], n, m);
      MovedDeclares(d.decls[k], n, m, at);
    }
  }

  lemma {:induction false} StartDescribes(isStruct: bool, ds: seq<Decl>)
    requires AllProper(ds)
    ensures Build(Start(isStruct), ds).Laid? ==> Describes(Build(Start(isStruct), ds).l, ds)
    decreases ds, 1
  {
    assert Describes(Start(isStruct), []);
    assert [] + ds == ds;
    BuildDescribes(Start(isStruct), [], ds);
  }

  lemma {:induction false} BuildDescribes(l: Layout, before: seq<Decl>, ds: seq<Decl>)
    requires Valid(l) && AllProper(before) && AllProper(ds) && Describes(l, before)
    ensures AllProper(before + ds)
    ensures Build(l, ds).Laid? ==> Describes(Build(l, ds).l, before + ds)
    decreases ds, 0
  {
    if ds == [] {
      assert before + ds == before;
    } else if AddDecl(l, ds[0]).Laid? {
      AddDescribes(l, before, ds[0]);
      assert before + ds == (before + [ds[0]]) + ds[1..];
      BuildDescribes(AddDecl(l, ds[0]).l, before + [ds[0]], ds[1..]);
    }
  }

  /** The map of a structure has every declared name, at any depth, with what was declared for it; ordinary members
      are at multiples of their own alignment and bit-fields in a unit of theirs, merged ones too. */
  lemma NamesAligned(ds: seq<Decl>)
    requires AllProper(ds) && Build(Start(true), ds).Laid?
    ensures var l := Build(Start(true), ds).l;
            && l.memberMap.Keys == Names(ds)
            && forall n :: n in l.memberMap ==> Placed(l.memberMap[n]) && Declares(ds, n, l.memberMap[n])
  {
    var l := Build(Start(true), ds).l;
    StartDescribes(true, ds);
    forall n | n in l.memberMap
      ensures Placed(l.memberMap[n]) && Declares(ds, n, l.memberMap[n])
    {
      assert NameOk(l, l.memberMap[n]);
      NamesAt(ds, n);
      var k :| 0 <= k < |ds| && n in NamesOf(ds[k]);
      assert Stands(ds[k], l.members[k], n, l.memberMap[n]);
    }
    hide Valid, Names;
  }

  /** No two names of a structure share a bit, unless an anonymous union holds both. */
  lemma {:induction false} NamesApart(ds: seq<Decl>, a: string, b: string)
    requires AllProper(ds) && Build(Start(true), ds).Laid?
    requires a in Names(ds) && b in Names(ds) && a != b && !HeldByUnion(ds, a, b)
    ensures var l := Build(Start(true), ds).l;
            a in l.memberMap && b in l.memberMap && Apart(RangeOf(l.memberMap[a]), RangeOf(l.memberMap[b]))
    decreases ds
  {
    var l := Build(Start(true), ds).l;
    StartDescribes(true, ds);
    BuildKind(Start(true), ds);
    NamesAt(ds, a);
    NamesAt(ds, b);
    var i :| 0 <= i < |ds| && a in NamesOf(ds[i]);
    var j :| 0 <= j < |ds| && b in NamesOf(ds[j]);
    assert Stands(ds[i], l.members[i], a, l.memberMap[a]) && Stands(ds[j], l.members[j], b, l.memberMap[b]);
    if i != j {
      assert InOrder(l.members, l.offset);
    } else {
      assert ds[i].Anonymous? && ds[i].isStruct && !HeldByUnion(ds[i].decls, a, b);
      NamesApart(ds[i].decls, a, b);
    }
  }
}
