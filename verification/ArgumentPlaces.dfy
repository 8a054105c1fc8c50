/** Which register an argument gets, counted from the kinds of the arguments before it. */
module ArgumentPlaces {
  import opened Calls

  /** The `n`th place of a class with `limit` registers. */
  predicate Nth(loc: Loc, kind: Kind, n: nat) {
    match kind
    case Integer => if n < 6 then loc == Gp(n) else loc == ByMem
    case Sse => if n < 8 then loc == Xmm(n) else loc == ByMem
    case Struct(_) => loc == ByMem
  }

  /** Registers that are taken before the first argument: one for the address of a structure result. */
  function Taken(kind: Kind, retStruct: bool): nat {
    if kind.Integer? && retStruct then 1 else 0
  }

  /** An integer is in as many integer registers behind the first as there are integers before it, if there are so
      many registers; the same for the vector registers; everything else is in memory. */
  lemma PlaceIs(kinds: seq<Kind>, retStruct: bool, i: nat)
    requires i < |kinds|
    ensures Nth(Locate(kinds, retStruct).locs[i], kinds[i], Taken(kinds[i], retStruct) + multiset(kinds[..i])[kinds[i]])
  {
    hide Locate;
    LocateAt(kinds, retStruct, i);
    Counted(kinds[..i], retStruct);
  }

  lemma {:induction false} Counted(kinds: seq<Kind>, retStruct: bool)
    ensures var r, count := Locate(kinds, retStruct), multiset(kinds);
            && r.regCnt == Least(6, Taken(Integer, retStruct) + count[Integer])
            && r.xregCnt == Least(8, count[Sse])
    decreases |kinds|
  {
    if kinds != [] {
      var init := kinds[..|kinds| - 1];
      Counted(init, retStruct);
      assert kinds == init + [kinds[|kinds| - 1]];
    }
  }

  function Least(a: nat, b: nat): nat {
    if a < b then a else b
  }
}
