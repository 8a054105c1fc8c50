/** Deleting from a red-black tree: splicing a node out, moving its successor to its place, and the fix-up. */
module RbDelete {
  import opened RbInsert
  import opened RbSearch
  import opened RbStore

  // ---------- splicing out a node with at most one child ----------

  function Transplant(s: Store, u: Node, v: Node): Store {
    var p := Parent(s, u);
    var s1 := if p == NIL then s.(root := v)
              else if u == Left(s, p) then s.(left := s.left[p := v])
              else s.(right := s.right[p := v]);
    s1.(parent := s1.parent[v := p])
  }

  predicate HasGap(s: Store, z: Node) {
    Left(s, z) == NIL || Right(s, z) == NIL
  }

  function Only(s: Store, z: Node): Node {
    if Left(s, z) == NIL then Right(s, z) else Left(s, z)
  }

  /** `x` stands where `z` stood. The parent of `NIL` is set as well. */
  ghost predicate Spliced(s: Store, s': Store, z: Node, x: Node) {
    var p := Parent(s, z);
    && (forall n :: Left(s', n) == if n == p && p != NIL && Left(s, n) == z then x else Left(s, n))
    && (forall n :: Right(s', n) == if n == p && p != NIL && Left(s, n) != z then x else Right(s, n))
    && (forall n :: Parent(s', n) == if n == x then p else Parent(s, n))
    && s'.root == (if p == NIL then x else s.root) && s'.color == s.color && s'.key == s.key
  }

  lemma TransplantSplices(s: Store, z: Node, x: Node)
    ensures Spliced(s, Transplant(s, z, x), z, x)
  {
    ReplaceFields(s, z, x);
    var s1 := Replace(s, z, x);
    var s' := s1.(parent := s1.parent[x := Parent(s, z)]);
    assert s' == Transplant(s, z, x);
    assert forall n :: Left(s', n) == Left(s1, n);
    assert forall n :: Right(s', n) == Right(s1, n);
    assert forall n :: Parent(s', n) == if n == x then Parent(s, z) else Parent(s1, n);
    hide Transplant, Replace, Left, Right;
  }

  function Without(g: Shape, z: Node): Shape {
    g.(nodes := g.nodes - {z})
  }

  lemma SplicedLink(s: Store, g: Shape, s': Store, z: Node, n: Node)
    requires Linked(s, g) && z in g.nodes && n in g.nodes && n != z && HasGap(s, z) && Spliced(s, s', z, Only(s, z))
    ensures LinkOk(s', Without(g, z), n)
  {
    var x, p := Only(s, z), Parent(s, z);
    assert LinkOk(s, g, z) && LinkOk(s, g, n);
    assert x != NIL ==> LinkOk(s, g, x);
    assert p != NIL ==> LinkOk(s, g, p);
    SpliceApart(s, g, z);
    hide Linked;
    if n == x {
      SpliceChild(s, g, s', z, x);
    } else if n == p {
      SpliceParent(s, g, s', z, x, p);
    } else {
      SpliceFar(s, g, s', z, x, n);
    }
  }

  lemma SpliceApart(s: Store, g: Shape, z: Node)
    requires Linked(s, g) && z in g.nodes && HasGap(s, z)
    ensures var x, p := Only(s, z), Parent(s, z);
            && z != NIL && x != z && p != z && (x != NIL ==> x != p && x in g.nodes && Parent(s, x) == z)
            && (x != NIL ==> Lo(g, z) <= Lo(g, x) && Hi(g, x) <= Hi(g, z))
            && (p != NIL ==> p in g.nodes && Parent(s, p) != z && (Left(s, p) == z <==> Right(s, p) != z))
            && (p == NIL <==> z == s.root)
  {
    var x, p := Only(s, z), Parent(s, z);
    assert LinkOk(s, g, z);
    assert x != NIL ==> LinkOk(s, g, x);
    assert p != NIL ==> LinkOk(s, g, p);
    hide Linked;
  }

  lemma SpliceChild(s: Store, g: Shape, s': Store, z: Node, x: Node)
    requires LinkOk(s, g, x) && z in g.nodes && Spliced(s, s', z, x) && x in g.nodes && Parent(s, x) == z
    requires var p := Parent(s, z);
             && x != p && x != z && p != z && z != NIL && (p != NIL ==> p in g.nodes) && (p == NIL <==> z == s.root)
    ensures LinkOk(s', Without(g, z), x)
  {
    hide Right;
    var p := Parent(s, z);
    if p != NIL { assert Left(s', p) == x || Right(s', p) == x; }
    assert Left(s', x) == Left(s, x) && Right(s', x) == Right(s, x);
    assert forall m ::
           Rank(Without(g, z), m) == Rank(g, m) && Lo(Without(g, z), m) == Lo(g, m) && Hi(Without(g, z), m) == Hi(g, m);
    hide Left, Right, Parent, Lo, Hi, Rank;
  }

  lemma SpliceParent(s: Store, g: Shape, s': Store, z: Node, x: Node, p: Node)
    requires LinkOk(s, g, p) && z in g.nodes && Spliced(s, s', z, x) && p == Parent(s, z) && p in g.nodes
    requires x != z && p != z && z != NIL && Parent(s, p) != z && (Left(s, p) == z <==> Right(s, p) != z)
    requires x != NIL ==> x != p && x in g.nodes && Parent(s, x) == z && Lo(g, z) <= Lo(g, x) && Hi(g, x) <= Hi(g, z)
    ensures LinkOk(s', Without(g, z), p)
  {
    assert p != NIL && x != p && Parent(s, p) != p;
    assert forall m ::
           Rank(Without(g, z), m) == Rank(g, m) && Lo(Without(g, z), m) == Lo(g, m) && Hi(Without(g, z), m) == Hi(g, m);
    hide Left, Right, Parent, Lo, Hi, Rank;
  }

  lemma FarApart(s: Store, g: Shape, s': Store, z: Node, x: Node, n: Node)
    requires LinkOk(s, g, n) && Spliced(s, s', z, x) && n in g.nodes && n != z && n != x && n != Parent(s, z)
    requires LinkOk(s, g, z) && HasGap(s, z) && x == Only(s, z)
    ensures Parent(s, n) != z && Left(s, n) != z && Right(s, n) != z && (n == s.root <==> n == s'.root)
    ensures (Left(s, n) != NIL ==> Left(s, n) != x) && (Right(s, n) != NIL ==> Right(s, n) != x)
  {
    hide Left, Right, Parent, Lo, Hi, Rank, Between, Within;
  }

  lemma SpliceFar(s: Store, g: Shape, s': Store, z: Node, x: Node, n: Node)
    requires LinkOk(s, g, n) && Spliced(s, s', z, x) && n in g.nodes && n != z && n != x && n != Parent(s, z)
    requires LinkOk(s, g, z) && HasGap(s, z) && x == Only(s, z)
    requires Parent(s, z) != NIL ==> (Left(s, Parent(s, z)) == z <==> Right(s, Parent(s, z)) != z)
    ensures LinkOk(s', Without(g, z), n)
  {
    hide Only, Left, Right;
    FarApart(s, g, s', z, x, n);
    assert Left(s', n) == Left(s, n) && Right(s', n) == Right(s, n) && Parent(s', n) == Parent(s, n);
    assert forall m ::
           Rank(Without(g, z), m) == Rank(g, m) && Lo(Without(g, z), m) == Lo(g, m) && Hi(Without(g, z), m) == Hi(g, m);
    hide Left, Right, Parent, Lo, Hi, Rank, Only, HasGap;
  }

  lemma SplicedCovers(s: Store, g: Shape, s': Store, z: Node, n: Node, m: Node)
    requires Linked(s, g) && z in g.nodes && n in g.nodes && m in g.nodes && n != z && m != z
    requires HasGap(s, z) && Spliced(s, s', z, Only(s, z))
    ensures Covers(s', Without(g, z), n, m)
  {
    assert LinkOk(s, g, z) && LinkOk(s, g, n);
    assert Covers(s, g, n, m) && Covers(s, g, z, m) && Laminar(g, m, z);
    hide Linked;
    SpliceCovers(s, g, s', z, Only(s, z), n, m);
  }

  lemma SpliceCovers(s: Store, g: Shape, s': Store, z: Node, x: Node, n: Node, m: Node)
    requires Covers(s, g, n, m) && Covers(s, g, z, m) && Laminar(g, m, z) && LinkOk(s, g, n) && LinkOk(s, g, z)
    requires x == Only(s, z) && HasGap(s, z) && Spliced(s, s', z, x)
    requires Between(Lo(g, z), Rank(g, m), Rank(g, z)) || Between(Rank(g, z), Rank(g, m), Hi(g, z))
             || !Between(Lo(g, z), Rank(g, m), Hi(g, z))
    ensures Covers(s', Without(g, z), n, m)
  {
    var g' := Without(g, z);
    assert forall k :: Rank(g', k) == Rank(g, k) && Lo(g', k) == Lo(g, k) && Hi(g', k) == Hi(g, k);
    assert Left(s', n) == if n == Parent(s, z) && Left(s, n) == z then x else Left(s, n);
    assert Right(s', n) == if n == Parent(s, z) && Left(s, n) != z then x else Right(s, n);
    assert n == Parent(s, z) && Left(s, n) != z ==> Right(s, n) == z;
    hide Left, Right, Parent, Lo, Hi, Rank, Spliced, LinkOk, Without;
  }

  lemma SplicedRoot(s: Store, g: Shape, s': Store, z: Node, n: Node)
    requires Linked(s, g) && z in g.nodes && n in g.nodes && n != z && HasGap(s, z) && Spliced(s, s', z, Only(s, z))
    ensures s'.root in Without(g, z).nodes && Between(Lo(g, s'.root), Rank(g, n), Hi(g, s'.root))
  {
    hide Hi, Left, Lo, Parent, Rank, Right;
    SpliceApart(s, g, z);
    assert LinkOk(s, g, z) && LinkOk(s, g, n) && Covers(s, g, z, n) && Laminar(g, n, z);
    assert Between(Lo(g, s.root), Rank(g, n), Hi(g, s.root)) && s.root in g.nodes;
    hide Linked;
  }

  /** Splicing out a node leaves the others linked and in their order. */
  lemma SplicedLinked(s: Store, g: Shape, s': Store, z: Node)
    requires Linked(s, g) && z in g.nodes && HasGap(s, z) && Spliced(s, s', z, Only(s, z))
    ensures Linked(s', Without(g, z))
  {
    hide Left, Parent, Spliced;
    var g' := Without(g, z);
    forall n | n in g'.nodes
      ensures LinkOk(s', g', n) && s'.root in g'.nodes && Between(Lo(g', s'.root), Rank(g', n), Hi(g', s'.root))
    {
      SplicedLink(s, g, s', z, n);
      SplicedRoot(s, g, s', z, n);
    }
    forall n, m | n in g'.nodes && m in g'.nodes
      ensures Covers(s', g', n, m)
    {
      SplicedCovers(s, g, s', z, n, m);
    }
    forall n, m | n in g'.nodes && m in g'.nodes && m != n
      ensures Laminar(g', m, n)
    {
      assert Laminar(g, m, n);
    }
    if g'.nodes == {} { EmptyRoot(s, g, s', z); }
    hide LinkOk, Covers, Laminar, Between, Spliced, HasGap, Only;
  }

  lemma EmptyRoot(s: Store, g: Shape, s': Store, z: Node)
    requires Linked(s, g) && z in g.nodes && HasGap(s, z) && Spliced(s, s', z, Only(s, z)) && g.nodes - {z} == {}
    ensures s'.root == NIL
  {
    SpliceApart(s, g, z);
    assert s.root in g.nodes && s.root !in g.nodes - {z};
    assert Only(s, z) !in g.nodes - {z};
    hide Linked;
  }

  // ---------- black heights while a node is missing ----------

  /** The ways through child `x` of `n` have one black node too few. */
  predicate Short(s: Store, h: Heights, n: Node, x: Node) {
    || (Left(s, n) == x && H(h, x) + 1 == H(h, Right(s, n)) == H(h, n) - if ColorOf(s, n).BLACK? then 1 else 0)
    || (Right(s, n) == x && H(h, x) + 1 == H(h, Left(s, n)) == H(h, n) - if ColorOf(s, n).BLACK? then 1 else 0)
  }

  predicate Fair(s: Store, h: Heights, n: Node, x: Node) {
    && (if n == Parent(s, x) && x != s.root then Short(s, h, n, x) else Balanced(s, h, n))
    && (n == x || NoRedPair(s, n, x))
  }

  /** While the fix-up runs: the ways through `x` are short, unless it is the root. */
  ghost predicate Lacking(s: Store, g: Shape, h: Heights, x: Node) {
    && Linked(s, g) && ColorOf(s, NIL).BLACK?
    && (x != NIL ==> x in g.nodes) && (x != s.root ==> Parent(s, x) in g.nodes)
    && (forall n :: n in g.nodes ==> Fair(s, h, n, x))
    && (x == s.root || ColorOf(s, s.root).BLACK?)
  }

  /** Nothing is missing when the root is the short node. */
  lemma NothingLacks(s: Store, g: Shape, h: Heights)
    requires RedBlack(s, g, h)
    ensures Lacking(s, g, h, s.root)
  {
    forall n | n in g.nodes
      ensures Fair(s, h, n, s.root)
    {
      NodeFacts(s, g, h, NIL, n);
    }
    hide LinkOk, Covers, Laminar;
  }

  lemma SplicedFair(s: Store, g: Shape, h: Heights, s': Store, z: Node, x: Node, n: Node)
    requires Spliced(s, s', z, x) && x == Only(s, z) && HasGap(s, z) && n in g.nodes && n != z && LinkOk(s, g, n)
    requires Balanced(s, h, n) && NoRedPair(s, n, NIL) && Balanced(s, h, z) && NoRedPair(s, z, NIL)
             && ColorOf(s, NIL).BLACK?
    requires z != NIL && x != s.root
             && (Parent(s, z) != NIL ==> (Left(s, Parent(s, z)) == z <==> Right(s, Parent(s, z)) != z))
    ensures ColorOf(s, z).BLACK? ==> Fair(s', h, n, x)
    ensures ColorOf(s, z).RED? ==> Balanced(s', h, n) && NoRedPair(s', n, NIL)
  {
    assert n != NIL && (n != Parent(s, z) ==> Left(s, n) != z && Right(s, n) != z);
    OnlyHeight(s, h, z);
    hide LinkOk, HasGap, Only, Fair;
    if n != Parent(s, z) {
      FairFar(s, h, s', z, x, n);
    } else {
      FairParent(s, h, s', z, x, n);
    }
  }

  lemma FairFar(s: Store, h: Heights, s': Store, z: Node, x: Node, n: Node)
    requires Spliced(s, s', z, x) && n != Parent(s, z) && n != NIL && ColorOf(s, NIL).BLACK?
    requires Balanced(s, h, n) && NoRedPair(s, n, NIL)
    ensures Fair(s', h, n, x) && Balanced(s', h, n) && NoRedPair(s', n, NIL)
  {
    assert Left(s', n) == Left(s, n) && Right(s', n) == Right(s, n) && Parent(s', x) == Parent(s, z);
    assert ColorOf(s', n) == ColorOf(s, n) && ColorOf(s', Left(s, n)) == ColorOf(s, Left(s, n))
           && ColorOf(s', Right(s, n)) == ColorOf(s, Right(s, n));
    hide Left, Right, Parent, H, ColorOf;
  }

  lemma FairParent(s: Store, h: Heights, s': Store, z: Node, x: Node, p: Node)
    requires Spliced(s, s', z, x) && p == Parent(s, z) && p != NIL && x != s.root && ColorOf(s, NIL).BLACK?
    requires Balanced(s, h, p) && NoRedPair(s, p, NIL) && (Left(s, p) == z <==> Right(s, p) != z)
    requires H(h, x) == H(h, z) - (if ColorOf(s, z).BLACK? then 1 else 0)
             && (ColorOf(s, z).RED? ==> ColorOf(s, x).BLACK?)
    ensures ColorOf(s, z).BLACK? ==> Fair(s', h, p, x)
    ensures ColorOf(s, z).RED? ==> Balanced(s', h, p) && NoRedPair(s', p, NIL)
  {
    assert Parent(s', x) == Parent(s, z) && s'.root == s.root && forall m :: ColorOf(s', m) == ColorOf(s, m);
    assert Left(s', p) == if Left(s, p) == z then x else Left(s, p);
    assert Right(s', p) == if Left(s, p) == z then Right(s, p) else x;
    hide Left, Right, Parent, H, ColorOf, Spliced;
  }

  lemma OnlyHeight(s: Store, h: Heights, z: Node)
    requires Balanced(s, h, z) && NoRedPair(s, z, NIL) && ColorOf(s, NIL).BLACK?
    ensures H(h, Only(s, z)) == H(h, z) - (if ColorOf(s, z).BLACK? then 1 else 0)
    ensures ColorOf(s, z).RED? ==> ColorOf(s, Only(s, z)).BLACK?
  {
  }

  /** Splicing out a red node keeps a red-black tree; a black one is missing on the ways through its place. */
  lemma SpliceKeeps(s: Store, g: Shape, h: Heights, z: Node)
    requires RedBlack(s, g, h) && z in g.nodes && HasGap(s, z)
    ensures var x := Only(s, z);
            var s' := Transplant(s, z, x);
            && Linked(s', Without(g, z)) && (x != NIL ==> x in g.nodes && x != z)
            && if ColorOf(s, z).BLACK? then Lacking(s', Without(g, z), h, x) else RedBlack(s', Without(g, z), h)
  {
    hide Parent, Between;
    var x, g' := Only(s, z), Without(g, z);
    var s' := Transplant(s, z, x);
    TransplantSplices(s, z, x);
    hide Transplant;
    SpliceApart(s, g, z);
    SplicedLinked(s, g, s', z);
    hide HasGap, Only, Fair, Balanced, NoRedPair, LinkOk;
    SplicedRoots(s, g, h, s', z, x);
    forall n | n in g'.nodes
      ensures ColorOf(s, z).BLACK? ==> Fair(s', h, n, x)
      ensures ColorOf(s, z).RED? ==> Balanced(s', h, n) && NoRedPair(s', n, NIL)
    {
      NodeFacts(s, g, h, NIL, n);
      NodeFacts(s, g, h, NIL, z);
      SplicedFair(s, g, h, s', z, x, n);
    }
    hide Spliced, Linked, Without;
  }

  lemma SplicedRoots(s: Store, g: Shape, h: Heights, s': Store, z: Node, x: Node)
    requires RedBlack(s, g, h) && z in g.nodes && Spliced(s, s', z, x) && x != z && Parent(s, z) != z
    requires x != NIL ==> x in g.nodes && Parent(s, x) == z && z != NIL
    requires Parent(s, z) == NIL <==> z == s.root
    requires Parent(s, z) != NIL ==> Parent(s, z) in g.nodes
    ensures ColorOf(s', NIL).BLACK? && (x != NIL ==> x in Without(g, z).nodes) && x != s.root
    ensures x != s'.root ==> Parent(s', x) in Without(g, z).nodes
    ensures s'.root == x || ColorOf(s', s'.root).BLACK?
    ensures ColorOf(s, z).RED? ==> s'.root == s.root && ColorOf(s', s'.root).BLACK?
  {
    ChildNotRoot(s, g, x);
    hide Linked, Colored;
    assert Parent(s', x) == Parent(s, z);
  }

  lemma ChildNotRoot(s: Store, g: Shape, x: Node)
    requires Linked(s, g) && g.nodes != {} && (x != NIL ==> x in g.nodes && Parent(s, x) != NIL)
    ensures x != s.root && s.root != NIL
  {
    assert LinkOk(s, g, s.root);
  }

  // ---------- another node at the place of a node ----------

  function Sub(n: Node, z: Node, y: Node): Node {
    if n == z then y else n
  }

  /** The node `y` has taken the links and the color of `z`. Only the links of tree nodes and the parent of `x`
      matter. */
  ghost predicate Renamed(s: Store, g: Shape, s': Store, z: Node, y: Node, x: Node) {
    && (forall n :: n in g.nodes && n != z ==>
          && Left(s', n) == Sub(Left(s, n), z, y) && Right(s', n) == Sub(Right(s, n), z, y)
          && Parent(s', n) == Sub(Parent(s, n), z, y) && ColorOf(s', n) == ColorOf(s, n))
    && Left(s', y) == Left(s, z) && Right(s', y) == Right(s, z) && Parent(s', y) == Parent(s, z)
    && ColorOf(s', y) == ColorOf(s, z) && ColorOf(s', NIL) == ColorOf(s, NIL)
    && s'.root == Sub(s.root, z, y) && s'.key == s.key && (x == NIL ==> Parent(s', NIL) == Sub(Parent(s, NIL), z, y))
  }

  function Renaming(g: Shape, z: Node, y: Node): Shape {
    Shape(g.nodes - {z} + {y}, g.rank[y := Rank(g, z)], g.lo[y := Lo(g, z)], g.hi[y := Hi(g, z)])
  }

  lemma RenamingRanks(g: Shape, z: Node, y: Node, n: Node)
    requires y !in g.nodes && n in g.nodes
    ensures var g', m := Renaming(g, z, y), Sub(n, z, y);
            m in g'.nodes && Rank(g', m) == Rank(g, n) && Lo(g', m) == Lo(g, n) && Hi(g', m) == Hi(g, n)
  {
  }

  /** The node of the old tree for one of the new tree. */
  lemma Original(g: Shape, z: Node, y: Node, m: Node) returns (n: Node)
    requires y !in g.nodes && z in g.nodes && m in Renaming(g, z, y).nodes
    ensures n in g.nodes && m == Sub(n, z, y)
  {
    n := if m == y then z else m;
  }

  lemma RenamedLink(s: Store, g: Shape, s': Store, z: Node, y: Node, x: Node, n: Node)
    requires Renamed(s, g, s', z, y, x) && y !in g.nodes && y != NIL && z in g.nodes && n in g.nodes && LinkOk(s, g, n)
    requires Parent(s, z) != z && Left(s, z) != z && Right(s, z) != z && z != NIL && s.root in g.nodes
    ensures LinkOk(s', Renaming(g, z, y), Sub(n, z, y))
  {
    hide Left, Right;
    RenamingRanks(g, z, y, n);
    if Left(s, n) != NIL { RenamingRanks(g, z, y, Left(s, n)); }
    if Right(s, n) != NIL { RenamingRanks(g, z, y, Right(s, n)); }
    if Parent(s, n) != NIL { RenamingRanks(g, z, y, Parent(s, n)); }
    hide Left, Right, Parent, Rank, Lo, Hi, ColorOf;
  }

  lemma RenamedCovers(s: Store, g: Shape, s': Store, z: Node, y: Node, x: Node, n: Node, m: Node)
    requires Renamed(s, g, s', z, y, x) && y !in g.nodes && y != NIL && z in g.nodes && n in g.nodes && m in g.nodes
    requires Covers(s, g, n, m) && LinkOk(s, g, n) && z != NIL && Left(s, z) != z && Right(s, z) != z
    ensures Covers(s', Renaming(g, z, y), Sub(n, z, y), Sub(m, z, y))
  {
    RenamingRanks(g, z, y, n);
    RenamingRanks(g, z, y, m);
    if Left(s, n) != NIL { RenamingRanks(g, z, y, Left(s, n)); }
    if Right(s, n) != NIL { RenamingRanks(g, z, y, Right(s, n)); }
    hide Left, Right, Parent, Rank, Lo, Hi, ColorOf, Renaming;
  }

  lemma RenamedLaminar(g: Shape, z: Node, y: Node, n: Node, m: Node)
    requires y !in g.nodes && z in g.nodes && n in g.nodes && m in g.nodes && Laminar(g, m, n)
    ensures Laminar(Renaming(g, z, y), Sub(m, z, y), Sub(n, z, y))
  {
    RenamingRanks(g, z, y, n);
    RenamingRanks(g, z, y, m);
    hide Renaming, Rank, Lo, Hi;
  }

  lemma OwnLinks(s: Store, g: Shape, z: Node)
    requires Linked(s, g) && z in g.nodes
    ensures z != NIL && Parent(s, z) != z && Left(s, z) != z && Right(s, z) != z
            && (forall m :: m in g.nodes ==> m != NIL)
  {
    assert LinkOk(s, g, z);
    forall m | m in g.nodes
      ensures m != NIL
    {
      assert LinkOk(s, g, m);
    }
    hide Linked;
  }

  /** A node that takes the place of another keeps the tree. */
  lemma RenamedLinked(s: Store, g: Shape, s': Store, z: Node, y: Node, x: Node)
    requires Linked(s, g) && Renamed(s, g, s', z, y, x) && y !in g.nodes && y != NIL && z in g.nodes
    ensures Linked(s', Renaming(g, z, y))
  {
    var g' := Renaming(g, z, y);
    OwnLinks(s, g, z);
    RenamingRanks(g, z, y, s.root);
    forall m | m in g'.nodes
      ensures LinkOk(s', g', m) && Between(Lo(g', s'.root), Rank(g', m), Hi(g', s'.root))
    {
      var n := Original(g, z, y, m);
      assert LinkOk(s, g, n);
      RenamedLink(s, g, s', z, y, x, n);
      RenamingRanks(g, z, y, n);
    }
    forall m1, m2 | m1 in g'.nodes && m2 in g'.nodes
      ensures Covers(s', g', m1, m2)
      ensures m1 != m2 ==> Laminar(g', m2, m1)
    {
      var n1 := Original(g, z, y, m1);
      var n2 := Original(g, z, y, m2);
      assert LinkOk(s, g, n1) && Covers(s, g, n1, n2);
      RenamedCovers(s, g, s', z, y, x, n1, n2);
      if m1 != m2 {
        assert Laminar(g, n2, n1);
        RenamedLaminar(g, z, y, n1, n2);
      }
    }
    hide LinkOk, Covers, Laminar, Between, Renaming;
    assert s'.root in g'.nodes;
  }

  /** What decides whether a node is fair. */
  lemma SameFair(s: Store, h: Heights, n: Node, x: Node, s': Store, h': Heights, n': Node, x': Node)
    requires Fair(s, h, n, x)
    requires H(h', x') == H(h, x) && H(h', n') == H(h, n) && ColorOf(s', n') == ColorOf(s, n)
    requires H(h', Left(s', n')) == H(h, Left(s, n)) && ColorOf(s', Left(s', n')) == ColorOf(s, Left(s, n))
    requires H(h', Right(s', n')) == H(h, Right(s, n)) && ColorOf(s', Right(s', n')) == ColorOf(s, Right(s, n))
    requires Left(s', n') == x' <==> Left(s, n) == x
    requires Right(s', n') == x' <==> Right(s, n) == x
    requires n' == x' <==> n == x
    requires x' == s'.root <==> x == s.root
    requires x != s.root ==> (n' == Parent(s', x') <==> n == Parent(s, x))
    ensures Fair(s', h', n', x')
  {
    hide Left, Right, Parent, H, ColorOf;
  }

  lemma RenamedFair(s: Store, g: Shape, h: Heights, s': Store, z: Node, y: Node, x: Node, n: Node)
    requires Renamed(s, g, s', z, y, x) && y !in g.nodes && y != NIL && z in g.nodes && z != NIL && n in g.nodes
             && n != NIL
    requires LinkOk(s, g, n) && Fair(s, h, n, x) && s.root in g.nodes && (x != NIL ==> x in g.nodes)
    requires x != s.root ==> Parent(s, x) in g.nodes
    requires Left(s, z) != z && Right(s, z) != z && Parent(s, z) != z
    ensures Fair(s', h[y := H(h, z)], Sub(n, z, y), Sub(x, z, y))
  {
    hide Parent, Right;
    var h' := h[y := H(h, z)];
    assert forall m :: m in g.nodes || m == NIL ==>
           H(h', Sub(m, z, y)) == H(h, m) && ColorOf(s', Sub(m, z, y)) == ColorOf(s, m);
    assert Left(s, n) in g.nodes || Left(s, n) == NIL;
    assert Right(s, n) in g.nodes || Right(s, n) == NIL;
    assert Left(s', Sub(n, z, y)) == Sub(Left(s, n), z, y) && Right(s', Sub(n, z, y)) == Sub(Right(s, n), z, y);
    assert Parent(s', Sub(x, z, y)) == if x == z then Parent(s, z) else Sub(Parent(s, x), z, y);
    hide Left, Right, Parent, H, ColorOf, LinkOk, Fair;
    SameFair(s, h, n, x, s', h', Sub(n, z, y), Sub(x, z, y));
  }

  lemma RenamedLacking(s: Store, g: Shape, h: Heights, s': Store, z: Node, y: Node, x: Node)
    requires Lacking(s, g, h, x) && Renamed(s, g, s', z, y, x) && y !in g.nodes && y != NIL && z in g.nodes
    ensures Lacking(s', Renaming(g, z, y), h[y := H(h, z)], Sub(x, z, y))
  {
    hide Balanced, Fair, Hi, Left, LinkOk, Rank, Right;
    var g', h' := Renaming(g, z, y), h[y := H(h, z)];
    RenamedLinked(s, g, s', z, y, x);
    OwnLinks(s, g, z);
    assert s.root in g.nodes;
    forall m | m in g'.nodes
      ensures Fair(s', h', m, Sub(x, z, y))
    {
      var n := Original(g, z, y, m);
      assert LinkOk(s, g, n);
      RenamedFair(s, g, h, s', z, y, x, n);
    }
    assert Parent(s', Sub(x, z, y)) == if x == z then Parent(s, z) else Sub(Parent(s, x), z, y);
    hide Linked, Fair, LinkOk, Parent, ColorOf;
  }

  lemma LacksNothing(s: Store, g: Shape, h: Heights)
    requires Lacking(s, g, h, s.root) && ColorOf(s, s.root).BLACK?
    ensures RedBlack(s, g, h)
  {
    forall n | n in g.nodes
      ensures Balanced(s, h, n) && NoRedPair(s, n, NIL)
    {
      assert Fair(s, h, n, s.root) && LinkOk(s, g, n);
    }
    hide LinkOk, Covers, Laminar, Fair;
  }

  // ---------- the successor takes the place ----------

  /** `y`, which has no left child, leaves its place and takes that of `z`. */
  function MoveUp(s: Store, z: Node, y: Node): Store {
    var x := Right(s, y);
    var s1 := if Parent(s, y) == z then s.(parent := s.parent[x := y]) else TakeRight(Transplant(s, y, x), z, y);
    TakeRest(Transplant(s1, z, y), z, y)
  }

  function TakeRight(s: Store, z: Node, y: Node): Store {
    var s1 := s.(right := s.right[y := Right(s, z)]);
    s1.(parent := s1.parent[Right(s1, y) := y])
  }

  function TakeRest(s: Store, z: Node, y: Node): Store {
    var s1 := s.(left := s.left[y := Left(s, z)]);
    s1.(parent := s1.parent[Left(s1, y) := y], color := s1.color[y := ColorOf(s1, z)])
  }

  /** Places of `z` and of its successor `y`. */
  ghost predicate Successor(s: Store, z: Node, y: Node) {
    && z != NIL && y != NIL && z != y && Left(s, y) == NIL && Left(s, z) != NIL && Right(s, z) != NIL
    && Left(s, z) != y && Left(s, z) != z && Right(s, z) != z && Left(s, z) != Right(s, z) && Right(s, y) != y
    && Parent(s, z) != z && Parent(s, z) != y && Parent(s, y) != y && Parent(s, y) != NIL && y != s.root
       && z != Right(s, y)
    && Left(s, z) != Right(s, y) && Right(s, z) != Right(s, y)
    && (if Parent(s, y) == z then Right(s, z) == y
       else Left(s, Parent(s, y)) == y && Right(s, z) != y && Parent(s, z) != Parent(s, y))
    && (Parent(s, z) == NIL <==> z == s.root)
    && (Parent(s, z) != NIL ==> (Left(s, Parent(s, z)) == z <==> Right(s, Parent(s, z)) != z))
  }

  /** The fields after the move. */
  ghost predicate Moved(s: Store, s': Store, z: Node, y: Node) {
    var x, q, p := Right(s, y), Parent(s, y), Parent(s, z);
    && (forall n :: Left(s', n) ==
          if n == y then Left(s, z) else if n == p && p != NIL && Left(s, n) == z then y
          else if n == q && q != z then x else Left(s, n))
    && (forall n :: Right(s', n) ==
          if n == y then (if q == z then x else Right(s, z))
              else if n == p && p != NIL && Left(s, n) != z then y else Right(s, n))
    && (forall n :: Parent(s', n) ==
          if n == Left(s, z) then y else if n == y then p
          else if n == x then Sub(q, z, y) else if n == Right(s, z) then y else Parent(s, n))
    && (forall n :: ColorOf(s', n) == if n == y then ColorOf(s, z) else ColorOf(s, n))
    && s'.root == (if p == NIL then y else s.root) && s'.key == s.key
  }

  lemma MoveNear(s: Store, z: Node, y: Node)
    requires Successor(s, z, y) && Parent(s, y) == z
    ensures Moved(s, MoveUp(s, z, y), z, y)
  {
    var x := Right(s, y);
    var s1 := s.(parent := s.parent[x := y]);
    assert forall n ::
           Left(s1, n) == Left(s, n) && Right(s1, n) == Right(s, n)
               && Parent(s1, n) == if n == x then y else Parent(s, n);
    var s2 := Transplant(s1, z, y);
    TransplantSplices(s1, z, y);
    TookRest(s2, z, y);
    assert TakeRest(s2, z, y) == MoveUp(s, z, y);
    hide Transplant, TakeRest, MoveUp, Left, Right, Parent, ColorOf;
  }

  lemma MoveFar(s: Store, z: Node, y: Node)
    requires Successor(s, z, y) && Parent(s, y) != z
    ensures Moved(s, MoveUp(s, z, y), z, y)
  {
    var x := Right(s, y);
    var s1 := Transplant(s, y, x);
    TransplantSplices(s, y, x);
    var s2 := TakeRight(s1, z, y);
    TookRight(s1, z, y);
    var s3 := Transplant(s2, z, y);
    TransplantSplices(s2, z, y);
    var s4 := TakeRest(s3, z, y);
    TookRest(s3, z, y);
    hide Transplant, TakeRight, TakeRest;
    assert s4 == MoveUp(s, z, y);
    hide MoveUp, Left, Right, Parent, ColorOf;
  }

  lemma TookRight(s: Store, z: Node, y: Node)
    ensures var s' := TakeRight(s, z, y);
            && (forall n :: Right(s', n) == if n == y then Right(s, z) else Right(s, n))
               && (forall n :: Left(s', n) == Left(s, n))
            && (forall n :: Parent(s', n) == if n == Right(s, z) then y else Parent(s, n))
            && s'.color == s.color && s'.root == s.root && s'.key == s.key
  {
  }

  lemma TookRest(s: Store, z: Node, y: Node)
    ensures var s' := TakeRest(s, z, y);
            && (forall n :: Right(s', n) == Right(s, n))
               && (forall n :: Left(s', n) == if n == y then Left(s, z) else Left(s, n))
            && (forall n :: Parent(s', n) == if n == Left(s, z) then y else Parent(s, n))
            && (forall n :: ColorOf(s', n) == if n == y then ColorOf(s, z) else ColorOf(s, n))
            && s'.root == s.root && s'.key == s.key
  {
  }

  /** What the search for the smallest node in the right part of `z` finds. */
  ghost predicate Next(s: Store, g: Shape, z: Node, y: Node) {
    && z in g.nodes && y in g.nodes && Left(s, z) != NIL && Right(s, z) != NIL && Left(s, y) == NIL
    && Between(Rank(g, z), Rank(g, y), Hi(g, z)) && Rank(g, z) <= Lo(g, y) && Hi(g, y) <= Hi(g, z)
    && (y == Right(s, z) || Left(s, Parent(s, y)) == y)
    && (forall n :: n in g.nodes && n != y ==> Rank(g, n) <= Rank(g, z) || Rank(g, n) > Rank(g, y))
  }

  lemma NextIsSuccessor(s: Store, g: Shape, z: Node, y: Node)
    requires Linked(s, g) && Next(s, g, z, y)
    ensures Successor(s, z, y)
  {
    var p, q, x := Parent(s, z), Parent(s, y), Right(s, y);
    assert LinkOk(s, g, z) && LinkOk(s, g, y) && LinkOk(s, g, Left(s, z)) && LinkOk(s, g, Right(s, z));
    assert p != NIL ==> LinkOk(s, g, p);
    assert LinkOk(s, g, q);
    assert x != NIL ==> LinkOk(s, g, x);
    hide Linked;
  }

  lemma MovedRenames(s: Store, g: Shape, t: Store, s': Store, z: Node, y: Node)
    requires Linked(s, g) && z in g.nodes && y in g.nodes && Successor(s, z, y)
    requires Moved(s, s', z, y) && Spliced(s, t, y, Right(s, y))
    ensures Renamed(t, Without(g, y), s', z, y, Right(s, y))
  {
    hide Linked, Left, Right, Parent, ColorOf, Moved, Spliced, Successor;
    forall n | n in g.nodes && n != y && n != z
      ensures Left(s', n) == Sub(Left(t, n), z, y) && Right(s', n) == Sub(Right(t, n), z, y)
      ensures Parent(s', n) == Sub(Parent(t, n), z, y) && ColorOf(s', n) == ColorOf(t, n)
    {
      MovedNode(s, g, t, s', z, y, n);
    }
    MovedTop(s, t, s', z, y);
  }

  lemma MovedTop(s: Store, t: Store, s': Store, z: Node, y: Node)
    requires Successor(s, z, y) && Moved(s, s', z, y) && Spliced(s, t, y, Right(s, y))
    ensures Left(s', y) == Left(t, z) && Right(s', y) == Right(t, z) && Parent(s', y) == Parent(t, z)
    ensures ColorOf(s', y) == ColorOf(t, z) && ColorOf(s', NIL) == ColorOf(t, NIL) && s'.root == Sub(t.root, z, y)
            && s'.key == t.key
    ensures Right(s, y) == NIL ==> Parent(s', NIL) == Sub(Parent(t, NIL), z, y)
  {
    assert ColorOf(s', y) == ColorOf(t, z) && ColorOf(s', NIL) == ColorOf(t, NIL);
    hide Left, Right, Parent, ColorOf;
  }

  lemma MovedNode(s: Store, g: Shape, t: Store, s': Store, z: Node, y: Node, n: Node)
    requires Linked(s, g) && z in g.nodes && y in g.nodes && Successor(s, z, y) && n in g.nodes && n != y && n != z
    requires Moved(s, s', z, y) && Spliced(s, t, y, Right(s, y))
    ensures Left(s', n) == Sub(Left(t, n), z, y) && Right(s', n) == Sub(Right(t, n), z, y)
    ensures Parent(s', n) == Sub(Parent(t, n), z, y) && ColorOf(s', n) == ColorOf(t, n)
  {
    hide Between;
    assert LinkOk(s, g, n) && LinkOk(s, g, z) && LinkOk(s, g, y);
    assert Right(s, y) != NIL ==> LinkOk(s, g, Right(s, y));
    hide Linked, Within, Between;
    assert ColorOf(s', n) == ColorOf(t, n);
    hide Left, Right, Parent, ColorOf, Rank, Lo, Hi;
  }

  /** The successor's own color decides what is missing after the move. */
  lemma MoveKeeps(s: Store, g: Shape, h: Heights, z: Node, y: Node) returns (g': Shape, h': Heights)
    requires RedBlack(s, g, h) && Next(s, g, z, y)
    ensures var s' := MoveUp(s, z, y);
            && OrderWithout(g, g', z) && s'.key == s.key
            && if ColorOf(s, y).BLACK? then Lacking(s', g', h', Right(s, y)) else RedBlack(s', g', h')
  {
    var x, g1 := Right(s, y), Without(g, y);
    var t, s' := Transplant(s, y, x), MoveUp(s, z, y);
    NextIsSuccessor(s, g, z, y);
    SpliceKeeps(s, g, h, y);
    TransplantSplices(s, y, x);
    MoveFields(s, z, y);
    assert s'.key == s.key && x == Only(s, y) && t.color == s.color && x != z && y != NIL && z in g1.nodes;
    NextOrder(s, g, z, y);
    g', h' := Renaming(g1, z, y), h[y := H(h, z)];
    hide Linked, MoveUp, Transplant, Next, Renaming, Without;
    MovedRenames(s, g, t, s', z, y);
    hide Moved, Successor, Spliced;
    if ColorOf(s, y).BLACK? {
      RenamedLacking(t, g1, h, s', z, y, x);
    } else {
      RenamedRedBlack(t, g1, h, s', z, y, x);
    }
  }

  lemma MoveFields(s: Store, z: Node, y: Node)
    requires Successor(s, z, y)
    ensures Moved(s, MoveUp(s, z, y), z, y)
  {
    hide Successor, MoveUp, Moved;
    if Parent(s, y) == z {
      MoveNear(s, z, y);
    } else {
      MoveFar(s, z, y);
    }
  }

  lemma RenamedRedBlack(s: Store, g: Shape, h: Heights, s': Store, z: Node, y: Node, x: Node)
    requires RedBlack(s, g, h) && Renamed(s, g, s', z, y, x) && y !in g.nodes && y != NIL && z in g.nodes
    ensures RedBlack(s', Renaming(g, z, y), h[y := H(h, z)])
  {
    NothingLacks(s, g, h);
    RootNotNil(s, g);
    hide Linked;
    RenamedLacking(s, g, h, s', z, y, s.root);
    LacksNothing(s', Renaming(g, z, y), h[y := H(h, z)]);
  }

  lemma RootNotNil(s: Store, g: Shape)
    requires Linked(s, g) && g.nodes != {}
    ensures s.root != NIL && s.root in g.nodes
  {
    assert LinkOk(s, g, s.root);
  }

  // ---------- the order of the nodes that stay ----------

  ghost predicate OrderWithout(g: Shape, g': Shape, z: Node) {
    && g'.nodes == g.nodes - {z}
    && forall m, n :: m in g'.nodes && n in g'.nodes ==> (Rank(g', m) < Rank(g', n) <==> Rank(g, m) < Rank(g, n))
  }

  lemma NextOrder(s: Store, g: Shape, z: Node, y: Node)
    requires Linked(s, g) && Next(s, g, z, y)
    ensures OrderWithout(g, Renaming(Without(g, y), z, y), z)
  {
    var g' := Renaming(Without(g, y), z, y);
    assert y != z;
    forall n | n in g.nodes && n != z && n != y
      ensures Rank(g', n) == Rank(g, n) && (Rank(g, n) < Rank(g, z) <==> Rank(g, n) < Rank(g, y))
      ensures Rank(g, z) < Rank(g, n) <==> Rank(g, y) < Rank(g, n)
    {
      if Rank(g, n) == Rank(g, z) { SameRank(s, g, n, z); }
    }
    hide Linked, Next;
    assert Rank(g', y) == Rank(g, z) && g'.nodes == g.nodes - {z};
    hide Rank;
  }

  lemma WithoutOrder(g: Shape, z: Node)
    ensures OrderWithout(g, Without(g, z), z)
  {
  }

  lemma OrderWithoutSorted(s: Store, g: Shape, s': Store, g': Shape, z: Node)
    requires Sorted(s, g) && OrderWithout(g, g', z) && s'.key == s.key
    ensures Sorted(s', g')
  {
  }

  lemma OrderWithoutThen(g: Shape, g1: Shape, g2: Shape, z: Node)
    requires OrderWithout(g, g1, z) && SameOrder(g1, g2)
    ensures OrderWithout(g, g2, z)
  {
    hide Rank;
  }

  // ---------- the smallest node of a subtree ----------

  /** `y` is on the way from `r` to its smallest node. */
  ghost predicate Leftmost(s: Store, g: Shape, r: Node, y: Node) {
    && r in g.nodes && y in g.nodes && Within(g, y, Lo(g, r), Hi(g, r)) && (y == r || Left(s, Parent(s, y)) == y)
    && (forall n :: n in g.nodes && Rank(g, n) <= Lo(g, y) ==> Rank(g, n) <= Lo(g, r))
  }

  lemma LeftmostStep(s: Store, g: Shape, r: Node, y: Node)
    requires Linked(s, g) && Leftmost(s, g, r, y) && Left(s, y) != NIL
    ensures Leftmost(s, g, r, Left(s, y))
    ensures |Inside(g, Lo(g, Left(s, y)), Hi(g, Left(s, y)))| < |Inside(g, Lo(g, y), Hi(g, y))|
  {
    var c := Left(s, y);
    assert LinkOk(s, g, y) && LinkOk(s, g, c);
    forall n | n in g.nodes && Rank(g, n) <= Lo(g, c)
      ensures Rank(g, n) <= Lo(g, y)
    {
      assert Covers(s, g, y, n);
    }
    hide Linked;
    assert y in Inside(g, Lo(g, y), Hi(g, y)) && y !in Inside(g, Lo(g, c), Hi(g, c));
    Smaller(Inside(g, Lo(g, c), Hi(g, c)), Inside(g, Lo(g, y), Hi(g, y)));
  }

  /** The smallest node of the right part of `z` comes next after `z`. */
  lemma LeftmostNext(s: Store, g: Shape, z: Node, y: Node)
    requires Linked(s, g) && z in g.nodes && Left(s, z) != NIL && Right(s, z) != NIL
    requires Leftmost(s, g, Right(s, z), y) && Left(s, y) == NIL
    ensures Next(s, g, z, y)
  {
    var r := Right(s, z);
    assert LinkOk(s, g, z) && LinkOk(s, g, y) && LinkOk(s, g, r);
    forall n | n in g.nodes && n != y
      ensures Rank(g, n) <= Rank(g, z) || Rank(g, n) > Rank(g, y)
    {
      assert Covers(s, g, y, n) && Covers(s, g, z, n);
      if Rank(g, n) == Rank(g, y) { SameRank(s, g, n, y); }
    }
    hide Linked;
  }

  lemma RightNode(s: Store, g: Shape, z: Node)
    requires Linked(s, g) && z in g.nodes && Right(s, z) != NIL
    ensures Right(s, z) in g.nodes
  {
    assert LinkOk(s, g, z);
  }

  lemma SplicedShape(s: Store, g: Shape, h: Heights, z: Node) returns (g': Shape)
    requires RedBlack(s, g, h) && z in g.nodes && HasGap(s, z)
    ensures var x := Only(s, z);
            var s' := Transplant(s, z, x);
            && OrderWithout(g, g', z) && s'.key == s.key
            && if ColorOf(s, z).BLACK? then Lacking(s', g', h, x) else RedBlack(s', g', h)
  {
    hide Linked, Only, RedBlack;
    g' := Without(g, z);
    WithoutOrder(g, z);
    SpliceKeeps(s, g, h, z);
    hide Linked, RedBlack, Lacking;
  }

  lemma OrderWithoutNodes(g: Shape, g': Shape, z: Node)
    requires OrderWithout(g, g', z)
    ensures g'.nodes == g.nodes - {z}
  {
  }
}
