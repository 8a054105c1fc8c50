/** Inserting into a red-black tree: the search for the place, the new leaf, and the fix-up. */
module RbInsert {
  import opened RbSearch
  import opened RbStore

  // ---------- the new leaf ----------

  /** `z` becomes the child of `y` on side `d`, or the root. */
  function Attach(s: Store, d: Side, y: Node, z: Node): Store {
    var s1 := s.(parent := s.parent[z := y]);
    var s2 := if y == NIL then s1.(root := z)
              else if d.L? then s1.(left := s1.left[y := z])
              else s1.(right := s1.right[y := z]);
    s2.(color := s2.color[z := RED])
  }

  predicate NewNode(s: Store, g: Shape, z: Node) {
    z != NIL && z !in g.nodes && Left(s, z) == NIL && Right(s, z) == NIL
  }

  function Attached(g: Shape, z: Node, a: real, b: real): Shape {
    g.(nodes := g.nodes + {z}, rank := g.rank[z := (a + b) / 2.0], lo := g.lo[z := a], hi := g.hi[z := b])
  }

  lemma AttachRoot(s: Store, g: Shape, d: Side, z: Node)
    requires Linked(s, g) && NewNode(s, g, z) && g.nodes == {}
    ensures Linked(Attach(s, d, NIL, z), Attached(g, z, 0.0, 2.0))
  {
  }

  /** The empty left part of `y` is empty of every other node's parts too. */
  lemma GapCovers(s: Store, g: Shape, y: Node, n: Node, r: real)
    requires Linked(s, g) && y in g.nodes && Left(s, y) == NIL && n in g.nodes && n != y
    requires Between(Lo(g, y), r, Rank(g, y))
    ensures Between(Lo(g, n), r, Rank(g, n)) ==> Left(s, n) != NIL && Between(Lo(g, Left(s, n)), r, Hi(g, Left(s, n)))
    ensures Between(Rank(g, n), r, Hi(g, n)) ==>
            Right(s, n) != NIL && Between(Lo(g, Right(s, n)), r, Hi(g, Right(s, n)))
  {
    assert Laminar(g, n, y) && Covers(s, g, n, y) && Covers(s, g, y, n) && LinkOk(s, g, n) && LinkOk(s, g, y);
    if Left(s, n) != NIL && Left(s, n) != y { assert Laminar(g, Left(s, n), y) && LinkOk(s, g, Left(s, n)); }
    if Right(s, n) != NIL && Right(s, n) != y { assert Laminar(g, Right(s, n), y) && LinkOk(s, g, Right(s, n)); }
    hide Linked;
  }

  /** The fields and intervals with the new leaf `z` left of `y`. */
  ghost predicate LeafLeft(s: Store, g: Shape, s': Store, g': Shape, y: Node, z: Node) {
    && Linked(s, g) && NewNode(s, g, z) && y in g.nodes && Left(s, y) == NIL
    && (forall n :: Left(s', n) == if n == y then z else Left(s, n))
    && (forall n :: Right(s', n) == Right(s, n))
    && (forall n :: Parent(s', n) == if n == z then y else Parent(s, n))
    && s'.root == s.root && g'.nodes == g.nodes + {z}
    && (forall n :: n != z ==> Rank(g', n) == Rank(g, n) && Lo(g', n) == Lo(g, n) && Hi(g', n) == Hi(g, n))
    && Between(Lo(g, y), Rank(g', z), Rank(g, y)) && Lo(g', z) == Lo(g, y) && Hi(g', z) == Rank(g, y)
  }

  lemma LeafLaminar(s: Store, g: Shape, s': Store, g': Shape, y: Node, z: Node, n: Node)
    requires LeafLeft(s, g, s', g', y, z) && n in g.nodes
    ensures Laminar(g', z, n) && Laminar(g', n, z)
  {
    assert LinkOk(s, g, n) && LinkOk(s, g, y);
    if n != y { assert Laminar(g, n, y) && Covers(s, g, y, n); }
    hide Linked;
  }

  lemma LeafLink(s: Store, g: Shape, s': Store, g': Shape, y: Node, z: Node, n: Node)
    requires LeafLeft(s, g, s', g', y, z) && n in g'.nodes
    ensures LinkOk(s', g', n)
  {
    assert LinkOk(s, g, y);
    if n != z { assert LinkOk(s, g, n); }
    hide Linked;
  }

  lemma LeafCovers(s: Store, g: Shape, s': Store, g': Shape, y: Node, z: Node, n: Node, m: Node)
    requires LeafLeft(s, g, s', g', y, z) && n in g'.nodes && m in g'.nodes
    ensures Covers(s', g', n, m)
  {
    assert LinkOk(s, g, y);
    if n != z { assert LinkOk(s, g, n); }
    if m != z { assert Covers(s, g, y, m); }
    if n != z && m != z { assert Covers(s, g, n, m); }
    if n != z && m == z && n != y { GapCovers(s, g, y, n, Rank(g', z)); }
    hide Linked;
  }

  lemma LeafInRoot(s: Store, g: Shape, s': Store, g': Shape, y: Node, z: Node, n: Node)
    requires LeafLeft(s, g, s', g', y, z) && n in g'.nodes
    ensures s.root in g.nodes && Between(Lo(g', s.root), Rank(g', n), Hi(g', s.root))
  {
    var root := s.root;
    assert LinkOk(s, g, y) && LinkOk(s, g, root) && Between(Lo(g, root), Rank(g, y), Hi(g, root));
    if n != z { assert Between(Lo(g, root), Rank(g, n), Hi(g, root)); }
    if root != y { assert Laminar(g, root, y) && Covers(s, g, y, root); }
    hide Linked;
  }

  lemma LeafLinked(s: Store, g: Shape, s': Store, g': Shape, y: Node, z: Node)
    requires LeafLeft(s, g, s', g', y, z)
    ensures Linked(s', g')
  {
    forall n | n in g'.nodes
      ensures LinkOk(s', g', n) && Between(Lo(g', s'.root), Rank(g', n), Hi(g', s'.root))
    {
      LeafLink(s, g, s', g', y, z, n);
      LeafInRoot(s, g, s', g', y, z, n);
    }
    forall n, m | n in g'.nodes && m in g'.nodes
      ensures Covers(s', g', n, m)
    {
      LeafCovers(s, g, s', g', y, z, n, m);
    }
    forall n, m | n in g'.nodes && m in g'.nodes && m != n
      ensures Laminar(g', m, n)
    {
      if m == z {
        LeafLaminar(s, g, s', g', y, z, n);
      } else if n == z {
        LeafLaminar(s, g, s', g', y, z, m);
      } else {
        OldLaminar(s, g, s', g', y, z, m, n);
      }
    }
    LeafInRoot(s, g, s', g', y, z, y);
    hide LinkOk, Covers, Laminar, Between;
  }

  lemma OldLaminar(s: Store, g: Shape, s': Store, g': Shape, y: Node, z: Node, m: Node, n: Node)
    requires LeafLeft(s, g, s', g', y, z) && m in g.nodes && n in g.nodes && m != n
    ensures Laminar(g', m, n)
  {
    assert Laminar(g, m, n);
    hide Linked;
  }

  lemma AttachLeft(s: Store, g: Shape, y: Node, z: Node)
    requires Linked(s, g) && NewNode(s, g, z) && y in g.nodes && Left(s, y) == NIL
    ensures Linked(Attach(s, L, y, z), Attached(g, z, Lo(g, y), Rank(g, y)))
  {
    assert LinkOk(s, g, y);
    AttachLeaf(s, g, y, z);
    LeafLinked(s, g, Attach(s, L, y, z), Attached(g, z, Lo(g, y), Rank(g, y)), y, z);
  }

  lemma AttachLeaf(s: Store, g: Shape, y: Node, z: Node)
    requires Linked(s, g) && NewNode(s, g, z) && y in g.nodes && Left(s, y) == NIL && LinkOk(s, g, y)
    ensures LeafLeft(s, g, Attach(s, L, y, z), Attached(g, z, Lo(g, y), Rank(g, y)), y, z)
  {
    hide Within, Linked, NewNode;
  }

  // ---------- either side ----------

  /** The fields and ranks with the new leaf. */
  ghost predicate AttachedTo(s: Store, g: Shape, s': Store, g': Shape, d: Side, y: Node, z: Node) {
    && g'.nodes == g.nodes + {z}
    && (forall n :: n != z ==> Rank(g', n) == Rank(g, n))
    && (forall e: Side, n :: Child(s', e, n) == if n == y && y != NIL && e == d then z else Child(s, e, n))
    && (forall n :: Parent(s', n) == if n == z then y else Parent(s, n))
    && (forall n :: ColorOf(s', n) == if n == z then RED else ColorOf(s, n))
    && s'.root == (if y == NIL then z else s.root) && s'.key == s.key
    && (y != NIL && d.L? ==> Between(Lo(g, y), Rank(g', z), Rank(g, y)))
    && (y != NIL && d.R? ==> Between(Rank(g, y), Rank(g', z), Hi(g, y)))
  }

  lemma AttachKeeps(s: Store, g: Shape, d: Side, y: Node, z: Node) returns (g': Shape)
    requires Linked(s, g) && NewNode(s, g, z)
    requires if y == NIL then g.nodes == {} else y in g.nodes && Child(s, d, y) == NIL
    ensures Linked(Attach(s, d, y, z), g') && AttachedTo(s, g, Attach(s, d, y, z), g', d, y, z)
  {
    hide Linked, LinkOk, Attached;
    AttachFields(s, d, y, z);
    if y == NIL {
      g' := Attached(g, z, 0.0, 2.0);
      AttachRoot(s, g, d, z);
      AttachedRanks(g, z, 0.0, 2.0);
    } else if d.L? {
      g' := AttachLeftKeeps(s, g, y, z);
    } else {
      g' := AttachRightKeeps(s, g, y, z);
    }
  }

  /** The part of `AttachedTo` about ranks. */
  ghost predicate RankedTo(g: Shape, g': Shape, z: Node, a: real, b: real) {
    g'.nodes == g.nodes + {z} && (forall n :: n != z ==> Rank(g', n) == Rank(g, n))
        && (a < b ==> Between(a, Rank(g', z), b))
  }

  lemma AttachedRanks(g: Shape, z: Node, a: real, b: real)
    ensures RankedTo(g, Attached(g, z, a, b), z, a, b)
  {
  }

  lemma AttachFields(s: Store, d: Side, y: Node, z: Node)
    requires y != z
    ensures var s' := Attach(s, d, y, z);
            && (forall e: Side, n :: Child(s', e, n) == if n == y && y != NIL && e == d then z else Child(s, e, n))
            && (forall n :: Parent(s', n) == if n == z then y else Parent(s, n))
            && (forall n :: ColorOf(s', n) == if n == z then RED else ColorOf(s, n))
            && s'.root == (if y == NIL then z else s.root) && s'.key == s.key
  {
  }

  lemma AttachLeftKeeps(s: Store, g: Shape, y: Node, z: Node) returns (g': Shape)
    requires Linked(s, g) && NewNode(s, g, z) && y in g.nodes && Left(s, y) == NIL
    ensures Linked(Attach(s, L, y, z), g') && RankedTo(g, g', z, Lo(g, y), Rank(g, y)) && Lo(g, y) < Rank(g, y)
            && y != NIL
  {
    g' := Attached(g, z, Lo(g, y), Rank(g, y));
    assert LinkOk(s, g, y);
    hide Linked;
    AttachLeft(s, g, y, z);
    AttachedRanks(g, z, Lo(g, y), Rank(g, y));
  }

  lemma AttachRightKeeps(s: Store, g: Shape, y: Node, z: Node) returns (g': Shape)
    requires Linked(s, g) && NewNode(s, g, z) && y in g.nodes && Right(s, y) == NIL
    ensures Linked(Attach(s, R, y, z), g') && RankedTo(g, g', z, Rank(g, y), Hi(g, y)) && Rank(g, y) < Hi(g, y)
            && y != NIL
  {
    var ms, mg := MirrorStore(s), MirrorShape(g);
    MirrorLinked(s, g);
    hide Linked, LinkOk, Attached, Negated;
    var mg' := AttachLeftKeeps(ms, mg, y, z);
    MirrorLinked(Attach(ms, L, y, z), mg');
    assert MirrorStore(Attach(ms, L, y, z)) == Attach(s, R, y, z);
    g' := MirrorShape(mg');
    MirrorRank(g, y);
    MirrorRank(mg', z);
    forall n | n != z
      ensures Rank(g', n) == Rank(g, n)
    {
      MirrorRank(g, n);
      MirrorRank(mg', n);
    }
  }

  /** Keys stay sorted when the new key is at its place. */
  lemma AttachSorted(s: Store, g: Shape, s': Store, g': Shape, d: Side, y: Node, z: Node)
    requires Linked(s, g) && Sorted(s, g) && AttachedTo(s, g, s', g', d, y, z) && z !in g.nodes
    requires forall n :: n in g.nodes && Rank(g, n) < Rank(g', z) ==> Key(s, n) <= Key(s, z)
    requires forall n :: n in g.nodes && Rank(g, n) > Rank(g', z) ==> Key(s, n) > Key(s, z)
    ensures Sorted(s', g')
  {
    hide Linked;
  }

  // ---------- colors ----------

  /** Black nodes on every way down from a node; `NIL` has none. */
  type Heights = map<Node, nat>

  function H(h: Heights, n: Node): nat {
    if n != NIL && n in h then h[n] else 0
  }

  predicate Balanced(s: Store, h: Heights, n: Node) {
    H(h, Left(s, n)) == H(h, Right(s, n)) == H(h, n) - if ColorOf(s, n).BLACK? then 1 else 0
  }

  /** A red node has black children, except that `z` may be red. */
  predicate NoRedPair(s: Store, n: Node, z: Node) {
    ColorOf(s, n).RED? ==>
      && (Left(s, n) == z || ColorOf(s, Left(s, n)).BLACK?)
      && (Right(s, n) == z || ColorOf(s, Right(s, n)).BLACK?)
  }

  ghost predicate Colored(s: Store, g: Shape, h: Heights, z: Node) {
    && ColorOf(s, NIL).BLACK?
    && (forall n :: n in g.nodes ==> Balanced(s, h, n) && NoRedPair(s, n, z))
  }

  ghost predicate RedBlack(s: Store, g: Shape, h: Heights) {
    Linked(s, g) && Colored(s, g, h, NIL) && ColorOf(s, s.root).BLACK?
  }

  /** While the fix-up runs: `z` is red, and so may be its parent. */
  ghost predicate Fixing(s: Store, g: Shape, h: Heights, z: Node) {
    Linked(s, g) && Colored(s, g, h, z) && z in g.nodes && ColorOf(s, z).RED?
        && (s.root == z || ColorOf(s, s.root).BLACK?)
  }

  /** The parent and grandparent of a red node whose parent is red. */
  lemma Family(s: Store, g: Shape, h: Heights, z: Node)
    requires Fixing(s, g, h, z) && ColorOf(s, Parent(s, z)).RED?
    ensures var p := Parent(s, z);
            var q := Parent(s, p);
            && p in g.nodes && q in g.nodes && q != NIL && p != NIL && z != NIL && z != p && p != q && z != q
            && ColorOf(s, z).RED? && ColorOf(s, q).BLACK? && (Left(s, q) == p || Right(s, q) == p)
               && Left(s, q) != Right(s, q)
            && (Left(s, p) == z || Right(s, p) == z) && Left(s, p) != Right(s, p)
            && z != Left(s, q) && z != Right(s, q)
    ensures forall n :: n in g.nodes && n != Parent(s, z) ==> Left(s, n) != z && Right(s, n) != z
    ensures forall n :: n in g.nodes && n != Parent(s, Parent(s, z)) ==>
            Left(s, n) != Parent(s, z) && Right(s, n) != Parent(s, z)
  {
    var p := Parent(s, z);
    var q := Parent(s, p);
    assert LinkOk(s, g, z) && LinkOk(s, g, p) && LinkOk(s, g, q);
    forall n | n in g.nodes && n != p
      ensures Left(s, n) != z && Right(s, n) != z
    {
      assert LinkOk(s, g, n);
    }
    forall n | n in g.nodes && n != q
      ensures Left(s, n) != p && Right(s, n) != p
    {
      assert LinkOk(s, g, n);
    }
    assert NoRedPair(s, q, z);
    hide Linked;
  }

  /** Three fields' colors. */
  function Recolor(s: Store, p: Node, u: Node, q: Node): Store {
    s.(color := s.color[p := BLACK][u := BLACK][q := RED])
  }

  function Uncle(s: Store, z: Node): Node {
    var p := Parent(s, z);
    if Left(s, Parent(s, p)) == p then Right(s, Parent(s, p)) else Left(s, Parent(s, p))
  }

  lemma SameLinks(s: Store, s': Store, g: Shape)
    requires Linked(s, g) && s' == s.(color := s'.color)
    ensures Linked(s', g)
  {
    forall n | n in g.nodes
      ensures LinkOk(s', g, n)
    {
      assert LinkOk(s, g, n);
    }
    forall n, m | n in g.nodes && m in g.nodes
      ensures Covers(s', g, n, m)
    {
      assert Covers(s, g, n, m);
    }
    hide LinkOk, Covers;
  }

  lemma UncleFacts(s: Store, g: Shape, h: Heights, z: Node)
    requires Fixing(s, g, h, z) && ColorOf(s, Parent(s, z)).RED?
    ensures var p, u := Parent(s, z), Uncle(s, z);
            var q := Parent(s, p);
            && ((Left(s, q) == p && Right(s, q) == u) || (Left(s, q) == u && Right(s, q) == p))
            && (u != NIL ==> u in g.nodes && Parent(s, u) == q && u != p && u != q && u != z && u != s.root)
            && p != s.root && z != s.root && (Parent(s, q) == NIL ==> q == s.root)
            && Balanced(s, h, p) && Balanced(s, h, q) && (u != NIL ==> Balanced(s, h, u))
  {
    Family(s, g, h, z);
    var p, u := Parent(s, z), Uncle(s, z);
    var q := Parent(s, p);
    assert LinkOk(s, g, q) && LinkOk(s, g, p) && LinkOk(s, g, z);
    if u != NIL { assert LinkOk(s, g, u); }
    hide Linked;
  }

  /** A red uncle: the grandparent becomes the red node that may have a red parent. */
  lemma RecolorStep(s: Store, g: Shape, h: Heights, z: Node)
    requires Fixing(s, g, h, z) && ColorOf(s, Parent(s, z)).RED? && ColorOf(s, Uncle(s, z)).RED?
    ensures var p, u := Parent(s, z), Uncle(s, z);
            var q := Parent(s, p);
            Fixing(Recolor(s, p, u, q), g, h[p := H(h, p) + 1][u := H(h, u) + 1], q)
  {
    hide Linked, LinkOk, Balanced, NoRedPair, Uncle, Left, Right, Parent;
    Family(s, g, h, z);
    UncleFacts(s, g, h, z);
    var p, u := Parent(s, z), Uncle(s, z);
    var q := Parent(s, p);
    var s', h' := Recolor(s, p, u, q), h[p := H(h, p) + 1][u := H(h, u) + 1];
    SameLinks(s, s', g);
    forall n | n in g.nodes
      ensures Balanced(s', h', n) && NoRedPair(s', n, q)
    {
      NodeFacts(s, g, h, z, n);
      RecolorNode(s, g, h, z, p, u, q, n);
    }
  }

  lemma NodeFacts(s: Store, g: Shape, h: Heights, z: Node, n: Node)
    requires Linked(s, g) && Colored(s, g, h, z) && n in g.nodes
    ensures LinkOk(s, g, n) && Balanced(s, h, n) && NoRedPair(s, n, z)
  {
  }

  lemma RecolorNode(s: Store, g: Shape, h: Heights, z: Node, p: Node, u: Node, q: Node, n: Node)
    requires LinkOk(s, g, n) && Balanced(s, h, n) && NoRedPair(s, n, z) && n in g.nodes
    requires p != NIL && u != NIL && q != NIL && z != NIL && p != u && u != q && p != q
    requires Parent(s, z) == p && Parent(s, p) == q && Parent(s, u) == q
    requires ColorOf(s, p).RED? && ColorOf(s, u).RED? && ColorOf(s, q).BLACK?
    requires Balanced(s, h, p) && Balanced(s, h, u) && Balanced(s, h, q)
    requires (Left(s, q) == p && Right(s, q) == u) || (Left(s, q) == u && Right(s, q) == p)
    requires ColorOf(s, NIL).BLACK?
    ensures var s', h' := Recolor(s, p, u, q), h[p := H(h, p) + 1][u := H(h, u) + 1];
            Balanced(s', h', n) && NoRedPair(s', n, q)
  {
  }

  /** What an operation that only moves links must establish for one node. */
  predicate Kept(s: Store, h: Heights, n: Node, z: Node) {
    && H(h, Child(s, L, n)) == H(h, Child(s, R, n)) == H(h, n) - (if ColorOf(s, n).BLACK? then 1 else 0)
    && (ColorOf(s, n).RED? ==>
          (Child(s, L, n) == z || ColorOf(s, Child(s, L, n)).BLACK?)
              && (Child(s, R, n) == z || ColorOf(s, Child(s, R, n)).BLACK?))
  }

  lemma KeptIs(s: Store, h: Heights, n: Node, z: Node)
    ensures Kept(s, h, n, z) <==> Balanced(s, h, n) && NoRedPair(s, n, z)
  {
  }

  /** `z` is an inner grandchild: its parent goes down, and is now the red node with a red parent. */
  lemma InnerNode(s: Store, h: Heights, d: Side, z: Node, p: Node, q: Node, s': Store, n: Node)
    requires RotatedTo(s, s', d, p) && Parent(s, p) == q && Child(s, Other(d), p) == z && Child(s, d, p) != z
    requires z != NIL && p != NIL && q != NIL && z != p && p != q && z != q
    requires ColorOf(s, z).RED? && ColorOf(s, p).RED?
    requires Kept(s, h, n, z) && Kept(s, h, p, z) && Kept(s, h, z, z) && ColorOf(s, NIL).BLACK?
    requires n != p ==> Child(s, L, n) != z && Child(s, R, n) != z
    requires n != q ==> Child(s, L, n) != p && Child(s, R, n) != p
    requires Child(s, d, z) != z && Child(s, Other(d), z) != z && n != NIL
    ensures Kept(s', h, n, p)
  {
    hide Child, Parent, H;
    assert forall m :: ColorOf(s', m) == ColorOf(s, m);
    if n == p {
    } else if n == z {
    } else {
      assert Child(s', L, n) == if n == q && Child(s, L, q) == p then z else Child(s, L, n);
      assert Child(s', R, n) == if n == q && Child(s, R, q) == p then z else Child(s, R, n);
    }
  }

  lemma OwnChild(s: Store, g: Shape, n: Node)
    requires Linked(s, g) && n in g.nodes
    ensures n != NIL && Left(s, n) != n && Right(s, n) != n && (Left(s, n) == Right(s, n) ==> Left(s, n) == NIL)
  {
    assert LinkOk(s, g, n);
    hide Linked;
  }

  lemma InnerStep(s: Store, g: Shape, h: Heights, d: Side, z: Node) returns (g': Shape)
    requires Fixing(s, g, h, z) && ColorOf(s, Parent(s, z)).RED?
    requires Child(s, Other(d), Parent(s, z)) == z && Child(s, d, Parent(s, Parent(s, z))) == Parent(s, z)
    ensures var p := Parent(s, z);
            var s' := Rotate(s, d, p);
            && Fixing(s', g', h, p) && SameOrder(g, g') && s'.key == s.key && s'.color == s.color
               && RotatedTo(s, s', d, p)
  {
    hide Linked, LinkOk, Balanced, NoRedPair, Rotate;
    Family(s, g, h, z);
    UncleFacts(s, g, h, z);
    var p := Parent(s, z);
    g' := RotateKeeps(s, g, d, p);
    var s' := Rotate(s, d, p);
    forall n | n in g'.nodes
      ensures Balanced(s', h, n) && NoRedPair(s', n, p)
    {
      NodeFacts(s, g, h, z, n);
      NodeFacts(s, g, h, z, p);
      NodeFacts(s, g, h, z, z);
      KeptIs(s, h, n, z);
      KeptIs(s, h, p, z);
      KeptIs(s, h, z, z);
      OwnChild(s, g, z);
      InnerNode(s, h, d, z, p, Parent(s, p), s', n);
      KeptIs(s', h, n, p);
    }
  }

  /** Where the outer case stands after the inner one. */
  lemma InnerPlaces(s: Store, s': Store, d: Side, z: Node)
    requires var p := Parent(s, z);
             var q := Parent(s, p);
             && RotatedTo(s, s', d, p) && Child(s, Other(d), p) == z && Child(s, d, q) == p
             && q != p && q != z && z != p && q != NIL && Child(s, Other(d), q) != p
    ensures var p := Parent(s, z);
            var q := Parent(s, p);
            && Parent(s', p) == z && Parent(s', z) == q && Child(s', d, z) == p && Child(s', d, q) == z
            && Child(s', Other(d), q) == Child(s, Other(d), q)
  {
    hide Child, Parent;
    var p := Parent(s, z);
    var q := Parent(s, p);
    assert Child(s', d, q) == z && Child(s', Other(d), q) == Child(s, Other(d), q);
  }

  /** The colors before the last rotation. */
  function Repaint(s: Store, p: Node, q: Node): Store {
    s.(color := s.color[p := BLACK][q := RED])
  }

  /** Links after a rotation about `q`: its child `p` on side `d` is above it now. */
  ghost predicate Turned(s: Store, d: Side, p: Node, q: Node, s': Store) {
    var o := Other(d);
    && Child(s', d, p) == Child(s, d, p) && Child(s', o, p) == q && Child(s', d, q) == Child(s, o, p)
       && Child(s', o, q) == Child(s, o, q)
    && (forall e: Side, n :: n != p && n != q && Child(s, e, n) != q ==> Child(s', e, n) == Child(s, e, n))
    && (forall e: Side, n :: n != p && n != q && Child(s', e, n) != Child(s, e, n) ==>
       Child(s, e, n) == q && Child(s', e, n) == p)
    && (forall e: Side, n ::
       n != p && n != q && Child(s, e, n) == q && n == Parent(s, q) && n != NIL ==> Child(s', e, n) == p)
  }

  lemma TurnedIs(s: Store, s1: Store, d: Side, p: Node, q: Node, s': Store)
    requires RotatedTo(s1, s', Other(d), q) && s1 == s.(color := s1.color) && Child(s, d, q) == p
    requires p != q && p != NIL && q != NIL
    ensures Turned(s, d, p, q, s')
  {
    assert forall e: Side, m :: Child(s1, e, m) == Child(s, e, m);
    assert Parent(s1, q) == Parent(s, q);
    hide Child, Parent;
  }

  /** Links, colors and heights after the last rotation: `p` is above `q` now. */
  ghost predicate Outer(s: Store, h: Heights, d: Side, p: Node, q: Node, s': Store, h': Heights) {
    && Turned(s, d, p, q, s')
    && (forall m :: ColorOf(s', m) == if m == p then BLACK else if m == q then RED else ColorOf(s, m))
    && (forall m :: H(h', m) == if m == p then H(h, p) + 1 else if m == q then H(h, p) else H(h, m))
  }

  lemma OuterIs(s: Store, h: Heights, d: Side, p: Node, q: Node, s': Store)
    requires RotatedTo(Repaint(s, p, q), s', Other(d), q) && Child(s, d, q) == p && p != q && p != NIL && q != NIL
    ensures Outer(s, h, d, p, q, s', h[q := H(h, p)][p := H(h, p) + 1])
  {
    var h' := h[q := H(h, p)][p := H(h, p) + 1];
    TurnedIs(s, Repaint(s, p, q), d, p, q, s');
    assert forall m :: ColorOf(s', m) == if m == p then BLACK else if m == q then RED else ColorOf(s, m);
    assert forall m :: H(h', m) == if m == p then H(h, p) + 1 else if m == q then H(h, p) else H(h, m);
    hide H, ColorOf, Repaint, Turned;
  }

  /** A red node takes the place of its black parent, and they exchange their colors. */
  lemma OuterNear(s: Store, h: Heights, d: Side, z: Node, p: Node, q: Node, s': Store, h': Heights)
    requires Outer(s, h, d, p, q, s', h') && Child(s, d, q) == p && p != q
    requires ColorOf(s, p).RED? && ColorOf(s, q).BLACK?
    requires ColorOf(s, Child(s, Other(d), q)).BLACK? && ColorOf(s, Child(s, Other(d), p)).BLACK?
    requires Child(s, Other(d), q) != p && Child(s, Other(d), q) != q
    requires Child(s, Other(d), p) != p && Child(s, Other(d), p) != q && Child(s, d, p) != p && Child(s, d, p) != q
    requires Kept(s, h, p, z) && Kept(s, h, q, z)
    ensures Kept(s', h', p, z) && Kept(s', h', q, z)
  {
    hide Child, Parent, H, ColorOf;
  }

  lemma OuterFar(s: Store, h: Heights, d: Side, z: Node, p: Node, q: Node, s': Store, h': Heights, n: Node)
    requires Outer(s, h, d, p, q, s', h') && ColorOf(s, p).RED? && n != p && n != q && n != NIL
    requires Kept(s, h, n, z) && ColorOf(s, q).BLACK? && H(h, q) == H(h, p) + 1
    requires Child(s, L, n) != p && Child(s, R, n) != p
    requires n != Parent(s, q) ==> Child(s, L, n) != q && Child(s, R, n) != q
    ensures Kept(s', h', n, z)
  {
    hide Child, Parent, H, ColorOf;
  }

  lemma OnlyParent(s: Store, g: Shape, n: Node, q: Node)
    requires Linked(s, g) && n in g.nodes && q != NIL && n != Parent(s, q)
    ensures Child(s, L, n) != q && Child(s, R, n) != q
  {
    assert LinkOk(s, g, n);
    hide Linked;
  }

  lemma Above(s: Store, g: Shape, p: Node, q: Node)
    requires Linked(s, g) && p in g.nodes && q in g.nodes && Parent(s, p) == q
    ensures (q == s.root <==> Parent(s, q) == NIL) && Parent(s, q) != p
  {
    assert LinkOk(s, g, q) && LinkOk(s, g, p);
    hide Linked;
  }

  lemma OuterStep(s: Store, g: Shape, h: Heights, d: Side, z: Node) returns (g': Shape, h': Heights)
    requires Fixing(s, g, h, z) && ColorOf(s, Parent(s, z)).RED?
    requires var q := Parent(s, Parent(s, z));
             && Child(s, d, Parent(s, z)) == z && Child(s, d, q) == Parent(s, z)
                && ColorOf(s, Child(s, Other(d), q)).BLACK?
    ensures var p := Parent(s, z);
            var s' := Rotate(Repaint(s, p, Parent(s, p)), Other(d), Parent(s, p));
            && Fixing(s', g', h', z) && SameOrder(g, g') && s'.key == s.key
            && Parent(s', z) == p && ColorOf(s', p).BLACK?
  {
    hide Linked, LinkOk, Balanced, NoRedPair, Rotate, RotatedTo, Outer, Kept;
    var p := Parent(s, z);
    var q := Parent(s, p);
    Family(s, g, h, z);
    UncleFacts(s, g, h, z);
    SameLinks(s, Repaint(s, p, q), g);
    g' := RotateKeeps(Repaint(s, p, q), g, Other(d), q);
    h' := h[q := H(h, p)][p := H(h, p) + 1];
    var s' := Rotate(Repaint(s, p, q), Other(d), q);
    OuterIs(s, h, d, p, q, s');
    Above(s, g, p, q);
    OuterColors(s, h, d, z, p, q, s', h');
    OwnChild(s, g, p);
    OwnChild(s, g, q);
    OnlyParent(s, g, p, q);
    NodeFacts(s, g, h, z, p);
    NodeFacts(s, g, h, z, q);
    KeptIs(s, h, p, z);
    KeptIs(s, h, q, z);
    forall n | n in g'.nodes
      ensures Balanced(s', h', n) && NoRedPair(s', n, z)
    {
      KeptIs(s', h', n, z);
      if n == p || n == q {
        OuterNear(s, h, d, z, p, q, s', h');
      } else {
        OwnChild(s, g, n);
        if n != Parent(s, q) { OnlyParent(s, g, n, q); }
        NodeFacts(s, g, h, z, n);
        KeptIs(s, h, n, z);
        GrandHeight(s, h, p, q, z);
        OuterFar(s, h, d, z, p, q, s', h', n);
      }
    }
  }

  lemma GrandHeight(s: Store, h: Heights, p: Node, q: Node, z: Node)
    requires Kept(s, h, q, z) && ColorOf(s, q).BLACK? && (Left(s, q) == p || Right(s, q) == p)
    ensures H(h, q) == H(h, p) + 1
  {
  }

  lemma OuterColors(s: Store, h: Heights, d: Side, z: Node, p: Node, q: Node, s': Store, h': Heights)
    requires Outer(s, h, d, p, q, s', h') && RotatedTo(Repaint(s, p, q), s', Other(d), q)
    requires Parent(s, z) == p && Child(s, d, q) == p && Child(s, d, p) == z && Child(s, Other(d), p) != z
    requires z != p && p != q && z != q && z != NIL && p != NIL && q != NIL
    requires ColorOf(s, z).RED? && ColorOf(s, NIL).BLACK? && ColorOf(s, s.root).BLACK?
    requires q == s.root <==> Parent(s, q) == NIL
    ensures ColorOf(s', NIL).BLACK? && ColorOf(s', z).RED? && ColorOf(s', p).BLACK? && ColorOf(s', s'.root).BLACK?
    ensures Parent(s', z) == p && s'.key == s.key
  {
    var s1 := Repaint(s, p, q);
    assert Parent(s1, q) == Parent(s, q) && Parent(s1, z) == Parent(s, z) && Child(s1, d, q) == Child(s, d, q);
    assert Child(s1, Other(d), p) == Child(s, Other(d), p);
    assert s1.root == s.root && s1.key == s.key;
    hide Child, Parent, ColorOf, Repaint;
  }

  // ---------- the end ----------

  lemma FixedParent(s: Store, g: Shape, h: Heights, z: Node)
    requires Fixing(s, g, h, z) && ColorOf(s, Parent(s, z)).BLACK? && s.root != z
    ensures RedBlack(s, g, h)
  {
    assert LinkOk(s, g, z);
    forall n | n in g.nodes
      ensures NoRedPair(s, n, NIL)
    {
      assert LinkOk(s, g, n) && NoRedPair(s, n, z);
    }
    hide Linked;
  }

  /** The last line of the fix-up paints the root black. */
  function BlackRoot(s: Store): Store {
    s.(color := s.color[s.root := BLACK])
  }

  lemma BlackenRoot(s: Store, g: Shape, h: Heights, z: Node) returns (h': Heights)
    requires Fixing(s, g, h, z) && ColorOf(s, Parent(s, z)).BLACK?
    ensures RedBlack(BlackRoot(s), g, h')
  {
    var s' := BlackRoot(s);
    SameLinks(s, s', g);
    if s.root == z {
      h' := h[z := H(h, z) + 1];
      forall n | n in g.nodes
        ensures Balanced(s', h', n) && NoRedPair(s', n, NIL)
      {
        NodeFacts(s, g, h, z, n);
        NodeFacts(s, g, h, z, z);
        RootNode(s, g, h, z, n);
      }
    } else {
      h' := h;
      FixedParent(s, g, h, z);
      forall n | n in g.nodes
        ensures Balanced(s', h', n) && NoRedPair(s', n, NIL)
      {
        NodeFacts(s, g, h, NIL, n);
        SameColors(s, s', h, n);
      }
    }
    hide Linked, Balanced, NoRedPair;
  }

  lemma RootNode(s: Store, g: Shape, h: Heights, z: Node, n: Node)
    requires z == s.root && LinkOk(s, g, n) && LinkOk(s, g, z) && Balanced(s, h, n) && NoRedPair(s, n, z)
             && ColorOf(s, z).RED?
    requires ColorOf(s, NIL).BLACK?
    ensures Balanced(BlackRoot(s), h[z := H(h, z) + 1], n) && NoRedPair(BlackRoot(s), n, NIL)
  {
  }

  lemma SameColors(s: Store, s': Store, h: Heights, n: Node)
    requires s' == BlackRoot(s) && ColorOf(s, s.root).BLACK? && Balanced(s, h, n) && NoRedPair(s, n, NIL)
    ensures Balanced(s', h, n) && NoRedPair(s', n, NIL)
  {
  }

  // ---------- from the search to the fix-up ----------

  /** The new leaf is in order, behind the keys equal to its own. */
  lemma PlaceSorted(s: Store, g: Shape, s': Store, g': Shape, d: Side, y: Node, z: Node)
    requires Linked(s, g) && Sorted(s, g) && z !in g.nodes && Place(s, g, d, y, z) && AttachedTo(s, g, s', g', d, y, z)
    ensures Sorted(s', g')
    ensures forall n :: n in g.nodes ==>
            Rank(g', n) == Rank(g, n) && (Rank(g', n) < Rank(g', z) <==> Key(s', n) <= Key(s', z))
  {
    hide Linked;
    AttachSorted(s, g, s', g', d, y, z);
  }

  /** The new red leaf fits the colors, but for its parent's. */
  lemma AttachColored(s: Store, g: Shape, h: Heights, s': Store, g': Shape, d: Side, y: Node, z: Node)
    requires RedBlack(s, g, h) && NewNode(s, g, z) && AttachedTo(s, g, s', g', d, y, z) && Linked(s', g')
    requires if y == NIL then g.nodes == {} else y in g.nodes && Child(s, d, y) == NIL
    ensures Fixing(s', g', h[z := 0], z)
  {
    assert y != NIL ==> s.root in g.nodes;
    hide Linked;
    forall n | n in g'.nodes
      ensures Balanced(s', h[z := 0], n) && NoRedPair(s', n, z)
    {
      KeptIs(s', h[z := 0], n, z);
      if n != z {
        NodeFacts(s, g, h, NIL, n);
        KeptIs(s, h, n, NIL);
        AttachedNode(s, g, h, s', g', d, y, z, n);
      }
    }
  }

  lemma AttachedNode(s: Store, g: Shape, h: Heights, s': Store, g': Shape, d: Side, y: Node, z: Node, n: Node)
    requires AttachedTo(s, g, s', g', d, y, z) && n in g.nodes && LinkOk(s, g, n) && Kept(s, h, n, NIL)
    requires z !in g.nodes && z != NIL && (y != NIL ==> Child(s, d, y) == NIL) && ColorOf(s, NIL).BLACK?
    ensures Kept(s', h[z := 0], n, z)
  {
    assert Child(s, L, n) != z && Child(s, R, n) != z && n != NIL && n != z;
    hide LinkOk, Child, ColorOf;
  }

  /** The new leaf is at its place, and what follows can only be its own color. */
  lemma LeafAdded(s: Store, g: Shape, h: Heights, d: Side, y: Node, z: Node) returns (g': Shape)
    requires RedBlack(s, g, h) && Sorted(s, g) && NewNode(s, g, z) && Place(s, g, d, y, z)
    ensures var s' := Attach(s, d, y, z);
            && Fixing(s', g', h[z := 0], z) && Sorted(s', g') && g'.nodes == g.nodes + {z} && s'.key == s.key
            && forall n :: n in g.nodes ==>
               Rank(g', n) == Rank(g, n) && (Rank(g', n) < Rank(g', z) <==> Key(s, n) <= Key(s, z))
  {
    hide LinkOk;
    g' := AttachKeeps(s, g, d, y, z);
    var s' := Attach(s, d, y, z);
    hide Linked, Colored, Sorted, Attach, NewNode;
    PlaceSorted(s, g, s', g', d, y, z);
    AttachColored(s, g, h, s', g', d, y, z);
  }

  // ---------- one turn of the loop ----------

  /** How much is left for the fix-up: the nodes that are not below `z`, while its parent is red. */
  ghost function FixMeasure(s: Store, g: Shape, z: Node): nat {
    if ColorOf(s, Parent(s, z)).RED? then |Outside(g, z)| + 1 else 0
  }

  lemma FixedMeasure(s: Store, g: Shape, z: Node)
    requires ColorOf(s, Parent(s, z)).BLACK?
    ensures FixMeasure(s, g, z) == 0
  {
  }

  lemma RedMeasure(s: Store, g: Shape, z: Node)
    requires ColorOf(s, Parent(s, z)).RED?
    ensures FixMeasure(s, g, z) > 0
  {
  }

  lemma RecolorMeasure(s: Store, g: Shape, h: Heights, z: Node, s': Store)
    requires Fixing(s, g, h, z) && ColorOf(s, Parent(s, z)).RED?
    ensures FixMeasure(s', g, Parent(s, Parent(s, z))) < FixMeasure(s, g, z)
  {
    Family(s, g, h, z);
    ParentOutside(s, g, z);
    ParentOutside(s, g, Parent(s, z));
    Smaller(Outside(g, Parent(s, Parent(s, z))), Outside(g, z));
  }

  lemma OrderSorted(s: Store, g: Shape, s': Store, g': Shape)
    requires Sorted(s, g) && SameOrder(g, g') && s'.key == s.key
    ensures Sorted(s', g')
  {
  }

  lemma OrderRefl(g: Shape)
    ensures SameOrder(g, g)
  {
  }

  lemma UncleIs(s: Store, d: Side, z: Node)
    requires d.L? <==> Parent(s, z) == Left(s, Parent(s, Parent(s, z)))
    ensures Child(s, Other(d), Parent(s, Parent(s, z))) == Uncle(s, z)
  {
  }

  lemma OrderTrans(g: Shape, g1: Shape, g2: Shape)
    requires SameOrder(g, g1) && SameOrder(g1, g2)
    ensures SameOrder(g, g2)
  {
  }
}
