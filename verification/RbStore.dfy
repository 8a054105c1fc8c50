/** Red-black trees with parent links: the nodes' fields, what makes them a search tree, and rotations.
    Each node has a rank and an interval of ranks for its subtree; these say in local terms that the links form
    a tree and what its order is. */
module RbStore {

  type Node = nat

  const NIL: Node := 0

  datatype Color = RED | BLACK

  /** The fields of all nodes. `NIL` has fields too. */
  datatype Store = Store(root: Node, key: map<Node, int>, left: map<Node, Node>, right: map<Node, Node>,
                         parent: map<Node, Node>, color: map<Node, Color>)

  /** The nodes of the tree, their places in the order, the intervals of their subtrees. */
  datatype Shape = Shape(nodes: set<Node>, rank: map<Node, real>, lo: map<Node, real>, hi: map<Node, real>)

  function Left(s: Store, n: Node): Node {
    if n in s.left then s.left[n] else NIL
  }

  function Right(s: Store, n: Node): Node {
    if n in s.right then s.right[n] else NIL
  }

  function Parent(s: Store, n: Node): Node {
    if n in s.parent then s.parent[n] else NIL
  }

  function ColorOf(s: Store, n: Node): Color {
    if n in s.color then s.color[n] else BLACK
  }

  function Key(s: Store, n: Node): int {
    if n in s.key then s.key[n] else 0
  }

  function Rank(g: Shape, n: Node): real {
    if n in g.rank then g.rank[n] else 0.0
  }

  function Lo(g: Shape, n: Node): real {
    if n in g.lo then g.lo[n] else 0.0
  }

  function Hi(g: Shape, n: Node): real {
    if n in g.hi then g.hi[n] else 0.0
  }

  // ---------- trees ----------

  predicate Within(g: Shape, m: Node, a: real, b: real) {
    a <= Lo(g, m) && Hi(g, m) <= b
  }

  predicate Between(a: real, x: real, b: real) {
    a < x < b
  }

  /** The links of one node agree with those of its neighbours. */
  predicate LinkOk(s: Store, g: Shape, n: Node) {
    && n != NIL && Between(Lo(g, n), Rank(g, n), Hi(g, n))
    && (Left(s, n) != NIL ==>
          Left(s, n) in g.nodes && Parent(s, Left(s, n)) == n && Within(g, Left(s, n), Lo(g, n), Rank(g, n)))
    && (Right(s, n) != NIL ==>
          Right(s, n) in g.nodes && Parent(s, Right(s, n)) == n && Within(g, Right(s, n), Rank(g, n), Hi(g, n)))
    && (Parent(s, n) == NIL <==> n == s.root)
    && (Parent(s, n) != NIL ==>
          Parent(s, n) in g.nodes && (Left(s, Parent(s, n)) == n || Right(s, Parent(s, n)) == n))
  }

  /** A node whose rank lies in the left or right part of `n` lies in the subtree there. */
  predicate Covers(s: Store, g: Shape, n: Node, m: Node) {
    && (Between(Lo(g, n), Rank(g, m), Rank(g, n)) ==>
          Left(s, n) != NIL && Between(Lo(g, Left(s, n)), Rank(g, m), Hi(g, Left(s, n))))
    && (Between(Rank(g, n), Rank(g, m), Hi(g, n)) ==>
          Right(s, n) != NIL && Between(Lo(g, Right(s, n)), Rank(g, m), Hi(g, Right(s, n))))
  }

  /** The intervals of two nodes are apart, or one lies in a part of the other. */
  predicate Laminar(g: Shape, m: Node, n: Node) {
    || Hi(g, m) <= Lo(g, n) || Hi(g, n) <= Lo(g, m)
    || Within(g, m, Lo(g, n), Rank(g, n)) || Within(g, m, Rank(g, n), Hi(g, n))
    || Within(g, n, Lo(g, m), Rank(g, m)) || Within(g, n, Rank(g, m), Hi(g, m))
  }

  ghost predicate Linked(s: Store, g: Shape) {
    && (if g.nodes == {} then s.root == NIL else s.root in g.nodes)
    && (forall n :: n in g.nodes ==> LinkOk(s, g, n))
    && (forall n :: n in g.nodes ==> Between(Lo(g, s.root), Rank(g, n), Hi(g, s.root)))
    && (forall n, m :: n in g.nodes && m in g.nodes ==> Covers(s, g, n, m))
    && (forall n, m :: n in g.nodes && m in g.nodes && m != n ==> Laminar(g, m, n))
  }

  /** In the order of the tree keys do not fall. */
  ghost predicate Sorted(s: Store, g: Shape) {
    forall m, n :: m in g.nodes && n in g.nodes && Rank(g, m) < Rank(g, n) ==> Key(s, m) <= Key(s, n)
  }

  // ---------- rotation ----------

  /** `u` at the place of `x` below the parent of `x`. */
  function Replace(s: Store, x: Node, u: Node): Store {
    var p := Parent(s, x);
    if p == NIL then s.(root := u)
    else if x == Left(s, p) then s.(left := s.left[p := u])
    else s.(right := s.right[p := u])
  }

  /** The first part of a left rotation: the inner subtree changes hands. */
  function Handed(s: Store, x: Node): Store {
    var y := Right(s, x);
    var s1 := s.(right := s.right[x := Left(s, y)]);
    var s2 := if Left(s1, y) != NIL then s1.(parent := s1.parent[Left(s1, y) := x]) else s1;
    s2.(parent := s2.parent[y := Parent(s2, x)])
  }

  function RotateLeft(s: Store, x: Node): Store {
    var y := Right(s, x);
    var s1 := Replace(Handed(s, x), x, y);
    s1.(left := s1.left[y := x], parent := s1.parent[x := y])
  }

  /** The upper node of a rotated pair takes over the whole interval, the lower one keeps its side. */
  function RotatedLeft(s: Store, g: Shape, x: Node): Shape {
    var y := Right(s, x);
    g.(lo := g.lo[y := Lo(g, x)], hi := g.hi[y := Hi(g, x)][x := Rank(g, y)])
  }

  /** The four nodes of a rotation are different. */
  lemma RotateDistinct(s: Store, g: Shape, x: Node)
    requires Linked(s, g) && x in g.nodes && Right(s, x) != NIL
    ensures var y, p := Right(s, x), Parent(s, x);
            var b := Left(s, y);
            y in g.nodes && LinkOk(s, g, x) && LinkOk(s, g, y) && Apart4(x, y, p, b)
    ensures Left(s, Right(s, x)) != NIL ==> Left(s, Right(s, x)) in g.nodes && LinkOk(s, g, Left(s, Right(s, x)))
    ensures Parent(s, x) != NIL ==> Parent(s, x) in g.nodes && LinkOk(s, g, Parent(s, x))
  {
    var y, p := Right(s, x), Parent(s, x);
    var b := Left(s, y);
    assert LinkOk(s, g, x) && LinkOk(s, g, y);
    assert b != NIL ==> LinkOk(s, g, b);
    assert p != NIL ==> LinkOk(s, g, p);
    hide Linked;
  }

  predicate Apart4(x: Node, y: Node, p: Node, b: Node) {
    && x != NIL && y != NIL && x != y && p != y && p != x && (b != NIL ==> b != x && b != y && b != p)
  }

  /** The fields after a rotation. */
  ghost predicate Rotated(s: Store, s': Store, x: Node) {
    var y, p := Right(s, x), Parent(s, x);
    var b := Left(s, y);
    && Right(s', x) == b && Left(s', x) == Left(s, x) && Left(s', y) == x && Right(s', y) == Right(s, y)
    && Parent(s', x) == y && Parent(s', y) == p && (b != NIL ==> Parent(s', b) == x)
    && s'.root == (if p == NIL then y else s.root)
    && (forall n :: n != x && n != y ==> Left(s', n) == if n == p && p != NIL && Left(s, p) == x then y else Left(s, n))
    && (forall n :: n != x && n != y ==>
       Right(s', n) == if n == p && p != NIL && Left(s, p) != x then y else Right(s, n))
    && (forall n :: n != x && n != y && (n != b || b == NIL) ==> Parent(s', n) == Parent(s, n))
    && s'.key == s.key && s'.color == s.color
  }

  /** The fields after `Replace`. */
  ghost predicate Replaced(s: Store, s': Store, x: Node, u: Node) {
    var p := Parent(s, x);
    && (forall n :: Left(s', n) == if n == p && p != NIL && Left(s, p) == x then u else Left(s, n))
    && (forall n :: Right(s', n) == if n == p && p != NIL && Left(s, p) != x then u else Right(s, n))
    && s'.root == (if p == NIL then u else s.root) && s' == s.(root := s'.root, left := s'.left, right := s'.right)
  }

  lemma ReplaceFields(s: Store, x: Node, u: Node)
    ensures Replaced(s, Replace(s, x, u), x, u)
  {
  }

  lemma HandedFields(s: Store, x: Node)
    requires Apart4(x, Right(s, x), Parent(s, x), Left(s, Right(s, x)))
    ensures var s', y := Handed(s, x), Right(s, x);
            var b := Left(s, y);
            && (forall n :: Right(s', n) == if n == x then b else Right(s, n))
               && s' == s.(right := s'.right, parent := s'.parent)
            && (forall n ::
               Parent(s', n) == if n == y then Parent(s, x) else if n == b && b != NIL then x else Parent(s, n))
  {
    var y := Right(s, x);
    var s1 := s.(right := s.right[x := Left(s, y)]);
    assert Left(s1, y) == Left(s, y);
  }

  lemma RotateLeftFields(s: Store, x: Node)
    requires Apart4(x, Right(s, x), Parent(s, x), Left(s, Right(s, x)))
    ensures Rotated(s, RotateLeft(s, x), x)
  {
    var y, p := Right(s, x), Parent(s, x);
    var s3 := Handed(s, x);
    HandedFields(s, x);
    assert forall n :: Left(s3, n) == Left(s, n);
    var s4 := Replace(s3, x, y);
    ReplaceFields(s3, x, y);
    var s5 := s4.(left := s4.left[y := x], parent := s4.parent[x := y]);
    assert s5 == RotateLeft(s, x);
    hide Replace, RotateLeft, Handed;
    assert forall n :: Left(s5, n) == if n == y then x else Left(s4, n);
    assert forall n :: Right(s5, n) == Right(s4, n);
    assert forall n :: Parent(s5, n) == if n == x then y else Parent(s3, n);
    hide Left, Right, Parent;
  }

  /** The ranks and intervals after a rotation. */
  ghost predicate Reshaped(g: Shape, g': Shape, x: Node, y: Node) {
    && g'.nodes == g.nodes && (forall n :: Rank(g', n) == Rank(g, n))
    && Lo(g', y) == Lo(g, x) && Hi(g', y) == Hi(g, x) && Lo(g', x) == Lo(g, x) && Hi(g', x) == Rank(g, y)
    && (forall n :: n != x && n != y ==> Lo(g', n) == Lo(g, n) && Hi(g', n) == Hi(g, n))
  }

  lemma RotatedLeftShape(s: Store, g: Shape, x: Node)
    requires x != Right(s, x)
    ensures Reshaped(g, RotatedLeft(s, g, x), x, Right(s, x))
  {
  }

  /** Everything the steps below need to know about a rotation. */
  ghost predicate Rotation(s: Store, g: Shape, s': Store, g': Shape, x: Node) {
    && Linked(s, g) && x in g.nodes && Right(s, x) != NIL
    && Rotated(s, s', x) && Reshaped(g, g', x, Right(s, x))
  }

  lemma RotatedLink(s: Store, g: Shape, s': Store, g': Shape, x: Node, n: Node)
    requires Rotation(s, g, s', g', x) && n in g.nodes
    ensures LinkOk(s', g', n)
  {
    RotateDistinct(s, g, x);
    assert LinkOk(s, g, n);
    if n != x && n != Right(s, x) {
      assert Left(s, n) != NIL ==> LinkOk(s, g, Left(s, n));
      assert Right(s, n) != NIL ==> LinkOk(s, g, Right(s, n));
      assert Parent(s, n) != NIL ==> LinkOk(s, g, Parent(s, n));
      hide Linked;
      RotatedLinkFar(s, g, s', g', x, n);
    } else {
      RotatedLinkNear(s, g, s', g', x);
    }
  }

  lemma RotatedLinkNear(s: Store, g: Shape, s': Store, g': Shape, x: Node)
    requires Rotation(s, g, s', g', x)
    ensures LinkOk(s', g', x) && LinkOk(s', g', Right(s, x))
  {
    var y := Right(s, x);
    RotateDistinct(s, g, x);
    assert Left(s, x) != NIL ==> LinkOk(s, g, Left(s, x));
    assert Right(s, y) != NIL ==> LinkOk(s, g, Right(s, y));
    hide Linked;
  }

  lemma RotatedLinkFar(s: Store, g: Shape, s': Store, g': Shape, x: Node, n: Node)
    requires Rotation(s, g, s', g', x) && n in g.nodes && n != x && n != Right(s, x)
    requires LinkOk(s, g, n)
    requires Left(s, n) != NIL ==> LinkOk(s, g, Left(s, n))
    requires Right(s, n) != NIL ==> LinkOk(s, g, Right(s, n))
    requires Parent(s, n) != NIL ==> LinkOk(s, g, Parent(s, n))
    ensures LinkOk(s', g', n)
  {
    hide Lo, Rank, Hi, Covers, Laminar, Right, Left;
    RotateDistinct(s, g, x);
    hide Linked;
    var y := Right(s, x);
    if n == Left(s, y) {
    } else if n == Parent(s, x) {
    } else {
      assert Left(s', n) == Left(s, n) && Right(s', n) == Right(s, n) && Parent(s', n) == Parent(s, n);
    }
  }

  lemma RotatedCovers(s: Store, g: Shape, s': Store, g': Shape, x: Node, n: Node, m: Node)
    requires Rotation(s, g, s', g', x) && n in g.nodes && m in g.nodes
    ensures Covers(s', g', n, m)
  {
    RotateDistinct(s, g, x);
    assert LinkOk(s, g, n);
    assert Covers(s, g, n, m) && Covers(s, g, x, m) && Covers(s, g, Right(s, x), m);
    hide Linked;
  }

  lemma RotatedLaminar(s: Store, g: Shape, s': Store, g': Shape, x: Node, m: Node, n: Node)
    requires Rotation(s, g, s', g', x) && n in g.nodes && m in g.nodes && m != n
    ensures Laminar(g', m, n)
  {
    hide Apart4, Hi, Lo, Right, Rotated;
    var y := Right(s, x);
    RotateDistinct(s, g, x);
    assert LinkOk(s, g, n) && LinkOk(s, g, m);
    assert Laminar(g, m, n);
    assert m != x ==> Laminar(g, m, x);
    assert m != y ==> Laminar(g, m, y);
    assert n != x ==> Laminar(g, n, x);
    assert n != y ==> Laminar(g, n, y);
    assert Covers(s, g, x, m) && Covers(s, g, x, n);
    hide Linked;
  }

  /** A rotation keeps the search tree: same nodes, same order. */
  lemma RotationLinked(s: Store, g: Shape, s': Store, g': Shape, x: Node)
    requires Rotation(s, g, s', g', x)
    ensures Linked(s', g')
  {
    forall n | n in g'.nodes
      ensures LinkOk(s', g', n)
    {
      RotatedLink(s, g, s', g', x, n);
    }
    forall n, m | n in g'.nodes && m in g'.nodes
      ensures Covers(s', g', n, m)
    {
      RotatedCovers(s, g, s', g', x, n, m);
    }
    forall n, m | n in g'.nodes && m in g'.nodes && m != n
      ensures Laminar(g', m, n)
    {
      RotatedLaminar(s, g, s', g', x, m, n);
    }
    RotateDistinct(s, g, x);
    hide LinkOk, Covers, Laminar;
  }

  // ---------- the other side ----------

  datatype Side = L | R

  function Other(d: Side): Side {
    if d.L? then R else L
  }

  function Child(s: Store, d: Side, n: Node): Node {
    if d.L? then Left(s, n) else Right(s, n)
  }

  function RotateRight(s: Store, y: Node): Store {
    var x := Left(s, y);
    var s1 := s.(left := s.left[y := Right(s, x)]);
    var s2 := if Right(s1, x) != NIL then s1.(parent := s1.parent[Right(s1, x) := y]) else s1;
    var s3 := s2.(parent := s2.parent[x := Parent(s2, y)]);
    var s4 := Replace(s3, y, x);
    s4.(right := s4.right[x := y], parent := s4.parent[y := x])
  }

  /** The upper node goes down to side `d`. */
  function Rotate(s: Store, d: Side, x: Node): Store {
    if d.L? then RotateLeft(s, x) else RotateRight(s, x)
  }

  /** Left and right exchanged, and the order turned round. */
  function MirrorStore(s: Store): Store {
    s.(left := s.right, right := s.left)
  }

  function Negated(m: map<Node, real>): map<Node, real> {
    map n | n in m :: -m[n]
  }

  function MirrorShape(g: Shape): Shape {
    g.(rank := Negated(g.rank), lo := Negated(g.hi), hi := Negated(g.lo))
  }

  lemma MirrorTwice(s: Store, g: Shape)
    ensures MirrorStore(MirrorStore(s)) == s && MirrorShape(MirrorShape(g)) == g
  {
    assert Negated(Negated(g.rank)) == g.rank && Negated(Negated(g.lo)) == g.lo && Negated(Negated(g.hi)) == g.hi;
  }

  lemma MirrorLinked(s: Store, g: Shape)
    requires Linked(s, g)
    ensures Linked(MirrorStore(s), MirrorShape(g))
  {
    var s', g' := MirrorStore(s), MirrorShape(g);
    forall n | n in g.nodes
      ensures LinkOk(s', g', n)
    {
      MirrorLink(s, g, n);
    }
    forall n, m | n in g.nodes && m in g.nodes
      ensures Covers(s', g', n, m)
    {
      MirrorCovers(s, g, n, m);
    }
    forall n, m | n in g.nodes && m in g.nodes && m != n
      ensures Laminar(g', m, n)
    {
      MirrorLaminar(g, m, n);
    }
    forall n | n in g.nodes
      ensures Between(Lo(g', s.root), Rank(g', n), Hi(g', s.root))
    {
      MirrorRank(g, n);
      MirrorRank(g, s.root);
    }
    hide LinkOk, Covers, Laminar, Between, Negated;
  }

  lemma MirrorLink(s: Store, g: Shape, n: Node)
    requires LinkOk(s, g, n)
    ensures LinkOk(MirrorStore(s), MirrorShape(g), n)
  {
    MirrorRank(g, n);
    MirrorRank(g, Left(s, n));
    MirrorRank(g, Right(s, n));
    hide Negated, Lo, Hi, Rank;
  }

  lemma MirrorCovers(s: Store, g: Shape, n: Node, m: Node)
    requires Covers(s, g, n, m)
    ensures Covers(MirrorStore(s), MirrorShape(g), n, m)
  {
    MirrorRank(g, n);
    MirrorRank(g, m);
    MirrorRank(g, Left(s, n));
    MirrorRank(g, Right(s, n));
    hide Negated, Lo, Hi, Rank;
  }

  lemma MirrorLaminar(g: Shape, m: Node, n: Node)
    requires Laminar(g, m, n)
    ensures Laminar(MirrorShape(g), m, n)
  {
    MirrorRank(g, n);
    MirrorRank(g, m);
    hide Negated, Lo, Hi, Rank;
  }

  lemma RotateRightMirrors(s: Store, g: Shape, y: Node)
    requires Linked(s, g) && y in g.nodes && Left(s, y) != NIL
    ensures RotateRight(s, y) == MirrorStore(RotateLeft(MirrorStore(s), y))
  {
    MirrorLinked(s, g);
    RotateDistinct(MirrorStore(s), MirrorShape(g), y);
    var p := Parent(s, y);
    assert LinkOk(s, g, y) && (p != NIL ==> LinkOk(s, g, p));
    hide Linked;
    assert p != NIL ==> (Left(s, p) == y <==> Right(s, p) != y);
    assert Left(s, y) != y && Left(s, y) != p && p != y;
    hide LinkOk, Apart4, MirrorShape;
    RotatesMirrored(s, y);
  }

  lemma RotatesMirrored(s: Store, y: Node)
    requires var p, x := Parent(s, y), Left(s, y);
             && (p != NIL ==> (Left(s, p) == y <==> Right(s, p) != y)) && x != y && x != p && p != y
             && (Right(s, x) != NIL ==> Right(s, x) != y)
    ensures RotateRight(s, y) == MirrorStore(RotateLeft(MirrorStore(s), y))
  {
    var ms, x := MirrorStore(s), Left(s, y);
    var s1, m1 := s.(left := s.left[y := Right(s, x)]), ms.(right := ms.right[y := Left(ms, x)]);
    assert m1 == MirrorStore(s1) && Left(m1, x) == Right(s1, x);
    var s2 := if Right(s1, x) != NIL then s1.(parent := s1.parent[Right(s1, x) := y]) else s1;
    var s3 := s2.(parent := s2.parent[x := Parent(s2, y)]);
    var m3 := MirrorStore(s3);
    assert Parent(s3, y) == Parent(s, y);
    assert Replace(m3, y, x) == MirrorStore(Replace(s3, y, x));
  }

  /** The fields after a rotation to side `d`. */
  ghost predicate RotatedTo(s: Store, s': Store, d: Side, x: Node) {
    var o := Other(d);
    var y, p := Child(s, o, x), Parent(s, x);
    var b := Child(s, d, y);
    && Child(s', o, x) == b && Child(s', d, x) == Child(s, d, x) && Child(s', d, y) == x
       && Child(s', o, y) == Child(s, o, y)
    && Parent(s', x) == y && Parent(s', y) == p && (b != NIL ==> Parent(s', b) == x)
    && s'.root == (if p == NIL then y else s.root)
    && (forall e: Side, n :: n != x && n != y ==>
          Child(s', e, n) == if n == p && p != NIL && Child(s, e, p) == x then y else Child(s, e, n))
    && (forall n :: n != x && n != y && (n != b || b == NIL) ==> Parent(s', n) == Parent(s, n))
    && s'.key == s.key && s'.color == s.color
  }

  /** The same nodes in the same order. */
  ghost predicate SameOrder(g: Shape, g': Shape) {
    g'.nodes == g.nodes && forall n :: Rank(g', n) == Rank(g, n)
  }

  lemma RotateLeftKeeps(s: Store, g: Shape, x: Node) returns (g': Shape)
    requires Linked(s, g) && x in g.nodes && Right(s, x) != NIL
    ensures Linked(RotateLeft(s, x), g') && SameOrder(g, g') && RotatedTo(s, RotateLeft(s, x), L, x)
  {
    RotateDistinct(s, g, x);
    RotateLeftFields(s, x);
    RotatedLeftShape(s, g, x);
    g' := RotatedLeft(s, g, x);
    RotationLinked(s, g, RotateLeft(s, x), g', x);
    RotatedSides(s, g, RotateLeft(s, x), x);
  }

  lemma RotatedSides(s: Store, g: Shape, s': Store, x: Node)
    requires Linked(s, g) && x in g.nodes && Right(s, x) != NIL && Rotated(s, s', x)
    ensures RotatedTo(s, s', L, x)
  {
    RotateDistinct(s, g, x);
    var y, p := Right(s, x), Parent(s, x);
    forall e: Side, n | n != x && n != y
      ensures Child(s', e, n) == if n == p && p != NIL && Child(s, e, p) == x then y else Child(s, e, n)
    {
      if p != NIL { assert LinkOk(s, g, p) && LinkOk(s, g, x); }
    }
    hide Linked;
  }

  /** A rotation to either side keeps the search tree and its order. */
  lemma RotateKeeps(s: Store, g: Shape, d: Side, x: Node) returns (g': Shape)
    requires Linked(s, g) && x in g.nodes && Child(s, Other(d), x) != NIL
    ensures Linked(Rotate(s, d, x), g') && SameOrder(g, g') && RotatedTo(s, Rotate(s, d, x), d, x)
  {
    if d.L? {
      g' := RotateLeftKeeps(s, g, x);
    } else {
      var ms, mg := MirrorStore(s), MirrorShape(g);
      MirrorLinked(s, g);
      RotateRightMirrors(s, g, x);
      var mg' := RotateLeftKeeps(ms, mg, x);
      var ms' := RotateLeft(ms, x);
      MirrorLinked(ms', mg');
      MirrorTwice(s, g);
      g' := MirrorShape(mg');
      hide Linked, RotateLeft, RotateRight;
      MirroredTo(s, ms', x);
      MirroredOrder(g, mg');
    }
  }

  lemma MirrorFields(s: Store, n: Node)
    ensures forall e: Side :: Child(s, e, n) == Child(MirrorStore(s), Other(e), n)
    ensures Parent(MirrorStore(s), n) == Parent(s, n) && MirrorStore(s).root == s.root
    ensures MirrorStore(s).key == s.key && MirrorStore(s).color == s.color
  {
  }

  lemma MirroredTo(s: Store, ms': Store, x: Node)
    requires RotatedTo(MirrorStore(s), ms', L, x)
    ensures RotatedTo(s, MirrorStore(ms'), R, x)
  {
    var ms, s' := MirrorStore(s), MirrorStore(ms');
    hide Child, Parent, MirrorStore;
    MirrorFields(s, x);
    MirrorFields(ms', x);
    var y, p := Child(s, L, x), Parent(s, x);
    var b := Child(s, R, y);
    MirrorFields(s, y);
    MirrorFields(ms', y);
    MirrorFields(s, p);
    MirrorFields(ms', b);
    forall e: Side, n | n != x && n != y
      ensures Child(s', e, n) == if n == p && p != NIL && Child(s, e, p) == x then y else Child(s, e, n)
    {
      MirroredChild(s, ms', x, e, n);
    }
    forall n
      ensures Parent(s', n) == Parent(ms', n) && Parent(MirrorStore(s), n) == Parent(s, n)
    {
      MirrorFields(s, n);
      MirrorFields(ms', n);
    }
  }

  lemma MirroredChild(s: Store, ms': Store, x: Node, e: Side, n: Node)
    requires RotatedTo(MirrorStore(s), ms', L, x) && n != x && n != Child(s, L, x)
    ensures var y, p := Child(s, L, x), Parent(s, x);
            Child(MirrorStore(ms'), e, n) == if n == p && p != NIL && Child(s, e, p) == x then y else Child(s, e, n)
  {
    hide Child, Parent, MirrorStore;
    MirrorFields(s, x);
    MirrorFields(s, n);
    MirrorFields(ms', n);
    var y, p := Child(s, L, x), Parent(s, x);
    MirrorFields(s, p);
    assert Child(ms', Other(e), n)
        == if n == p && p != NIL && Child(MirrorStore(s), Other(e), p) == x then y
            else Child(MirrorStore(s), Other(e), n);
  }

  lemma MirrorRank(g: Shape, n: Node)
    ensures Rank(MirrorShape(g), n) == -Rank(g, n) && Lo(MirrorShape(g), n) == -Hi(g, n)
            && Hi(MirrorShape(g), n) == -Lo(g, n)
  {
  }

  lemma MirroredOrder(g: Shape, mg': Shape)
    requires SameOrder(MirrorShape(g), mg')
    ensures SameOrder(g, MirrorShape(mg'))
  {
    forall n
      ensures Rank(MirrorShape(mg'), n) == Rank(g, n)
    {
      assert Rank(mg', n) == Rank(MirrorShape(g), n);
      MirrorRank(g, n);
      MirrorRank(mg', n);
    }
  }
}
