/** The way down a search tree: what is left to look at after each comparison. */
module RbSearch {
  import opened RbStore

  /** The nodes whose places in the order lie between two bounds. */
  ghost function Inside(g: Shape, a: real, b: real): set<Node> {
    set n | n in g.nodes && Between(a, Rank(g, n), b)
  }

  /** All nodes between the bounds are in the subtree of `x`. */
  ghost predicate Window(s: Store, g: Shape, a: real, b: real, x: Node) {
    && a < b && (x != NIL ==> x in g.nodes && Within(g, x, a, b))
    && (forall n :: n in g.nodes && Between(a, Rank(g, n), b) ==> x != NIL && Between(Lo(g, x), Rank(g, n), Hi(g, x)))
  }

  lemma WholeTree(s: Store, g: Shape) returns (a: real, b: real)
    requires Linked(s, g)
    ensures Window(s, g, a, b, s.root) && (forall n :: n in g.nodes ==> Between(a, Rank(g, n), b))
    ensures (s.root == NIL <==> g.nodes == {})
  {
    if s.root == NIL {
      a, b := 0.0, 1.0;
      assert s.root in g.nodes ==> LinkOk(s, g, s.root);
    } else {
      a, b := Lo(g, s.root), Hi(g, s.root);
      assert LinkOk(s, g, s.root);
    }
  }

  function Below(g: Shape, d: Side, x: Node): real {
    if d.L? then Lo(g, x) else Rank(g, x)
  }

  function Over(g: Shape, d: Side, x: Node): real {
    if d.L? then Rank(g, x) else Hi(g, x)
  }

  /** One step to side `d`: the window narrows to that part of the subtree and leaves out only `x` and the other
      part. */
  lemma SearchStep(s: Store, g: Shape, a: real, b: real, x: Node, d: Side)
    requires Linked(s, g) && Window(s, g, a, b, x) && x != NIL
    ensures Window(s, g, Below(g, d, x), Over(g, d, x), Child(s, d, x))
    ensures forall n :: n in g.nodes ==>
            (Rank(g, n) <= Lo(g, x) ==> Rank(g, n) <= a) && (Rank(g, n) >= Hi(g, x) ==> Rank(g, n) >= b)
    ensures Inside(g, Below(g, d, x), Over(g, d, x)) < Inside(g, a, b)
  {
    assert LinkOk(s, g, x);
    forall n | n in g.nodes && Between(Below(g, d, x), Rank(g, n), Over(g, d, x))
      ensures Child(s, d, x) != NIL && Between(Lo(g, Child(s, d, x)), Rank(g, n), Hi(g, Child(s, d, x)))
    {
      assert Covers(s, g, x, n);
    }
    hide Linked;
    assert x in Inside(g, a, b) && x !in Inside(g, Below(g, d, x), Over(g, d, x));
  }

  /** The keys on either side of a window, compared with the key of `z`. */
  ghost predicate KeysAround(s: Store, g: Shape, a: real, b: real, z: Node) {
    forall n :: n in g.nodes ==>
        (Rank(g, n) <= a ==> Key(s, n) <= Key(s, z)) && (Rank(g, n) >= b ==> Key(s, n) > Key(s, z))
  }

  lemma KeysNarrow(s: Store, g: Shape, a: real, b: real, x: Node, d: Side, z: Node)
    requires Linked(s, g) && Sorted(s, g) && Window(s, g, a, b, x) && x != NIL && KeysAround(s, g, a, b, z)
    requires d.L? <==> Key(s, z) < Key(s, x)
    ensures KeysAround(s, g, Below(g, d, x), Over(g, d, x), z)
  {
    SearchStep(s, g, a, b, x, d);
    forall n | n in g.nodes
      ensures Rank(g, n) <= Below(g, d, x) ==> Key(s, n) <= Key(s, z)
      ensures Rank(g, n) >= Over(g, d, x) ==> Key(s, n) > Key(s, z)
    {
      if Rank(g, x) == Rank(g, n) { SameRank(s, g, x, n); }
    }
    hide Linked;
  }

  lemma FindNarrow(s: Store, g: Shape, a: real, b: real, x: Node, d: Side, key: int)
    requires Linked(s, g) && Sorted(s, g) && Window(s, g, a, b, x) && x != NIL && Key(s, x) != key
    requires d.L? <==> key < Key(s, x)
    requires forall m :: m in g.nodes && Key(s, m) == key ==> Between(a, Rank(g, m), b)
    ensures forall m :: m in g.nodes && Key(s, m) == key ==> Between(Below(g, d, x), Rank(g, m), Over(g, d, x))
  {
    forall m | m in g.nodes && Key(s, m) == key
      ensures Between(Below(g, d, x), Rank(g, m), Over(g, d, x))
    {
      assert Between(a, Rank(g, m), b);
      if Rank(g, x) == Rank(g, m) { SameRank(s, g, x, m); }
    }
    hide Linked;
  }

  lemma SameRank(s: Store, g: Shape, x: Node, n: Node)
    requires Linked(s, g) && x in g.nodes && n in g.nodes && Rank(g, x) == Rank(g, n)
    ensures x == n
  {
    assert LinkOk(s, g, x) && LinkOk(s, g, n);
    assert x != n ==> Laminar(g, x, n);
  }

  /** Where a new key belongs: below `y` on side `d`. */
  ghost predicate Place(s: Store, g: Shape, d: Side, y: Node, z: Node) {
    if y == NIL then g.nodes == {}
    else
      && y in g.nodes && Child(s, d, y) == NIL
      && Window(s, g, Below(g, d, y), Over(g, d, y), NIL) && KeysAround(s, g, Below(g, d, y), Over(g, d, y), z)
  }

  // ---------- the fix-up after an insertion ends ----------

  /** The nodes that are not below `z`. */
  ghost function Outside(g: Shape, z: Node): set<Node> {
    set n | n in g.nodes && !Between(Lo(g, z), Rank(g, n), Hi(g, z))
  }

  lemma ParentOutside(s: Store, g: Shape, z: Node)
    requires Linked(s, g) && z in g.nodes && Parent(s, z) != NIL
    ensures Parent(s, z) in g.nodes && Outside(g, Parent(s, z)) < Outside(g, z)
  {
    var p := Parent(s, z);
    assert LinkOk(s, g, z) && LinkOk(s, g, p);
    hide Linked;
    assert p in Outside(g, z) && p !in Outside(g, p);
  }

  lemma Smaller<T>(a: set<T>, b: set<T>)
    requires a < b
    ensures |a| < |b|
  {
    assert |b| == |a| + |b - a| by {
      assert b == a + (b - a);
    }
    var x :| x in b - a;
  }
}
