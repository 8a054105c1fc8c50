/** What the colors are for: all ways down have the same number of black nodes, and none is twice as long as another. */
module RbBalance {
  import opened RbInsert
  import opened RbStore

  /** Where the steps lead, or `NIL` once the tree ends. */
  function Walk(s: Store, n: Node, way: seq<Side>): Node
    decreases |way|
  {
    if n == NIL || way == [] then n else Walk(s, Child(s, way[0], n), way[1..])
  }

  /** The nodes passed on the way. */
  function Passed(s: Store, n: Node, way: seq<Side>): nat
    decreases |way|
  {
    if n == NIL || way == [] then 0 else 1 + Passed(s, Child(s, way[0], n), way[1..])
  }

  function Blacks(s: Store, n: Node, way: seq<Side>): nat
    decreases |way|
  {
    if n == NIL || way == [] then 0
    else (if ColorOf(s, n).BLACK? then 1 else 0) + Blacks(s, Child(s, way[0], n), way[1..])
  }

  lemma ChildFacts(s: Store, g: Shape, h: Heights, n: Node, d: Side)
    requires RedBlack(s, g, h) && n in g.nodes
    ensures n != NIL && (Child(s, d, n) != NIL ==> Child(s, d, n) in g.nodes)
    ensures H(h, Child(s, d, n)) + (if ColorOf(s, n).BLACK? then 1 else 0) == H(h, n)
    ensures ColorOf(s, n).RED? ==> ColorOf(s, Child(s, d, n)).BLACK?
  {
    NodeFacts(s, g, h, NIL, n);
    hide Linked;
  }

  lemma {:induction false} SameBlacks(s: Store, g: Shape, h: Heights, n: Node, way: seq<Side>)
    requires RedBlack(s, g, h) && (n != NIL ==> n in g.nodes) && Walk(s, n, way) == NIL
    ensures Blacks(s, n, way) == H(h, n)
    ensures Blacks(s, n, way) <= Passed(s, n, way) <= 2 * Blacks(s, n, way) + (if ColorOf(s, n).RED? then 1 else 0)
    decreases |way|
  {
    if n != NIL && way != [] {
      ChildFacts(s, g, h, n, way[0]);
      hide Linked, Colored, RedBlack;
      SameBlacks(s, g, h, Child(s, way[0], n), way[1..]);
    } else {
      assert ColorOf(s, NIL).BLACK?;
    }
  }

  /** Two ways from the root to an end of the tree. */
  lemma Shallow(s: Store, g: Shape, h: Heights, way1: seq<Side>, way2: seq<Side>)
    requires RedBlack(s, g, h) && Walk(s, s.root, way1) == NIL && Walk(s, s.root, way2) == NIL
    ensures Blacks(s, s.root, way1) == Blacks(s, s.root, way2)
    ensures Passed(s, s.root, way1) <= 2 * Passed(s, s.root, way2)
  {
    assert s.root != NIL ==> s.root in g.nodes;
    SameBlacks(s, g, h, s.root, way1);
    SameBlacks(s, g, h, s.root, way2);
  }
}
