/** The red-black tree of test/data-structure/rbtree.c, with its loops. */
module RbTreeClass {
  import opened RbStore
  import opened RbSearch
  import opened RbInsert
  import opened RbDelete
  import opened RbDeleteFix

  /** A key belongs to the left of a larger one, otherwise to the right. */
  function SideFor(s: Store, y: Node, z: Node): Side {
    if y == NIL || Key(s, z) < Key(s, y) then L else R
  }

  /** The nodes in their order, and the black heights, are known to the proof only. */
  class RbTree {
    var tree: Store
    ghost var shape: Shape
    ghost var heights: Heights

    ghost predicate Valid()
      reads this
    {
      RedBlack(tree, shape, heights) && Sorted(tree, shape)
    }

    constructor ()
      ensures Valid() && shape.nodes == {}
    {
      tree := Store(NIL, map[], map[], map[], map[], map[]);
      shape := Shape({}, map[], map[], map[]);
      heights := map[];
    }

    method RotateLeft(x: Node)
      modifies this`tree
      ensures tree == RbStore.RotateLeft(old(tree), x)
    {
      var y := Right(tree, x);
      tree := tree.(right := tree.right[x := Left(tree, y)]);
      if Left(tree, y) != NIL {
        tree := tree.(parent := tree.parent[Left(tree, y) := x]);
      }
      tree := tree.(parent := tree.parent[y := Parent(tree, x)]);
      if Parent(tree, x) == NIL {
        tree := tree.(root := y);
      } else if x == Left(tree, Parent(tree, x)) {
        tree := tree.(left := tree.left[Parent(tree, x) := y]);
      } else {
        tree := tree.(right := tree.right[Parent(tree, x) := y]);
      }
      tree := tree.(left := tree.left[y := x]);
      tree := tree.(parent := tree.parent[x := y]);
    }

    method RotateRight(y: Node)
      modifies this`tree
      ensures tree == RbStore.RotateRight(old(tree), y)
    {
      var x := Left(tree, y);
      tree := tree.(left := tree.left[y := Right(tree, x)]);
      if Right(tree, x) != NIL {
        tree := tree.(parent := tree.parent[Right(tree, x) := y]);
      }
      tree := tree.(parent := tree.parent[x := Parent(tree, y)]);
      if Parent(tree, y) == NIL {
        tree := tree.(root := x);
      } else if y == Left(tree, Parent(tree, y)) {
        tree := tree.(left := tree.left[Parent(tree, y) := x]);
      } else {
        tree := tree.(right := tree.right[Parent(tree, y) := x]);
      }
      tree := tree.(right := tree.right[x := y]);
      tree := tree.(parent := tree.parent[y := x]);
    }

    method Rotate(d: Side, x: Node)
      modifies this`tree
      ensures tree == RbStore.Rotate(old(tree), d, x)
    {
      if d.L? {
        RotateLeft(x);
      } else {
        RotateRight(x);
      }
    }

    method SetColor(n: Node, c: Color)
      modifies this`tree
      ensures tree == old(tree).(color := old(tree).color[n := c])
    {
      tree := tree.(color := tree.color[n := c]);
    }

    /** The new node becomes one more node of the tree, behind all nodes whose keys are not above its own. */
    method Insert(z: Node)
      requires Valid() && NewNode(tree, shape, z)
      modifies this
      ensures Valid() && shape.nodes == old(shape.nodes) + {z} && tree.key == old(tree.key)
      ensures forall n :: n in old(shape.nodes) ==>
                            && Rank(shape, n) == old(Rank(shape, n))
                            && (Rank(shape, n) < Rank(shape, z) <==> Key(tree, n) <= Key(tree, z))
    {
      hide RedBlack, Linked, Sorted, Fixing, Place;
      var y := FindPlace(z);
      ghost var d := SideFor(tree, y, z);
      ghost var s, g, h := tree, shape, heights;
      tree := tree.(parent := tree.parent[z := y]);
      if y == NIL {
        tree := tree.(root := z);
      } else if Key(tree, z) < Key(tree, y) {
        tree := tree.(left := tree.left[y := z]);
      } else {
        tree := tree.(right := tree.right[y := z]);
      }
      SetColor(z, RED);
      assert tree == Attach(s, d, y, z);
      shape := LeafAdded(s, g, h, d, y, z);
      heights := h[z := 0];
      InsertFixup(z);
    }

    /** The search for the place of the new key. */
    method FindPlace(z: Node) returns (y: Node)
      requires Valid()
      ensures Place(tree, shape, SideFor(tree, y, z), y, z)
    {
      y := NIL;
      ghost var d := L;
      var x: Node := tree.root;
      ghost var a, b := WholeTree(tree, shape);
      while x != NIL
        invariant Window(tree, shape, a, b, x) && (y == NIL ==> x == tree.root)
        invariant y == NIL && x == NIL ==> shape.nodes == {}
        invariant y != NIL ==>
                  y in shape.nodes && x == Child(tree, d, y) && a == Below(shape, d, y) && b == Over(shape, d, y)
        invariant KeysAround(tree, shape, a, b, z) && (y != NIL ==> (d.L? <==> Key(tree, z) < Key(tree, y)))
        decreases |Inside(shape, a, b)|
      {
        y := x;
        x := if Key(tree, z) < Key(tree, x) then Left(tree, x) else Right(tree, x);
        d := if Key(tree, z) < Key(tree, y) then L else R;
        SearchStep(tree, shape, a, b, y, d);
        KeysNarrow(tree, shape, a, b, y, d, z);
        Smaller(Inside(shape, Below(shape, d, y), Over(shape, d, y)), Inside(shape, a, b));
        a, b := Below(shape, d, y), Over(shape, d, y);
      }
    }

    /** Paints and rotates until no red node has a red parent. */
    method InsertFixup(z0: Node)
      requires Fixing(tree, shape, heights, z0) && Sorted(tree, shape)
      modifies this
      ensures Valid() && SameOrder(old(shape), shape) && tree.key == old(tree.key)
    {
      hide Linked, Colored, RedBlack, Sorted, Fixing, FixMeasure, SameOrder;
      var z := z0;
      OrderRefl(shape);
      while ColorOf(tree, Parent(tree, z)).RED?
        invariant Fixing(tree, shape, heights, z) && Sorted(tree, shape)
        invariant SameOrder(old(shape), shape) && tree.key == old(tree.key)
        decreases FixMeasure(tree, shape, z)
      {
        ghost var g1 := shape;
        if Parent(tree, z) == Left(tree, Parent(tree, Parent(tree, z))) {
          z := FixStep(L, z);
        } else {
          z := FixStep(R, z);
        }
        OrderTrans(old(shape), g1, shape);
      }
      heights := BlackenRoot(tree, shape, heights, z);
      ghost var s := tree;
      SetColor(tree.root, BLACK);
      OrderSorted(s, shape, tree, shape);
    }

    /** One turn of the loop; the parent of `z` is the child on side `d`. */
    method FixStep(d: Side, z0: Node) returns (z: Node)
      requires Fixing(tree, shape, heights, z0) && Sorted(tree, shape) && ColorOf(tree, Parent(tree, z0)).RED?
      requires d.L? <==> Parent(tree, z0) == Left(tree, Parent(tree, Parent(tree, z0)))
      modifies this
      ensures Fixing(tree, shape, heights, z) && Sorted(tree, shape)
      ensures SameOrder(old(shape), shape) && tree.key == old(tree.key)
      ensures FixMeasure(tree, shape, z) < old(FixMeasure(tree, shape, z0))
    {
      hide Linked, Sorted, Fixing, FixMeasure, RbStore.Rotate, RotatedTo, Uncle;
      z := z0;
      ghost var s, g, h := tree, shape, heights;
      Family(s, g, h, z);
      var y := Child(tree, Other(d), Parent(tree, Parent(tree, z)));
      UncleIs(s, d, z);
      if ColorOf(tree, y).RED? {
        SetColor(Parent(tree, z), BLACK);
        SetColor(y, BLACK);
        SetColor(Parent(tree, Parent(tree, z)), RED);
        RecolorStep(s, g, h, z);
        RecolorMeasure(s, g, h, z, tree);
        heights := h[Parent(s, z) := H(h, Parent(s, z)) + 1][y := H(h, y) + 1];
        z := Parent(tree, Parent(tree, z));
      } else {
        if z == Child(tree, Other(d), Parent(tree, z)) {
          z := Parent(tree, z);
          Rotate(d, z);
          shape := InnerStep(s, g, h, d, z0);
          InnerPlaces(s, tree, d, z0);
        }
        ghost var s1, g1 := tree, shape;
        SetColor(Parent(tree, z), BLACK);
        SetColor(Parent(tree, Parent(tree, z)), RED);
        Rotate(Other(d), Parent(tree, Parent(tree, z)));
        shape, heights := OuterStep(s1, g1, h, d, z);
        FixedMeasure(tree, shape, z);
        RedMeasure(s, g, z0);
        OrderTrans(g, g1, shape);
      }
      OrderSorted(s, g, tree, shape);
    }

    method Transplant(u: Node, v: Node)
      modifies this`tree
      ensures tree == RbDelete.Transplant(old(tree), u, v)
    {
      if Parent(tree, u) == NIL {
        tree := tree.(root := v);
      } else if u == Left(tree, Parent(tree, u)) {
        tree := tree.(left := tree.left[Parent(tree, u) := v]);
      } else {
        tree := tree.(right := tree.right[Parent(tree, u) := v]);
      }
      tree := tree.(parent := tree.parent[v := Parent(tree, u)]);
    }

    /** The smallest node of a subtree. */
    method Minimum(r: Node) returns (y: Node)
      requires Linked(tree, shape) && (r != NIL ==> r in shape.nodes)
      ensures if r == NIL then y == NIL else Leftmost(tree, shape, r, y) && Left(tree, y) == NIL
    {
      if r == NIL {
        return NIL;
      }
      y := r;
      while Left(tree, y) != NIL
        invariant Leftmost(tree, shape, r, y)
        decreases |Inside(shape, Lo(shape, y), Hi(shape, y))|
      {
        LeftmostStep(tree, shape, r, y);
        y := Left(tree, y);
      }
    }

    /** One node goes, and the others keep their order. */
    method Delete(z: Node)
      requires Valid() && z in shape.nodes
      modifies this
      ensures Valid() && tree.key == old(tree.key) && shape.nodes == old(shape.nodes) - {z}
      ensures OrderWithout(old(shape), shape, z)
    {
      ghost var s, g, h := tree, shape, heights;
      var x, y := NIL, z;
      var yColor := ColorOf(tree, y);
      if Left(tree, z) == NIL {
        x := Right(tree, z);
        Transplant(z, Right(tree, z));
        shape := SplicedShape(s, g, h, z);
      } else if Right(tree, z) == NIL {
        x := Left(tree, z);
        Transplant(z, Left(tree, z));
        shape := SplicedShape(s, g, h, z);
      } else {
        RightNode(s, g, z);
        y := Minimum(Right(tree, z));
        yColor := ColorOf(tree, y);
        x := Right(tree, y);
        MoveSuccessor(z, y);
        LeftmostNext(s, g, z, y);
        shape, heights := MoveKeeps(s, g, h, z, y);
      }
      OrderWithoutSorted(s, g, tree, shape, z);
      ghost var g1 := shape;
      hide RedBlack, Lacking, Sorted, RbDelete.OrderWithout, SameOrder, Linked;
      if yColor.BLACK? {
        DeleteFixup(x);
        OrderWithoutThen(g, g1, shape, z);
      }
      OrderWithoutNodes(g, shape, z);
    }

    /** The successor `y` of `z` takes its place. */
    method MoveSuccessor(z: Node, y: Node)
      modifies this`tree
      ensures tree == MoveUp(old(tree), z, y)
    {
      var x := Right(tree, y);
      if Parent(tree, y) == z {
        tree := tree.(parent := tree.parent[x := y]);
      } else {
        Transplant(y, Right(tree, y));
        tree := tree.(right := tree.right[y := Right(tree, z)]);
        tree := tree.(parent := tree.parent[Right(tree, y) := y]);
      }
      Transplant(z, y);
      tree := tree.(left := tree.left[y := Left(tree, z)]);
      tree := tree.(parent := tree.parent[Left(tree, y) := y]);
      SetColor(y, ColorOf(tree, z));
    }

    /** Paints and rotates until no black node is missing. */
    method DeleteFixup(x0: Node)
      requires Lacking(tree, shape, heights, x0) && Sorted(tree, shape)
      modifies this
      ensures Valid() && SameOrder(old(shape), shape) && tree.key == old(tree.key)
    {
      hide Linked, Colored, RedBlack, Sorted, Lacking, LackMeasure, SameOrder;
      var x := x0;
      OrderRefl(shape);
      while x != tree.root && ColorOf(tree, x).BLACK?
        invariant Lacking(tree, shape, heights, x) && Sorted(tree, shape)
        invariant SameOrder(old(shape), shape) && tree.key == old(tree.key)
        decreases LackMeasure(tree, shape, x)
      {
        ghost var g1 := shape;
        ghost var d := ShortSide(tree, shape, heights, x);
        if x == Left(tree, Parent(tree, x)) {
          x := DeleteStep(L, x);
        } else {
          x := DeleteStep(R, x);
        }
        OrderTrans(old(shape), g1, shape);
      }
      Filled(tree, shape, heights, x);
      heights := FilledHeights(tree, heights, x);
      ghost var s := tree;
      SetColor(x, BLACK);
      OrderSorted(s, shape, tree, shape);
    }

    /** One turn of the loop; `x` is the short child on side `d`. */
    method DeleteStep(d: Side, x0: Node) returns (x: Node)
      requires Shortage(tree, shape, heights, d, x0, Parent(tree, x0), Child(tree, Other(d), Parent(tree, x0)))
      requires Sorted(tree, shape)
      modifies this
      ensures Lacking(tree, shape, heights, x) && Sorted(tree, shape)
      ensures SameOrder(old(shape), shape) && tree.key == old(tree.key)
      ensures LackMeasure(tree, shape, x) < old(LackMeasure(tree, shape, x0))
    {
      hide Linked, Sorted, Lacking, RbStore.Rotate, RotatedTo, LackMeasure, RedBlack, Shortage, SameOrder;
      x := x0;
      ghost var s, g, h, p := tree, shape, heights, Parent(tree, x);
      OrderRefl(g);
      var w := Child(tree, Other(d), Parent(tree, x));
      SiblingFacts(s, g, h, d, x, p, w);
      ShortageMeasure(s, g, h, d, x, p, w);
      if ColorOf(tree, w).RED? {
        SetColor(w, BLACK);
        SetColor(Parent(tree, x), RED);
        Rotate(d, Parent(tree, x));
        shape, heights := RedSibling(s, g, h, d, x, p, w);
        RedParentMeasure(tree, shape, x);
      } else if ColorOf(tree, Left(tree, w)).BLACK? && ColorOf(tree, Right(tree, w)).BLACK? {
        SetColor(w, RED);
        heights := BlackNephews(s, g, h, d, x, p, w);
        NephewsMeasure(s, g, h, d, x, p, w);
        x := Parent(tree, x);
      } else {
        if ColorOf(tree, Child(tree, Other(d), w)).BLACK? {
          NephewFacts(s, g, h, d, x, p, w, Child(tree, d, w));
          SetColor(Child(tree, d, w), BLACK);
          SetColor(w, RED);
          Rotate(Other(d), w);
          shape, heights := NearNephew(s, g, h, d, x, p, w, Child(s, d, w));
          w := Child(tree, Other(d), Parent(tree, x));
        }
        ghost var s1, g1, h1, f := tree, shape, heights, Child(tree, Other(d), w);
        NephewFacts(s1, g1, h1, d, x, p, w, f);
        SiblingFacts(s1, g1, h1, d, x, p, w);
        SetColor(w, ColorOf(tree, Parent(tree, x)));
        SetColor(Parent(tree, x), BLACK);
        SetColor(Child(tree, Other(d), w), BLACK);
        Rotate(d, Parent(tree, x));
        shape, heights := FarNephew(s1, g1, h1, d, x, p, w, f);
        OrderTrans(g, g1, shape);
        NothingLacks(tree, shape, heights);
        x := tree.root;
        RootMeasure(tree, shape);
      }
      OrderSorted(s, g, tree, shape);
    }

    /** A node with the key, if there is one. */
    method Find(key: int) returns (n: Node)
      requires Valid()
      ensures n == NIL <==> forall m :: m in shape.nodes ==> Key(tree, m) != key
      ensures n != NIL ==> n in shape.nodes && Key(tree, n) == key
    {
      n := tree.root;
      ghost var a, b := WholeTree(tree, shape);
      while n != NIL && key != Key(tree, n)
        invariant Window(tree, shape, a, b, n)
        invariant forall m :: m in shape.nodes && Key(tree, m) == key ==> Between(a, Rank(shape, m), b)
        decreases |Inside(shape, a, b)|
      {
        ghost var d := if key < Key(tree, n) then L else R;
        SearchStep(tree, shape, a, b, n, d);
        FindNarrow(tree, shape, a, b, n, d, key);
        Smaller(Inside(shape, Below(shape, d, n), Over(shape, d, n)), Inside(shape, a, b));
        a, b := Below(shape, d, n), Over(shape, d, n);
        n := if key < Key(tree, n) then Left(tree, n) else Right(tree, n);
      }
    }
  }
}
