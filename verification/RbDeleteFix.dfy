/** The fix-up after a deletion: one short child, four cases. */
module RbDeleteFix {
  import opened RbDelete
  import opened RbInsert
  import opened RbSearch
  import opened RbStore

  /** The short node, its parent and its sibling. */
  ghost predicate Shortage(s: Store, g: Shape, h: Heights, d: Side, x: Node, p: Node, w: Node) {
    && Lacking(s, g, h, x) && x != s.root && ColorOf(s, x).BLACK?
    && p == Parent(s, x) && Child(s, d, p) == x && w == Child(s, Other(d), p)
  }

  lemma ShortSide(s: Store, g: Shape, h: Heights, x: Node) returns (d: Side)
    requires Lacking(s, g, h, x) && x != s.root && ColorOf(s, x).BLACK?
    ensures d == if x == Left(s, Parent(s, x)) then L else R
    ensures Shortage(s, g, h, d, x, Parent(s, x), Child(s, Other(d), Parent(s, x)))
  {
    d := if x == Left(s, Parent(s, x)) then L else R;
    assert Fair(s, h, Parent(s, x), x);
    hide Linked;
  }

  /** The sibling is a node, and higher by one. */
  lemma SiblingFacts(s: Store, g: Shape, h: Heights, d: Side, x: Node, p: Node, w: Node)
    requires Shortage(s, g, h, d, x, p, w)
    ensures p in g.nodes && w in g.nodes && p != NIL && w != NIL && x != p && x != w && w != p && w != s.root
    ensures H(h, x) + 1 == H(h, w) == H(h, p) - if ColorOf(s, p).BLACK? then 1 else 0
    ensures Parent(s, w) == p && Parent(s, p) != w && Parent(s, p) != p && (Parent(s, p) == NIL <==> p == s.root)
    ensures LinkOk(s, g, p) && LinkOk(s, g, w) && Balanced(s, h, w) && NoRedPair(s, w, x) && NoRedPair(s, p, x)
  {
    assert Fair(s, h, p, x) && LinkOk(s, g, p);
    assert x != NIL ==> LinkOk(s, g, x);
    assert w != NIL ==> LinkOk(s, g, w) && Fair(s, h, w, x);
    hide Linked;
  }

  /** What is known of a node away from the shortage. */
  lemma AwayFacts(s: Store, g: Shape, h: Heights, x: Node, n: Node)
    requires Lacking(s, g, h, x) && x != s.root && ColorOf(s, x).BLACK? && n in g.nodes && n != Parent(s, x)
    ensures LinkOk(s, g, n) && Balanced(s, h, n) && NoRedPair(s, n, NIL) && n != NIL && Kept(s, h, n, NIL)
  {
    assert LinkOk(s, g, n) && Fair(s, h, n, x);
    hide Linked;
  }

  /** The short node's parent, by sides. */
  predicate ShortTo(s: Store, h: Heights, d: Side, n: Node, x: Node) {
    && Child(s, d, n) == x
    && H(h, x) + 1 == H(h, Child(s, Other(d), n)) == H(h, n) - (if ColorOf(s, n).BLACK? then 1 else 0)
    && (ColorOf(s, n).RED? ==> ColorOf(s, Child(s, Other(d), n)).BLACK?)
  }

  lemma ShortIs(s: Store, g: Shape, h: Heights, d: Side, x: Node, p: Node, w: Node)
    requires Shortage(s, g, h, d, x, p, w)
    ensures ShortTo(s, h, d, p, x)
  {
    assert Fair(s, h, p, x) && LinkOk(s, g, p);
    assert x != NIL ==> LinkOk(s, g, x);
    hide Linked;
  }

  lemma FairFrom(s: Store, h: Heights, d: Side, n: Node, x: Node)
    requires ColorOf(s, NIL).BLACK? && ColorOf(s, x).BLACK?
    requires if n == Parent(s, x) && x != s.root then ShortTo(s, h, d, n, x) else Kept(s, h, n, NIL)
    ensures Fair(s, h, n, x)
  {
  }

  // ---------- a red sibling ----------

  lemma RedSiblingPair(s: Store, h: Heights, d: Side, x: Node, p: Node, w: Node, s': Store, h': Heights)
    requires Outer(s, h, Other(d), w, p, s', h') && Child(s, d, p) == x && Child(s, Other(d), p) == w
    requires ShortTo(s, h, d, p, x) && Kept(s, h, w, NIL) && ColorOf(s, w).RED? && ColorOf(s, NIL).BLACK?
    requires x != p && x != w && p != w && w != NIL && p != NIL
    requires Child(s, d, w) != p && Child(s, d, w) != w && Child(s, Other(d), w) != p && Child(s, Other(d), w) != w
    ensures ShortTo(s', h', d, p, x) && Kept(s', h', w, NIL)
  {
    hide Child, Parent, H, ColorOf;
  }

  lemma RedSiblingRoots(s: Store, h: Heights, d: Side, x: Node, p: Node, w: Node, s': Store)
    requires RotatedTo(Repaint(s, w, p), s', d, p) && Child(s, d, p) == x && Child(s, Other(d), p) == w
             && Parent(s, x) == p
    requires x != p && x != w && p != w && w != NIL && p != NIL && x != s.root && w != s.root
             && (Parent(s, p) == NIL <==> p == s.root)
    requires x != NIL ==> x != Child(s, d, w)
    requires ColorOf(s, NIL).BLACK? && ColorOf(s, s.root).BLACK? && ColorOf(s, x).BLACK?
    ensures ColorOf(s', NIL).BLACK? && ColorOf(s', s'.root).BLACK? && ColorOf(s', x).BLACK? && ColorOf(s', p).RED?
    ensures Parent(s', x) == p && s'.key == s.key && x != s'.root && Child(s', d, p) == x
  {
    var s1 := Repaint(s, w, p);
    assert Parent(s1, p) == Parent(s, p) && Parent(s1, x) == Parent(s, x) && s1.root == s.root && s1.key == s.key;
    assert Child(s1, d, p) == Child(s, d, p) && Child(s1, Other(d), p) == Child(s, Other(d), p)
           && Child(s1, d, w) == Child(s, d, w);
    assert forall m :: ColorOf(s', m) == if m == p then RED else if m == w then BLACK else ColorOf(s, m);
    hide Child, Parent, ColorOf, Repaint;
  }

  /** A red sibling goes up; the short node gets a black sibling and a red parent. */
  lemma RedSibling(s: Store, g: Shape, h: Heights, d: Side, x: Node, p: Node, w: Node) returns (g': Shape, h': Heights)
    requires Shortage(s, g, h, d, x, p, w) && ColorOf(s, w).RED?
    ensures var s' := Rotate(Repaint(s, w, p), d, p);
            && Lacking(s', g', h', x) && SameOrder(g, g') && s'.key == s.key
            && ColorOf(s', x).BLACK? && x != s'.root && Parent(s', x) == p && ColorOf(s', p).RED?
    ensures ColorOf(s, p).BLACK?
  {
    hide Linked, LinkOk, Balanced, NoRedPair, Rotate, RotatedTo, Outer, Kept, ShortTo;
    SiblingFacts(s, g, h, d, x, p, w);
    ParentBlack(s, d, x, p, w);
    ShortIs(s, g, h, d, x, p, w);
    SameLinks(s, Repaint(s, w, p), g);
    g' := RotateKeeps(Repaint(s, w, p), g, d, p);
    h' := h[p := H(h, w)][w := H(h, w) + 1];
    var s' := Rotate(Repaint(s, w, p), d, p);
    OuterIs(s, h, Other(d), w, p, s');
    OwnChild(s, g, w);
    OnlyParent(s, g, w, p);
    if x != NIL { OnlyParent(s, g, w, x); }
    AwayFacts(s, g, h, x, w);
    RedSiblingRoots(s, h, d, x, p, w, s');
    RedSiblingPair(s, h, d, x, p, w, s', h');
    forall n | n in g'.nodes
      ensures Fair(s', h', n, x)
    {
      if n != p && n != w {
        AwayFacts(s, g, h, x, n);
        OnlyParent(s, g, n, w);
        if n != Parent(s, p) { OnlyParent(s, g, n, p); }
        OuterFar(s, h, Other(d), NIL, w, p, s', h', n);
      }
      FairFrom(s', h', d, n, x);
    }
    hide Fair;
  }

  lemma ParentBlack(s: Store, d: Side, x: Node, p: Node, w: Node)
    requires NoRedPair(s, p, x) && w == Child(s, Other(d), p) && w != x && ColorOf(s, w).RED?
    ensures ColorOf(s, p).BLACK?
  {
  }

  // ---------- two black nephews ----------

  function PaintRed(s: Store, w: Node): Store {
    s.(color := s.color[w := RED])
  }

  lemma RedPainted(s: Store, w: Node)
    ensures var s' := PaintRed(s, w);
            && s'.root == s.root
            && (forall m :: ColorOf(s', m) == if m == w then RED else ColorOf(s, m))
            && (forall m :: Left(s', m) == Left(s, m) && Right(s', m) == Right(s, m) && Parent(s', m) == Parent(s, m))
  {
  }

  lemma TwoLower(h: Heights, w: Node, p: Node)
    requires w != NIL && p != NIL && w != p && H(h, w) > 0 && H(h, p) > 0
    ensures var h' := h[w := H(h, w) - 1][p := H(h, p) - 1];
            forall m :: H(h', m) == if m == p then H(h, p) - 1 else if m == w then H(h, w) - 1 else H(h, m)
  {
  }

  lemma NephewsNode(s: Store, g: Shape, h: Heights, d: Side, x: Node, p: Node, w: Node, n: Node)
    requires p != NIL && w != NIL && n != NIL && n != p && w != p && Child(s, d, p) == x
             && Child(s, Other(d), p) == w && x != w && x != p
    requires Kept(s, h, n, NIL) && Kept(s, h, w, NIL) && ShortTo(s, h, d, p, x) && ColorOf(s, w).BLACK?
             && ColorOf(s, NIL).BLACK?
    requires ColorOf(s, Left(s, w)).BLACK? && ColorOf(s, Right(s, w)).BLACK? && Left(s, w) != w && Right(s, w) != w
    requires Left(s, n) != w && Right(s, n) != w && Left(s, w) != p && Right(s, w) != p
    requires n != Parent(s, p) ==> Left(s, n) != p && Right(s, n) != p
    requires n == Parent(s, p) ==>
             p != s.root && ((Left(s, n) == p && Right(s, n) != p) || (Right(s, n) == p && Left(s, n) != p))
    requires n == w ==> n != Parent(s, p)
    ensures Fair(PaintRed(s, w), h[w := H(h, w) - 1][p := H(h, p) - 1], n, p)
  {
    hide Left, Right, Parent, ColorOf, H, PaintRed;
    assert H(h, w) > 0 && H(h, p) > 0;
    RedPainted(s, w);
    TwoLower(h, w, p);
  }

  lemma NephewsParent(s: Store, h: Heights, d: Side, x: Node, p: Node, w: Node)
    requires p != NIL && w != NIL && w != p && Child(s, d, p) == x && Child(s, Other(d), p) == w && x != w && x != p
             && Parent(s, p) != p
    requires ShortTo(s, h, d, p, x)
    ensures H(h, p) > 0 && H(h, w) > 0
    ensures Fair(PaintRed(s, w), h[w := H(h, w) - 1][p := H(h, p) - 1], p, p)
  {
    var s' := PaintRed(s, w);
    assert H(h, w) > 0 && H(h, p) > 0;
    var h' := h[w := H(h, w) - 1][p := H(h, p) - 1];
    assert forall m :: H(h', m) == if m == p then H(h, p) - 1 else if m == w then H(h, w) - 1 else H(h, m);
    assert ColorOf(s', p) == ColorOf(s, p);
    assert Left(s', p) == Left(s, p) && Right(s', p) == Right(s, p) && Parent(s', p) == Parent(s, p);
    hide Left, Right, Parent, ColorOf, H, PaintRed;
  }

  /** The sibling turns red; now the parent is short. */
  lemma BlackNephews(s: Store, g: Shape, h: Heights, d: Side, x: Node, p: Node, w: Node) returns (h': Heights)
    requires Shortage(s, g, h, d, x, p, w) && ColorOf(s, w).BLACK?
    requires ColorOf(s, Left(s, w)).BLACK? && ColorOf(s, Right(s, w)).BLACK?
    ensures Lacking(PaintRed(s, w), g, h', p)
  {
    hide Linked, LinkOk, Balanced, NoRedPair, Kept, ShortTo;
    SiblingFacts(s, g, h, d, x, p, w);
    ShortIs(s, g, h, d, x, p, w);
    NephewsParent(s, h, d, x, p, w);
    h' := h[w := H(h, w) - 1][p := H(h, p) - 1];
    var s' := PaintRed(s, w);
    SameLinks(s, s', g);
    AwayFacts(s, g, h, x, w);
    OwnChild(s, g, w);
    OnlyParent(s, g, w, p);
    if Parent(s, p) != NIL { ParentPlace(s, g, p); }
    forall n | n in g.nodes
      ensures Fair(s', h', n, p)
    {
      if n != p {
        AwayFacts(s, g, h, x, n);
        OnlyParent(s, g, n, w);
        if n != Parent(s, p) { OnlyParent(s, g, n, p); }
        NephewsNode(s, g, h, d, x, p, w, n);
      }
    }
    hide Fair;
  }

  lemma ParentPlace(s: Store, g: Shape, p: Node)
    requires Linked(s, g) && p in g.nodes && Parent(s, p) != NIL
    ensures var n := Parent(s, p);
            n in g.nodes && ((Left(s, n) == p && Right(s, n) != p) || (Right(s, n) == p && Left(s, n) != p))
  {
    assert LinkOk(s, g, p) && LinkOk(s, g, Parent(s, p));
    hide Linked;
  }

  // ---------- a red near nephew ----------

  lemma NearParent(s: Store, h: Heights, d: Side, x: Node, p: Node, w: Node, c: Node, s': Store, h': Heights)
    requires Outer(s, h, d, c, w, s', h') && ShortTo(s, h, d, p, x) && Child(s, Other(d), p) == w && Child(s, d, w) == c
    requires H(h, w) == H(h, c) + 1 && p == Parent(s, w) && p != NIL && p != w && p != c && x != w && x != c && c != w
    ensures ShortTo(s', h', d, p, x) && Child(s', Other(d), p) == c
  {
    hide Child, Parent, H, ColorOf;
  }

  lemma NearRoots(s: Store, d: Side, x: Node, p: Node, w: Node, c: Node, s': Store)
    requires RotatedTo(Repaint(s, c, w), s', Other(d), w) && Child(s, d, w) == c && Parent(s, w) == p
             && Parent(s, x) == p
    requires c != w && c != NIL && w != NIL && p != NIL && x != w && x != c && w != s.root && c != s.root && x != s.root
    requires x != NIL ==> x != Child(s, Other(d), c)
    requires ColorOf(s, NIL).BLACK? && ColorOf(s, s.root).BLACK? && ColorOf(s, x).BLACK?
    ensures ColorOf(s', NIL).BLACK? && ColorOf(s', s'.root).BLACK? && ColorOf(s', x).BLACK? && ColorOf(s', c).BLACK?
    ensures ColorOf(s', w).RED? && Child(s', Other(d), c) == w
    ensures Parent(s', x) == p && s'.key == s.key && x != s'.root && s'.root == s.root
  {
    var s1 := Repaint(s, c, w);
    assert Parent(s1, w) == Parent(s, w) && Parent(s1, x) == Parent(s, x) && s1.root == s.root && s1.key == s.key;
    assert Child(s1, d, w) == Child(s, d, w) && Child(s1, Other(d), c) == Child(s, Other(d), c);
    assert forall m :: ColorOf(s', m) == if m == w then RED else if m == c then BLACK else ColorOf(s, m);
    hide Child, Parent, ColorOf, Repaint;
  }

  lemma NephewFacts(s: Store, g: Shape, h: Heights, d: Side, x: Node, p: Node, w: Node, c: Node)
    requires Shortage(s, g, h, d, x, p, w) && (c == Left(s, w) || c == Right(s, w)) && ColorOf(s, c).RED?
    ensures c != NIL && c in g.nodes && c != w && c != p && c != x && c != s.root && Parent(s, c) == w
            && LinkOk(s, g, c)
    ensures ColorOf(s, w).BLACK? && H(h, w) == H(h, c) + 1 && Left(s, w) != Right(s, w)
    ensures Left(s, c) != w && Right(s, c) != w && Left(s, c) != c && Right(s, c) != c
    ensures (x != NIL ==> Left(s, c) != x && Right(s, c) != x) && Left(s, c) != p && Right(s, c) != p
    ensures ColorOf(s, Left(s, c)).BLACK? && ColorOf(s, Right(s, c)).BLACK?
  {
    SiblingFacts(s, g, h, d, x, p, w);
    AwayFacts(s, g, h, x, w);
    assert LinkOk(s, g, w) && LinkOk(s, g, c) && LinkOk(s, g, p);
    assert x != NIL ==> LinkOk(s, g, x);
    AwayFacts(s, g, h, x, c);
    hide Linked, Kept;
  }

  /** A red near nephew takes the sibling's place; the far nephew is red then. */
  lemma NearNephew(s: Store, g: Shape, h: Heights, d: Side, x: Node, p: Node, w: Node, c: Node)
    returns (g': Shape, h': Heights)
    requires Shortage(s, g, h, d, x, p, w) && c == Child(s, d, w) && ColorOf(s, c).RED?
             && ColorOf(s, Child(s, Other(d), w)).BLACK?
    ensures var s' := Rotate(Repaint(s, c, w), Other(d), w);
            && Shortage(s', g', h', d, x, p, c) && SameOrder(g, g') && s'.key == s.key && ColorOf(s', c).BLACK?
            && ColorOf(s', Child(s', Other(d), c)).RED? && Parent(s', x) == p && Child(s', Other(d), p) == c
  {
    hide Linked, LinkOk, Balanced, NoRedPair, Rotate, RotatedTo, Outer, Kept, ShortTo;
    SiblingFacts(s, g, h, d, x, p, w);
    NephewFacts(s, g, h, d, x, p, w, c);
    ShortIs(s, g, h, d, x, p, w);
    SameLinks(s, Repaint(s, c, w), g);
    g' := RotateKeeps(Repaint(s, c, w), g, Other(d), w);
    h' := h[w := H(h, c)][c := H(h, c) + 1];
    var s' := Rotate(Repaint(s, c, w), Other(d), w);
    OuterIs(s, h, d, c, w, s');
    OwnChild(s, g, w);
    OwnChild(s, g, c);
    AwayFacts(s, g, h, x, w);
    AwayFacts(s, g, h, x, c);
    NearRoots(s, d, x, p, w, c, s');
    NearParent(s, h, d, x, p, w, c, s', h');
    OuterNear(s, h, d, NIL, c, w, s', h');
    forall n | n in g'.nodes
      ensures Fair(s', h', n, x)
    {
      if n != p && n != w && n != c {
        AwayFacts(s, g, h, x, n);
        OnlyParent(s, g, n, w);
        OnlyParent(s, g, n, c);
        OuterFar(s, h, d, NIL, c, w, s', h', n);
      }
      FairFrom(s', h', d, n, x);
    }
    ShortChild(s', h', d, p, x);
    hide Fair;
  }

  lemma ShortChild(s: Store, h: Heights, d: Side, p: Node, x: Node)
    requires ShortTo(s, h, d, p, x)
    ensures Child(s, d, p) == x
  {
  }

  // ---------- a red far nephew ----------

  /** The sibling takes the parent's color, and the parent and the far nephew turn black. */
  function FarColors(s: Store, p: Node, w: Node, f: Node): Store {
    s.(color := s.color[w := ColorOf(s, p)][p := BLACK][f := BLACK])
  }

  function FarHeights(h: Heights, p: Node, w: Node, f: Node): Heights {
    h[p := H(h, w)][f := H(h, f) + 1][w := H(h, p)]
  }

  /** Links, colors and heights after the last rotation. */
  ghost predicate Settled(s: Store, h: Heights, d: Side, p: Node, w: Node, f: Node, s': Store, h': Heights) {
    && Turned(s, Other(d), w, p, s')
    && (forall m ::
       ColorOf(s', m) == if m == w then ColorOf(s, p) else if m == p || m == f then BLACK else ColorOf(s, m))
    && (forall m ::
       H(h', m) == if m == w then H(h, p) else if m == f then H(h, f) + 1 else if m == p then H(h, w) else H(h, m))
  }

  lemma SettledIs(s: Store, h: Heights, d: Side, p: Node, w: Node, f: Node, s': Store)
    requires RotatedTo(FarColors(s, p, w, f), s', d, p) && Child(s, Other(d), p) == w
    requires w != p && f != w && f != p && w != NIL && p != NIL && f != NIL
    ensures Settled(s, h, d, p, w, f, s', FarHeights(h, p, w, f))
  {
    var h' := FarHeights(h, p, w, f);
    TurnedIs(s, FarColors(s, p, w, f), Other(d), w, p, s');
    assert forall m ::
           ColorOf(s', m) == if m == w then ColorOf(s, p) else if m == p || m == f then BLACK else ColorOf(s, m);
    assert forall m ::
           H(h', m) == if m == w then H(h, p) else if m == f then H(h, f) + 1 else if m == p then H(h, w) else H(h, m);
    hide H, ColorOf, FarColors, FarHeights, Turned;
  }

  lemma SettledNear(s: Store, h: Heights, d: Side, x: Node, p: Node, w: Node, f: Node, s': Store, h': Heights)
    requires Settled(s, h, d, p, w, f, s', h') && ShortTo(s, h, d, p, x) && Child(s, Other(d), p) == w
             && Child(s, Other(d), w) == f
    requires Kept(s, h, w, NIL) && Kept(s, h, f, NIL) && ColorOf(s, w).BLACK? && ColorOf(s, f).RED?
             && H(h, w) == H(h, f) + 1
    requires w != p && f != w && f != p && x != p && x != w && x != f
    requires Child(s, d, w) != w && Child(s, d, w) != p && Child(s, d, w) != f
    requires Child(s, L, f) != f && Child(s, R, f) != f && Child(s, L, f) != w && Child(s, R, f) != w
    requires Child(s, L, f) != p && Child(s, R, f) != p
    ensures Kept(s', h', p, NIL) && Kept(s', h', w, NIL) && Kept(s', h', f, NIL)
  {
    hide Child, Parent, H, ColorOf;
    assert Child(s', L, f) == Child(s, L, f) && Child(s', R, f) == Child(s, R, f);
  }

  lemma SettledFar(s: Store, h: Heights, d: Side, p: Node, w: Node, f: Node, s': Store, h': Heights, n: Node)
    requires Settled(s, h, d, p, w, f, s', h') && n != p && n != w && n != f && n != NIL
    requires Kept(s, h, n, NIL) && ColorOf(s, NIL).BLACK?
    requires Child(s, L, n) != w && Child(s, R, n) != w && Child(s, L, n) != f && Child(s, R, n) != f && p != NIL
    requires n != Parent(s, p) ==> Child(s, L, n) != p && Child(s, R, n) != p
    requires w != p && f != w && f != p
    ensures Kept(s', h', n, NIL)
  {
    hide Child, Parent, H, ColorOf;
  }

  lemma SettledRoots(s: Store, d: Side, p: Node, w: Node, f: Node, s': Store)
    requires RotatedTo(FarColors(s, p, w, f), s', d, p) && Child(s, Other(d), p) == w
             && (Parent(s, p) == NIL <==> p == s.root)
    requires w != p && f != w && f != p && w != NIL && p != NIL && f != NIL && ColorOf(s, NIL).BLACK?
             && ColorOf(s, s.root).BLACK?
    requires w != s.root && f != s.root
    ensures ColorOf(s', NIL).BLACK? && ColorOf(s', s'.root).BLACK? && s'.key == s.key
  {
    var s1 := FarColors(s, p, w, f);
    assert Parent(s1, p) == Parent(s, p) && s1.root == s.root && s1.key == s.key && Child(s1, Other(d), p) == w;
    assert forall m ::
           ColorOf(s', m) == if m == w then ColorOf(s, p) else if m == p || m == f then BLACK else ColorOf(s, m);
    hide Child, Parent, ColorOf, FarColors;
  }

  /** A red far nephew: after one rotation nothing is missing. */
  lemma FarNephew(s: Store, g: Shape, h: Heights, d: Side, x: Node, p: Node, w: Node, f: Node)
    returns (g': Shape, h': Heights)
    requires Shortage(s, g, h, d, x, p, w) && f == Child(s, Other(d), w) && ColorOf(s, f).RED?
    ensures var s' := Rotate(FarColors(s, p, w, f), d, p);
            RedBlack(s', g', h') && SameOrder(g, g') && s'.key == s.key
  {
    hide Linked, LinkOk, Balanced, NoRedPair, Rotate, RotatedTo, Settled, Kept, ShortTo;
    SiblingFacts(s, g, h, d, x, p, w);
    NephewFacts(s, g, h, d, x, p, w, f);
    ShortIs(s, g, h, d, x, p, w);
    SameLinks(s, FarColors(s, p, w, f), g);
    g' := RotateKeeps(FarColors(s, p, w, f), g, d, p);
    h' := FarHeights(h, p, w, f);
    var s' := Rotate(FarColors(s, p, w, f), d, p);
    SettledIs(s, h, d, p, w, f, s');
    OwnChild(s, g, w);
    OwnChild(s, g, f);
    OnlyParent(s, g, w, p);
    AwayFacts(s, g, h, x, w);
    AwayFacts(s, g, h, x, f);
    SettledRoots(s, d, p, w, f, s');
    SettledNear(s, h, d, x, p, w, f, s', h');
    forall n | n in g'.nodes
      ensures Balanced(s', h', n) && NoRedPair(s', n, NIL)
    {
      if n != p && n != w && n != f {
        AwayFacts(s, g, h, x, n);
        OnlyParent(s, g, n, w);
        OnlyParent(s, g, n, f);
        if n != Parent(s, p) { OnlyParent(s, g, n, p); }
        SettledFar(s, h, d, p, w, f, s', h', n);
      }
      KeptIs(s', h', n, NIL);
    }
  }

  // ---------- the end ----------

  function PaintBlack(s: Store, x: Node): Store {
    s.(color := s.color[x := BLACK])
  }

  function FilledHeights(s: Store, h: Heights, x: Node): Heights {
    if x != NIL && ColorOf(s, x).RED? then h[x := H(h, x) + 1] else h
  }

  lemma BlackPainted(s: Store, h: Heights, x: Node)
    ensures var s', h' := PaintBlack(s, x), FilledHeights(s, h, x);
            && (forall m :: ColorOf(s', m) == if m == x then BLACK else ColorOf(s, m))
            && (forall m :: H(h', m) == H(h, m) + if m == x && x != NIL && ColorOf(s, x).RED? then 1 else 0)
            && (forall m :: Left(s', m) == Left(s, m) && Right(s', m) == Right(s, m))
  {
  }

  lemma NotBothChildren(s: Store, g: Shape, n: Node, x: Node)
    requires LinkOk(s, g, n) && (x != NIL ==> LinkOk(s, g, x))
    ensures n != Parent(s, x) && x != NIL ==> Left(s, n) != x && Right(s, n) != x
    ensures n != NIL && (x != NIL ==> Left(s, n) != x || Right(s, n) != x)
    ensures Left(s, n) != n && Right(s, n) != n
  {
  }

  lemma FilledNode(s: Store, g: Shape, h: Heights, x: Node, n: Node)
    requires Fair(s, h, n, x) && LinkOk(s, g, n) && ColorOf(s, NIL).BLACK? && (x == s.root || ColorOf(s, x).RED?)
    requires x == s.root ==> Left(s, n) != x || x == NIL
    requires x == s.root ==> Right(s, n) != x || x == NIL
    requires x != NIL ==> LinkOk(s, g, x)
    ensures Balanced(PaintBlack(s, x), FilledHeights(s, h, x), n) && NoRedPair(PaintBlack(s, x), n, NIL)
  {
    hide Left, Right, Parent, ColorOf, H, PaintBlack, FilledHeights, LinkOk;
    BlackPainted(s, h, x);
    NotBothChildren(s, g, n, x);
  }

  /** Painting a red short node, or the root, black makes up for what is missing. */
  lemma SamePaint(s: Store, h: Heights, x: Node)
    ensures var s' := PaintBlack(s, x);
            && s'.(color := s.color) == s && (ColorOf(s, NIL).BLACK? ==> ColorOf(s', NIL).BLACK?)
            && ColorOf(s', x).BLACK?
            && forall m :: m != x ==> ColorOf(s', m) == ColorOf(s, m)
  {
  }

  lemma Filled(s: Store, g: Shape, h: Heights, x: Node)
    requires Lacking(s, g, h, x) && (x == s.root || ColorOf(s, x).RED?)
    ensures RedBlack(PaintBlack(s, x), g, FilledHeights(s, h, x))
  {
    hide PaintBlack, FilledHeights, Balanced, NoRedPair, Fair;
    SamePaint(s, h, x);
    var s', h' := PaintBlack(s, x), FilledHeights(s, h, x);
    SameLinks(s, s', g);
    forall n | n in g.nodes
      ensures Balanced(s', h', n) && NoRedPair(s', n, NIL)
    {
      assert LinkOk(s, g, n) && Fair(s, h, n, x);
      assert x != NIL ==> LinkOk(s, g, x);
      FilledNode(s, g, h, x, n);
    }
  }

  // ---------- the loop ends ----------

  /** How much is left for the fix-up. */
  ghost function LackMeasure(s: Store, g: Shape, x: Node): nat {
    if x == s.root || ColorOf(s, x).RED? then 0
    else if ColorOf(s, Parent(s, x)).RED? then 1
    else 2 + |Outside(g, Parent(s, x))|
  }

  lemma NephewsMeasure(s: Store, g: Shape, h: Heights, d: Side, x: Node, p: Node, w: Node)
    requires Shortage(s, g, h, d, x, p, w)
    ensures LackMeasure(PaintRed(s, w), g, p) < LackMeasure(s, g, x)
  {
    SiblingFacts(s, g, h, d, x, p, w);
    var s' := PaintRed(s, w);
    assert ColorOf(s', p) == ColorOf(s, p) && Parent(s', p) == Parent(s, p) && s'.root == s.root;
    if p != s.root {
      assert ColorOf(s', Parent(s, p)) == ColorOf(s, Parent(s, p));
      hide Linked;
      ParentOutside(s, g, p);
      Smaller(Outside(g, Parent(s, p)), Outside(g, p));
    }
  }

  lemma ShortageMeasure(s: Store, g: Shape, h: Heights, d: Side, x: Node, p: Node, w: Node)
    requires Shortage(s, g, h, d, x, p, w)
    ensures LackMeasure(s, g, x) >= if ColorOf(s, p).BLACK? then 2 else 1
  {
    hide Linked;
  }

  lemma RedParentMeasure(s: Store, g: Shape, x: Node)
    requires ColorOf(s, Parent(s, x)).RED?
    ensures LackMeasure(s, g, x) <= 1
  {
  }

  lemma RootMeasure(s: Store, g: Shape)
    ensures LackMeasure(s, g, s.root) == 0
  {
  }
}
