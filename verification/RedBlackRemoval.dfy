// Why the colour repair after a removal works: the four cases of the short subtree.
module RedBlackRemoval {
  import opened Listings
  import opened RedBlackGraph

  // ---- removal: a subtree `e`, the `s` kid of `p`, that is one black node short ----

  ghost predicate Deficit(g: Graph, e: Node?, p: Node?, s: Side) {
    && g.Shape()
    && (p == null ==> g.root == e)
    && (p != null ==> p in g.cell && ShortSide(g, e, p, s))
    && g.AllBalanced(p)
    && (forall n {:trigger g.RedSpaced(n)} :: n in g.cell && n != p && n != e ==> g.RedSpaced(n))
    && (g.Red(g.root) ==> g.root == e)
  }

  ghost predicate ShortSide(g: Graph, e: Node?, p: Node, s: Side)
    requires p in g.cell
  {
    var w := g.Kid(p, s.Opposite());
    && g.Kid(p, s) == e && g.Bh(w) == g.Bh(e) + 1
    && g.cell[p].bh == g.Bh(w) + (if g.cell[p].red then 0 else 1)
    && (g.cell[p].red ==> !g.Red(w))
  }

  // The sibling exists, and nothing near it coincides
  ghost predicate Sibling(g: Graph, e: Node?, p: Node, w: Node, s: Side) {
    && Deficit(g, e, p, s) && !g.Red(e) && p in g.cell && w in g.cell && e != g.root
    && g.Kid(p, s.Opposite()) == w && w != e && w != p && p != e && g.Parent(p) !in {w, p}
    && g.Parent(w) == p
    && g.Kid(w, Left) !in {w, p, e} - {null} && g.Kid(w, Right) !in {w, p, e} - {null}
    && (g.Kid(w, Left) != null ==> g.Kid(w, Left) in g.cell && g.Kid(w, Left) != g.Kid(w, Right))
    && (g.Kid(w, Right) != null ==> g.Kid(w, Right) in g.cell)
    && (e != null ==> e in g.cell)
    && (g.Parent(p) == null ==> g.root == p) && g.Parent(p) !in {g.Kid(w, Left), g.Kid(w, Right)} - {null}
  }

  lemma SiblingSite(g: Graph, e: Node?, p: Node?, s: Side) returns (w: Node)
    requires Deficit(g, e, p, s) && !g.Red(e) && e != g.root
    ensures p != null && Sibling(g, e, p, w, s)
  {
    var o := s.Opposite();
    assert g.Linked(p, s) && g.Linked(p, o) && g.Ordered(p) && g.LinkedUp(p);
    w := g.Kid(p, o);
    assert g.Ordered(w) && g.Linked(w, Left) && g.Linked(w, Right) && g.LinkedUp(w);
    if e != null {
      assert g.Ordered(e) && g.Linked(e, s);
    }
    if g.Parent(p) != null {
      assert g.Ordered(g.Parent(p));
    }
    if g.Kid(w, Left) != null {
      assert g.Ordered(g.Kid(w, Left)) && g.LinkedUp(g.Kid(w, Left));
    }
    if g.Kid(w, Right) != null {
      assert g.Ordered(g.Kid(w, Right)) && g.LinkedUp(g.Kid(w, Right));
    }
  }

  // Red sibling: after one rotation towards the deficit the sibling is black
  ghost function RedSibPainted(g: Graph, p: Node, w: Node): Graph
    requires {p, w} <= g.cell.Keys
  {
    g.Paint(w, false, g.Bh(p)).Paint(p, true, g.Bh(w))
  }

  lemma RedSibBalanced(g: Graph, e: Node?, p: Node, w: Node, s: Side, n: Node)
    requires Sibling(g, e, p, w, s) && g.cell[w].red && n in g.cell && n != p
    requires var k := RedSibPainted(g, p, w); k.Rotatable(p, s)
    ensures BalancedAfter(RedSibPainted(g, p, w), p, s, n)
  {
    assert g.Balanced(n) && g.Balanced(w) && g.Linked(n, Left) && g.Linked(n, Right);
    if n == w {} else {}
  }

  lemma RedSibSpaced(g: Graph, e: Node?, p: Node, w: Node, s: Side, n: Node)
    requires Sibling(g, e, p, w, s) && g.cell[w].red && n in g.cell && n != e
    requires var k := RedSibPainted(g, p, w); k.Rotatable(p, s)
    ensures SpacedAfter(RedSibPainted(g, p, w), p, s, n)
  {
    assert g.RedSpaced(w) && g.Linked(n, Left) && g.Linked(n, Right) && g.Linked(w, Left) && g.Linked(w, Right);
    if n == p {
    } else if n == w {
    } else {
      assert g.RedSpaced(n);
    }
  }

  lemma RedSibDeficit(g: Graph, e: Node?, p: Node, w: Node, s: Side)
    requires Sibling(g, e, p, w, s) && g.cell[w].red
    requires var k := RedSibPainted(g, p, w); k.Shape() && k.Rotatable(p, s) && k.cell.Keys == g.cell.Keys
    ensures var h := RedSibPainted(g, p, w).Rot(p, s);
            Deficit(h, e, p, s) && h.cell.Keys == g.cell.Keys && h.cell[p].red && h.Red(e) == g.Red(e) && h.root != e
  {
    var k := RedSibPainted(g, p, w);
    var h := k.Rot(p, s);
    RotShape(k, p, s);
    assert h.AllBalanced(p) by {
      forall n | n in g.cell && n != p
        ensures h.Balanced(n)
      {
        RedSibBalanced(g, e, p, w, s, n);
        RotColours(k, p, s, n);
      }
    }
    forall n | n in g.cell && n != p && n != e
      ensures h.RedSpaced(n)
    {
      RedSibSpaced(g, e, p, w, s, n);
      RotColours(k, p, s, n);
    }
    RotKids(k, p, s, p, s);
    RotKids(k, p, s, p, s.Opposite());
    assert g.Balanced(w) && g.RedSpaced(w);
  }

  // Black sibling without red kids: paint it red, and the deficit moves up
  ghost function Lifted(g: Graph, p: Node, w: Node): Graph
    requires {p, w} <= g.cell.Keys
  {
    g.Paint(w, true, Less(g.Bh(w))).Paint(p, g.cell[p].red, Less(g.Bh(p)))
  }

  ghost predicate BlackNephews(g: Graph, e: Node?, p: Node, w: Node, s: Side) {
    Sibling(g, e, p, w, s) && !g.cell[w].red && !g.Red(g.Kid(w, Left)) && !g.Red(g.Kid(w, Right))
  }

  lemma LiftedBalanced(g: Graph, e: Node?, p: Node, w: Node, s: Side, n: Node)
    requires BlackNephews(g, e, p, w, s) && n in g.cell && n != g.Parent(p)
    ensures Lifted(g, p, w).Balanced(n)
  {
    assert n != p ==> g.Balanced(n);
    assert g.Balanced(w) && g.Linked(n, Left) && g.Linked(n, Right);
    if n == p {} else if n == w {} else {}
  }

  lemma LiftedSpaced(g: Graph, e: Node?, p: Node, w: Node, s: Side, n: Node)
    requires BlackNephews(g, e, p, w, s) && n in g.cell && n != p
    ensures Lifted(g, p, w).RedSpaced(n)
  {
    assert n != e ==> g.RedSpaced(n);
    assert g.Linked(n, Left) && g.Linked(n, Right);
    if n == w {} else if n == e {} else {}
  }

  lemma LiftedShort(g: Graph, e: Node?, p: Node, w: Node, s: Side) returns (s': Side)
    requires BlackNephews(g, e, p, w, s) && g.Parent(p) != null
    ensures g.Parent(p) in g.cell && g.Parent(p) in Lifted(g, p, w).cell
            && ShortSide(Lifted(g, p, w), p, g.Parent(p), s')
  {
    var q := g.Parent(p);
    assert g.LinkedUp(p);
    s' := if g.Kid(q, Left) == p then Left else Right;
    assert g.Balanced(q) && g.RedSpaced(q) && g.Linked(q, Left) && g.Linked(q, Right) && g.Ordered(q);
  }

  lemma LiftedDeficit(g: Graph, e: Node?, p: Node, w: Node, s: Side) returns (s': Side)
    requires BlackNephews(g, e, p, w, s)
    ensures Deficit(Lifted(g, p, w), p, g.Parent(p), s') && Lifted(g, p, w).cell.Keys == g.cell.Keys
  {
    var h, q := Lifted(g, p, w), g.Parent(p);
    PaintShape(g, w, true, Less(g.Bh(w)));
    PaintShape(g.Paint(w, true, Less(g.Bh(w))), p, g.cell[p].red, Less(g.Bh(p)));
    assert h.AllBalanced(q) by {
      forall n | n in g.cell && n != q
        ensures h.Balanced(n)
      {
        LiftedBalanced(g, e, p, w, s, n);
      }
    }
    forall n | n in g.cell && n != q && n != p
      ensures h.RedSpaced(n)
    {
      LiftedSpaced(g, e, p, w, s, n);
    }
    s' := Left;
    if q != null {
      s' := LiftedShort(g, e, p, w, s);
    }
  }

  // Black sibling whose only red kid is the inner one: rotate that to the outside
  ghost function InnerPainted(g: Graph, w: Node, i: Node): Graph
    requires {w, i} <= g.cell.Keys
  {
    g.Paint(i, false, g.Bh(i) + 1).Paint(w, true, Less(g.Bh(w)))
  }

  ghost predicate InnerRed(g: Graph, e: Node?, p: Node, w: Node, i: Node, s: Side) {
    && Sibling(g, e, p, w, s) && !g.cell[w].red && !g.Red(g.Kid(w, s.Opposite()))
    && g.Kid(w, s) == i && i in g.cell && g.cell[i].red
    && g.Parent(i) == w && w !in {g.Kid(i, Left), g.Kid(i, Right)} && p !in {g.Kid(i, Left), g.Kid(i, Right)}
  }

  lemma InnerBalanced(g: Graph, e: Node?, p: Node, w: Node, i: Node, s: Side, n: Node)
    requires InnerRed(g, e, p, w, i, s) && n in g.cell && n != p
    requires var k := InnerPainted(g, w, i); k.Rotatable(w, s.Opposite())
    ensures BalancedAfter(InnerPainted(g, w, i), w, s.Opposite(), n)
  {
    assert g.Balanced(n) && g.Balanced(w) && g.Balanced(i) && g.Linked(n, Left) && g.Linked(n, Right);
    if n == i {} else if n == w {} else {}
  }

  lemma InnerSpaced(g: Graph, e: Node?, p: Node, w: Node, i: Node, s: Side, n: Node)
    requires InnerRed(g, e, p, w, i, s) && n in g.cell && n != p && n != e
    requires var k := InnerPainted(g, w, i); k.Rotatable(w, s.Opposite())
    ensures SpacedAfter(InnerPainted(g, w, i), w, s.Opposite(), n)
  {
    assert g.RedSpaced(n) && g.RedSpaced(i) && g.Linked(n, Left) && g.Linked(n, Right) && g.Linked(i, Left)
        && g.Linked(i, Right);
    if n == i {} else if n == w {} else {}
  }

  lemma InnerDeficit(g: Graph, e: Node?, p: Node, w: Node, i: Node, s: Side)
    requires InnerRed(g, e, p, w, i, s)
    requires var k := InnerPainted(g, w, i); k.Shape() && k.Rotatable(w, s.Opposite()) && k.cell.Keys == g.cell.Keys
    ensures var h := InnerPainted(g, w, i).Rot(w, s.Opposite());
            Deficit(h, e, p, s) && h.cell.Keys == g.cell.Keys && h.Kid(p, s.Opposite()) == i && !h.cell[i].red
            && h.Kid(i, s.Opposite()) == w && h.cell[w].red && h.Red(e) == g.Red(e) && h.root != e
  {
    var k := InnerPainted(g, w, i);
    var h := k.Rot(w, s.Opposite());
    RotShape(k, w, s.Opposite());
    assert h.AllBalanced(p) by {
      forall n | n in g.cell && n != p
        ensures h.Balanced(n)
      {
        InnerBalanced(g, e, p, w, i, s, n);
        RotColours(k, w, s.Opposite(), n);
      }
    }
    forall n | n in g.cell && n != p && n != e
      ensures h.RedSpaced(n)
    {
      InnerSpaced(g, e, p, w, i, s, n);
      RotColours(k, w, s.Opposite(), n);
    }
    RotKids(k, w, s.Opposite(), p, s);
    RotKids(k, w, s.Opposite(), p, s.Opposite());
    RotKids(k, w, s.Opposite(), i, s.Opposite());
    assert g.Balanced(w);
  }

  lemma InnerRepair(g: Graph, e: Node?, p: Node, w: Node, i: Node, s: Side)
    requires InnerRed(g, e, p, w, i, s)
    ensures var k := InnerPainted(g, w, i); k.Shape() && k.Rotatable(w, s.Opposite()) && k.cell.Keys == g.cell.Keys
    ensures var h := InnerPainted(g, w, i).Rot(w, s.Opposite());
            Deficit(h, e, p, s) && h.cell.Keys == g.cell.Keys && h.Kid(p, s.Opposite()) == i && !h.cell[i].red
            && h.Kid(i, s.Opposite()) == w && h.Red(w) && h.Red(e) == g.Red(e) && h.root != e
  {
    TwoPaints(g, i, false, g.Bh(i) + 1, w, true, Less(g.Bh(w)), w, s.Opposite());
    InnerDeficit(g, e, p, w, i, s);
  }

  // Black sibling with a red outer kid: one rotation repairs the tree
  ghost function OuterPainted(g: Graph, p: Node, w: Node, x: Node): Graph
    requires {p, w, x} <= g.cell.Keys
  {
    g.Paint(w, g.cell[p].red, g.Bh(p)).Paint(p, false, g.Bh(w)).Paint(x, false, g.Bh(x) + 1)
  }

  ghost predicate OuterRed(g: Graph, e: Node?, p: Node, w: Node, x: Node, s: Side) {
    && Sibling(g, e, p, w, s) && !g.cell[w].red
    && g.Kid(w, s.Opposite()) == x && x in g.cell && g.cell[x].red
  }

  lemma OuterPaintedShape(g: Graph, e: Node?, p: Node, w: Node, x: Node, s: Side)
    requires OuterRed(g, e, p, w, x, s)
    ensures var k := OuterPainted(g, p, w, x); k.Shape() && k.Rotatable(p, s) && k.cell.Keys == g.cell.Keys
  {
    var k1 := g.Paint(w, g.cell[p].red, g.Bh(p));
    var k2 := k1.Paint(p, false, g.Bh(w));
    PaintShape(g, w, g.cell[p].red, g.Bh(p));
    PaintShape(k1, p, false, g.Bh(w));
    PaintShape(k2, x, false, g.Bh(x) + 1);
    RotSite(OuterPainted(g, p, w, x), p, s);
  }

  // What was not painted stays balanced
  lemma OuterRedFar(g: Graph, e: Node?, p: Node, w: Node, x: Node, s: Side, n: Node)
    requires OuterRed(g, e, p, w, x, s) && n in g.cell && n !in {p, w, x}
    requires var k := OuterPainted(g, p, w, x); k.Rotatable(p, s)
    ensures BalancedAfter(OuterPainted(g, p, w, x), p, s, n)
  {
    assert g.Balanced(n) && g.Balanced(w) && g.Linked(n, Left) && g.Linked(n, Right) && g.Linked(w, s.Opposite());
  }

  lemma OuterRedBalanced(g: Graph, e: Node?, p: Node, w: Node, x: Node, s: Side, n: Node)
    requires OuterRed(g, e, p, w, x, s) && n in g.cell
    requires var k := OuterPainted(g, p, w, x); k.Rotatable(p, s)
    ensures BalancedAfter(OuterPainted(g, p, w, x), p, s, n)
  {
    if n !in {p, w, x} {
      OuterRedFar(g, e, p, w, x, s, n);
    } else {
      assert g.Balanced(w) && g.Balanced(x) && g.Linked(x, Left) && g.Linked(x, Right) && g.Linked(w, s.Opposite());
      if n == w {} else if n == p {} else {}
    }
  }

  lemma OuterRedSpaced(g: Graph, e: Node?, p: Node, w: Node, x: Node, s: Side, n: Node)
    requires OuterRed(g, e, p, w, x, s) && n in g.cell
    requires var k := OuterPainted(g, p, w, x); k.Rotatable(p, s)
    ensures SpacedAfter(OuterPainted(g, p, w, x), p, s, n)
  {
    assert n != p && n != e ==> g.RedSpaced(n);
    assert g.Linked(n, Left) && g.Linked(n, Right);
    if n == p {} else if n == w {} else if n == x {} else {}
  }

  lemma OuterRedSettled(g: Graph, e: Node?, p: Node, w: Node, x: Node, s: Side)
    requires OuterRed(g, e, p, w, x, s)
    requires var k := OuterPainted(g, p, w, x); k.Shape() && k.Rotatable(p, s) && k.cell.Keys == g.cell.Keys
    ensures var h := OuterPainted(g, p, w, x).Rot(p, s); h.Valid() && h.cell.Keys == g.cell.Keys
  {
    var k := OuterPainted(g, p, w, x);
    var h := k.Rot(p, s);
    RotShape(k, p, s);
    assert h.AllBalanced(null) by {
      forall n | n in g.cell
        ensures h.Balanced(n)
      {
        OuterRedBalanced(g, e, p, w, x, s, n);
        RotColours(k, p, s, n);
      }
    }
    assert h.AllRedSpaced(null) by {
      forall n | n in g.cell
        ensures h.RedSpaced(n)
      {
        OuterRedSpaced(g, e, p, w, x, s, n);
        RotColours(k, p, s, n);
      }
    }
  }

  lemma DeficitElm(g: Graph, e: Node?, p: Node?, s: Side)
    requires Deficit(g, e, p, s)
    ensures e == null || e in g.cell
  {
    assert p != null ==> g.Linked(p, s);
  }

  // A red node takes the missing black itself, and so does the root
  lemma BlackEnd(g: Graph, e: Node?, p: Node?, s: Side)
    requires Deficit(g, e, p, s) && (g.Red(e) || e == g.root) && e != null
    ensures e in g.cell
    ensures var h := g.Paint(e, false, g.Bh(e) + if g.Red(e) then 1 else 0); h.Valid() && h.cell.Keys == g.cell.Keys
  {
    var bh := g.Bh(e) + if g.Red(e) then 1 else 0;
    var h := g.Paint(e, false, bh);
    PaintShape(g, e, false, bh);
    assert g.LinkedUp(e);
    assert h.AllBalanced(null) by {
      forall n | n in g.cell
        ensures h.Balanced(n)
      {
        assert n != p ==> g.Balanced(n);
        assert g.Linked(n, Left) && g.Linked(n, Right) && g.Ordered(n);
        assert p != null ==> g.Linked(p, s);
      }
    }
    assert h.AllRedSpaced(null) by {
      forall n | n in g.cell
        ensures h.RedSpaced(n)
      {
        assert n != p && n != e ==> g.RedSpaced(n);
      }
    }
  }
}
