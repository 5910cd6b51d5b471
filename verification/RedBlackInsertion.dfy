// Why the colour repair after an insertion works: every step on the linked nodes, as lemmas about values.
module RedBlackInsertion {
  import opened Listings
  import opened RedBlackGraph

  // ---- insertion: two reds in a row below a black grandparent ----

  ghost predicate DoubleRed(g: Graph, e: Node, p: Node, gp: Node, d: Side) {
    && g.Fault(e) && g.Parent(e) == p && p in g.cell && g.cell[p].red
    && g.Parent(p) == gp && gp in g.cell && !g.cell[gp].red
    && g.Kid(gp, d) == p && gp != p && gp != e && e != p
    && g.Kid(gp, d.Opposite()) != p && g.Kid(gp, d.Opposite()) != gp
    && (e == g.Kid(p, Left) || e == g.Kid(p, Right)) && g.Kid(p, Left) != g.Kid(p, Right)
    && g.Parent(gp) !in {p, e}
  }

  lemma FaultSite(g: Graph, e: Node) returns (p: Node, gp: Node, d: Side)
    requires g.Fault(e) && g.Red(g.Parent(e))
    ensures DoubleRed(g, e, p, gp, d)
  {
    p := g.Parent(e);
    assert g.LinkedUp(e) && g.LinkedUp(p);
    assert p != g.root;
    gp := g.Parent(p);
    assert g.Ordered(gp) && g.Ordered(p) && g.Ordered(e) && g.RedSpaced(gp);
    d := if g.Kid(gp, Left) == p then Left else Right;
    assert g.Linked(gp, Left) && g.Linked(gp, Right) && g.Linked(p, Left) && g.Linked(p, Right);
    assert g.LinkedUp(gp);
  }

  ghost function Recoloured(g: Graph, p: Node, gp: Node, u: Node): Graph
    requires {p, gp, u} <= g.cell.Keys
  {
    g.Paint(u, false, g.Bh(u) + 1).Paint(p, false, g.Bh(p) + 1).Paint(gp, true, g.Bh(gp))
  }

  lemma RecolouredBalanced(g: Graph, e: Node, p: Node, gp: Node, u: Node, d: Side, n: Node)
    requires DoubleRed(g, e, p, gp, d) && g.Kid(gp, d.Opposite()) == u && g.Red(u) && n in g.cell
    ensures Recoloured(g, p, gp, u).Balanced(n)
  {
    assert g.Balanced(n) && g.Balanced(gp) && g.Linked(n, Left) && g.Linked(n, Right) && g.Linked(gp, d.Opposite());
    if n == gp {} else if n == p {} else if n == u {} else {}
  }

  lemma RecolouredSpaced(g: Graph, e: Node, p: Node, gp: Node, u: Node, d: Side, n: Node)
    requires DoubleRed(g, e, p, gp, d) && g.Kid(gp, d.Opposite()) == u && g.Red(u) && n in g.cell && n != g.Parent(gp)
    ensures Recoloured(g, p, gp, u).RedSpaced(n)
  {
    assert g.Linked(n, Left) && g.Linked(n, Right);
    if n == gp {} else if n == p {} else { assert g.RedSpaced(n); }
  }

  lemma RecolouredShape(g: Graph, p: Node, gp: Node, u: Node)
    requires g.Shape() && {p, gp, u} <= g.cell.Keys
    ensures Recoloured(g, p, gp, u).Shape() && Recoloured(g, p, gp, u).cell.Keys == g.cell.Keys
  {
    var g1 := g.Paint(u, false, g.Bh(u) + 1);
    var g2 := g1.Paint(p, false, g.Bh(p) + 1);
    PaintShape(g, u, false, g.Bh(u) + 1);
    PaintShape(g1, p, false, g.Bh(p) + 1);
    PaintShape(g2, gp, true, g.Bh(gp));
  }

  lemma RecolouredFault(g: Graph, e: Node, p: Node, gp: Node, u: Node, d: Side)
    requires DoubleRed(g, e, p, gp, d) && g.Kid(gp, d.Opposite()) == u && g.Red(u)
    ensures Recoloured(g, p, gp, u).Fault(gp) && Recoloured(g, p, gp, u).cell.Keys == g.cell.Keys
    ensures g.Sub(e) <= g.Sub(gp) && gp in g.Sub(gp) - g.Sub(e)
  {
    var h := Recoloured(g, p, gp, u);
    RecolouredShape(g, p, gp, u);
    assert h.AllBalanced(null) by {
      forall n | n in g.cell
        ensures h.Balanced(n)
      {
        RecolouredBalanced(g, e, p, gp, u, d, n);
      }
    }
    assert h.AllRedSpaced(g.Parent(gp)) by {
      forall n | n in g.cell && n != g.Parent(gp)
        ensures h.RedSpaced(n)
      {
        RecolouredSpaced(g, e, p, gp, u, d, n);
      }
    }
    var q := g.Parent(gp);
    if q != null {
      assert g.LinkedUp(gp) && g.RedSpaced(q) && g.Linked(q, Left) && g.Linked(q, Right);
    }
    assert g.Ordered(e) && g.Ordered(p) && g.Ordered(gp);
  }

  // An inner grandchild is first rotated to the outside
  lemma StraightenedBalanced(g: Graph, e: Node, p: Node, gp: Node, d: Side, n: Node)
    requires DoubleRed(g, e, p, gp, d) && g.Kid(p, d.Opposite()) == e && g.Rotatable(p, d) && n in g.cell
    ensures BalancedAfter(g, p, d, n)
  {
    RotKids(g, p, d, e, Left);
    assert g.Balanced(n) && g.Balanced(p) && g.Balanced(e);
  }

  lemma StraightenedSpaced(g: Graph, e: Node, p: Node, gp: Node, d: Side, n: Node)
    requires DoubleRed(g, e, p, gp, d) && g.Kid(p, d.Opposite()) == e && g.Rotatable(p, d) && n in g.cell && n != e
    ensures SpacedAfter(g, p, d, n)
  {
    assert g.RedSpaced(e) && (n != p ==> g.RedSpaced(n));
  }

  lemma StraightenedFault(g: Graph, e: Node, p: Node, gp: Node, d: Side)
    requires DoubleRed(g, e, p, gp, d) && g.Kid(p, d.Opposite()) == e
    ensures g.Rotatable(p, d) && g.Rot(p, d).Fault(p)
    ensures var h := g.Rot(p, d);
            h.Parent(p) == e && h.cell[e].red && h.Parent(e) == gp && h.Kid(gp, d) == e
            && h.Kid(e, d) == p && h.Kid(gp, d.Opposite()) == g.Kid(gp, d.Opposite())
  {
    RotSite(g, p, d);
    RotShape(g, p, d);
    var h := g.Rot(p, d);
    assert h.AllBalanced(null) by {
      forall n | n in g.cell
        ensures h.Balanced(n)
      {
        StraightenedBalanced(g, e, p, gp, d, n);
        RotColours(g, p, d, n);
      }
    }
    assert h.AllRedSpaced(e) by {
      forall n | n in g.cell && n != e
        ensures h.RedSpaced(n)
      {
        StraightenedSpaced(g, e, p, gp, d, n);
        RotColours(g, p, d, n);
      }
    }
    RotKids(g, p, d, gp, d);
    RotKids(g, p, d, gp, d.Opposite());
    RotKids(g, p, d, e, d);
    RotKids(g, p, d, e, d.Opposite());
    assert g.RedSpaced(e);
  }

  // An outer grandchild is settled by one rotation at the grandparent
  ghost function Swapped(g: Graph, p: Node, gp: Node): Graph
    requires {p, gp} <= g.cell.Keys
  {
    g.Paint(p, false, g.Bh(p) + 1).Paint(gp, true, Less(g.Bh(gp)))
  }

  ghost predicate Outer(g: Graph, e: Node, p: Node, gp: Node, d: Side) {
    DoubleRed(g, e, p, gp, d) && g.Kid(p, d) == e && !g.Red(g.Kid(gp, d.Opposite()))
  }

  lemma SwappedShape(g: Graph, e: Node, p: Node, gp: Node, d: Side)
    requires Outer(g, e, p, gp, d)
    ensures Swapped(g, p, gp).Shape() && Swapped(g, p, gp).cell.Keys == g.cell.Keys
    ensures Swapped(g, p, gp).Rotatable(gp, d.Opposite())
  {
    PaintShape(g, p, false, g.Bh(p) + 1);
    PaintShape(g.Paint(p, false, g.Bh(p) + 1), gp, true, Less(g.Bh(gp)));
    RotSite(Swapped(g, p, gp), gp, d.Opposite());
  }

  lemma OuterBalanced(g: Graph, e: Node, p: Node, gp: Node, d: Side, n: Node)
    requires Outer(g, e, p, gp, d) && n in g.cell
    requires var k := Swapped(g, p, gp); k.Rotatable(gp, d.Opposite())
    ensures BalancedAfter(Swapped(g, p, gp), gp, d.Opposite(), n)
  {
    assert g.Balanced(n) && g.Balanced(p) && g.Balanced(gp);
    assert g.Linked(n, Left) && g.Linked(n, Right);
    if n == p {} else if n == gp {} else {}
  }

  lemma OuterSpaced(g: Graph, e: Node, p: Node, gp: Node, d: Side, n: Node)
    requires Outer(g, e, p, gp, d) && n in g.cell
    requires var k := Swapped(g, p, gp); k.Rotatable(gp, d.Opposite())
    ensures SpacedAfter(Swapped(g, p, gp), gp, d.Opposite(), n)
  {
    assert g.Linked(n, Left) && g.Linked(n, Right) && g.Linked(p, Left) && g.Linked(p, Right);
    if n == gp {
    } else if n == p {
    } else {
      assert g.RedSpaced(n);
    }
  }

  lemma OuterSettled(g: Graph, e: Node, p: Node, gp: Node, d: Side)
    requires Outer(g, e, p, gp, d)
    requires var k := Swapped(g, p, gp); k.Shape() && k.Rotatable(gp, d.Opposite()) && k.cell.Keys == g.cell.Keys
    ensures var h := Swapped(g, p, gp).Rot(gp, d.Opposite());
            h.Fault(e) && !h.Red(h.Parent(e)) && h.cell.Keys == g.cell.Keys
  {
    var k := Swapped(g, p, gp);
    var h := k.Rot(gp, d.Opposite());
    RotShape(k, gp, d.Opposite());
    assert h.AllBalanced(null) by {
      forall n | n in g.cell
        ensures h.Balanced(n)
      {
        OuterBalanced(g, e, p, gp, d, n);
        RotColours(k, gp, d.Opposite(), n);
      }
    }
    assert h.AllRedSpaced(h.Parent(e)) by {
      forall n | n in g.cell
        ensures h.RedSpaced(n)
      {
        OuterSpaced(g, e, p, gp, d, n);
        RotColours(k, gp, d.Opposite(), n);
      }
    }
  }

  lemma BlackRoot(g: Graph, e: Node)
    requires g.Fault(e) && !g.Red(g.Parent(e))
    ensures g.root != null && g.root in g.cell
    ensures var h := g.Paint(g.root, false, g.Bh(g.root) + if g.Red(g.root) then 1 else 0);
            h.Valid() && h.cell.Keys == g.cell.Keys
  {
    assert g.LinkedUp(e);
    var bh := g.Bh(g.root) + if g.Red(g.root) then 1 else 0;
    var h := g.Paint(g.root, false, bh);
    PaintShape(g, g.root, false, bh);
    assert h.AllBalanced(null) by {
      forall n | n in g.cell
        ensures h.Balanced(n)
      {
        assert g.Balanced(n) && g.Linked(n, Left) && g.Linked(n, Right);
      }
    }
    assert h.AllRedSpaced(null) by {
      forall n | n in g.cell
        ensures h.RedSpaced(n)
      {
        if n != g.Parent(e) { assert g.RedSpaced(n); }
      }
    }
  }

  // ---- hanging in the new node ----

  // The search for `key` has passed every node above `t` on the right side
  ghost predicate Passed(g: Graph, t: Node, key: int) {
    forall n {:trigger g.cell[n]} :: n in g.cell ==>
      (t in g.Sub(g.cell[n].left) ==> key < n.key) && (t in g.Sub(g.cell[n].right) ==> n.key < key)
  }

  ghost predicate Slot(g: Graph, p: Node?, d: Side, key: int) {
    if p == null then g.cell == map[]
    else p in g.cell && g.Kid(p, d) == null && Passed(g, p, key) && (if d == Left then key < p.key else p.key < key)
  }

  lemma PassedKid(g: Graph, p: Node, d: Side, key: int)
    requires g.Shape() && p in g.cell && Passed(g, p, key) && (if d == Left then key < p.key else p.key < key)
    requires g.Kid(p, d) != null
    ensures g.Kid(p, d) in g.cell && Passed(g, g.Kid(p, d), key)
  {
    var t := g.Kid(p, d);
    assert g.Linked(p, d) && g.Ordered(p) && g.Ordered(t);
    forall n | n in g.cell
      ensures (t in g.Sub(g.cell[n].left) ==> key < n.key) && (t in g.Sub(g.cell[n].right) ==> n.key < key)
    {
      assert g.Linked(n, Left) && g.Linked(n, Right) && g.Ordered(n);
      var l, r := g.cell[n].left, g.cell[n].right;
      if t in g.Sub(l) {
        Nested(g, l, t);
      } else if t in g.Sub(r) {
        Nested(g, r, t);
      }
    }
  }

  lemma PassedRoot(g: Graph, key: int)
    requires g.Shape() && g.root != null
    ensures Passed(g, g.root, key)
  {
    forall n | n in g.cell
      ensures g.root !in g.Sub(g.cell[n].left) && g.root !in g.Sub(g.cell[n].right)
    {
      assert g.Linked(n, Left) && g.Linked(n, Right) && g.Ordered(n);
      var l, r := g.cell[n].left, g.cell[n].right;
      if g.root in g.Sub(l) {
        Nested(g, l, g.root);
      } else if g.root in g.Sub(r) {
        Nested(g, r, g.root);
      }
    }
  }

  ghost function Attach(g: Graph, p: Node?, d: Side, e: Node): Graph {
    Graph(if p == null then e else g.root,
          map n | n in g.cell.Keys + {e} ::
            if n == e || n !in g.cell then Cell(null, null, p, true, {e}, 0) else
            var k := g.cell[n];
            var kid := if n == p then k.SetKid(d, e) else k;
            if p != null && p in k.sub then kid.(sub := k.sub + {e}) else kid)
  }

  // Only the parent notices
  lemma AttachCell(g: Graph, p: Node?, d: Side, e: Node, n: Node)
    requires e !in g.cell && n in g.cell
    ensures n in Attach(g, p, d, e).cell
    ensures var k, h := g.cell[n], Attach(g, p, d, e).cell[n];
            && h.red == k.red && h.parent == k.parent && h.bh == k.bh
            && h.left == (if n == p && d == Left then e else k.left)
            && h.right == (if n == p && d == Right then e else k.right)
  {
  }

  lemma AttachOrdered(g: Graph, p: Node?, d: Side, e: Node, n: Node)
    requires g.Shape() && e !in g.cell && Slot(g, p, d, e.key) && n in g.cell
    ensures Attach(g, p, d, e).Ordered(n)
  {
    assert g.Ordered(n) && g.Linked(n, Left) && g.Linked(n, Right);
    var h := Attach(g, p, d, e);
    var l, r := g.cell[n].left, g.cell[n].right;
    assert p in g.Sub(n) ==> n == p || p in g.Sub(l) || p in g.Sub(r);
    if n == p {
      assert p !in g.Sub(l) && p !in g.Sub(r);
    } else {
      assert h.Sub(h.cell[n].left) == if p in g.Sub(l) then g.Sub(l) + {e} else g.Sub(l);
      assert h.Sub(h.cell[n].right) == if p in g.Sub(r) then g.Sub(r) + {e} else g.Sub(r);
    }
  }

  lemma AttachLinks(g: Graph, p: Node?, d: Side, e: Node)
    requires g.Shape() && e !in g.cell && Slot(g, p, d, e.key)
    ensures Attach(g, p, d, e).AllLinked() && Attach(g, p, d, e).AllLinkedUp()
  {
    var h := Attach(g, p, d, e);
    assert h.AllLinked() by {
      forall n, s | n in h.cell
        ensures h.Linked(n, s)
      {
        if n != e { assert g.Linked(n, s); }
      }
    }
    assert h.AllLinkedUp() by {
      forall n | n in h.cell
        ensures h.LinkedUp(n)
      {
        if n != e {
          assert g.LinkedUp(n);
        } else if p != null {
          assert g.Linked(p, d.Opposite());
        }
      }
    }
  }

  lemma AttachShape(g: Graph, p: Node?, d: Side, e: Node)
    requires g.Shape() && e !in g.cell && Slot(g, p, d, e.key)
    ensures Attach(g, p, d, e).Shape() && Attach(g, p, d, e).cell.Keys == g.cell.Keys + {e}
  {
    var h := Attach(g, p, d, e);
    AttachLinks(g, p, d, e);
    assert h.AllOrdered() by {
      forall n | n in h.cell
        ensures h.Ordered(n)
      {
        if n != e { AttachOrdered(g, p, d, e, n); }
      }
    }
  }

  lemma AttachBalanced(g: Graph, p: Node?, d: Side, e: Node, n: Node)
    requires g.Valid() && e !in g.cell && Slot(g, p, d, e.key) && n in g.cell
    ensures Attach(g, p, d, e).Balanced(n)
  {
    AttachCell(g, p, d, e, n);
    assert g.Balanced(n) && g.Linked(n, Left) && g.Linked(n, Right);
    var h := Attach(g, p, d, e);
    assert h.Bh(g.cell[n].left) == g.Bh(g.cell[n].left) && h.Bh(g.cell[n].right) == g.Bh(g.cell[n].right);
    if n == p {} else {}
  }

  lemma AttachSpaced(g: Graph, p: Node?, d: Side, e: Node, n: Node)
    requires g.Valid() && e !in g.cell && Slot(g, p, d, e.key) && n in g.cell && n != p
    ensures Attach(g, p, d, e).RedSpaced(n)
  {
    assert g.RedSpaced(n) && g.Linked(n, Left) && g.Linked(n, Right);
  }

  lemma AttachFault(g: Graph, p: Node?, d: Side, e: Node)
    requires g.Valid() && e !in g.cell && Slot(g, p, d, e.key)
    ensures Attach(g, p, d, e).Fault(e) && Attach(g, p, d, e).cell.Keys == g.cell.Keys + {e}
  {
    var h := Attach(g, p, d, e);
    AttachShape(g, p, d, e);
    assert h.AllBalanced(null) by {
      forall n | n in h.cell
        ensures h.Balanced(n)
      {
        if n != e { AttachBalanced(g, p, d, e, n); }
      }
    }
    assert h.AllRedSpaced(p) by {
      forall n | n in h.cell && n != p
        ensures h.RedSpaced(n)
      {
        if n != e { AttachSpaced(g, p, d, e, n); }
      }
    }
    if p != null {
      assert g.RedSpaced(p);
    }
  }
}
