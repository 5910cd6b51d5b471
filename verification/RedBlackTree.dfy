// Red-black trees over linked nodes.
module RedBlackTree {
  import opened Listings
  import opened Lists
  import opened Powers
  import opened RedBlackGraph
  import opened RedBlackInsertion
  import opened RedBlackOrder
  import opened RedBlackRemoval
  import opened RedBlackSplice

  class Head {
    var root: Node?
    ghost var g: Graph

    constructor ()
      ensures Valid() && g.cell == map[]
    {
      root, g := null, Graph(null, map[]);
    }

    ghost predicate Models()
      reads this, g.cell.Keys
    {
      root == g.root &&
      forall n :: n in g.cell ==>
        n.left == g.cell[n].left && n.right == g.cell[n].right && n.parent == g.cell[n].parent && n.red == g.cell[n].red
    }

    /** `y` takes the place of `x` below `p`; `b` moves from `y` to `x`. */
    twostate predicate Rotated(x: Node, y: Node, b: Node?, p: Node?, d: Side)
      reads this, x, y, Some(b), Some(p)
    {
      && x.Kid(d.Opposite()) == b && x.Kid(d) == old(x.Kid(d)) && x.parent == y
      && y.Kid(d) == x && y.Kid(d.Opposite()) == old(y.Kid(d.Opposite())) && y.parent == p
      && (b != null ==> b.left == old(b.left) && b.right == old(b.right) && b.parent == x)
      && (p != null ==>
            && p.left == (if old(p.left) == x then y else old(p.left))
            && p.right == (if old(p.left) == x then old(p.right) else y)
            && p.parent == old(p.parent) && root == old(root))
      && (p == null ==> root == y)
    }

    method RotateLeft(elm: Node)
      requires elm.right != null
      requires elm !in {elm.parent, elm.right, elm.right.left} && elm.right !in {elm.parent, elm.right.left}
      requires elm.parent == null || elm.parent != elm.right.left
      modifies this`root, elm`right, elm`parent, elm.right`left, elm.right`parent
      modifies Some(elm.right.left)`parent, Some(elm.parent)`left, Some(elm.parent)`right
      ensures Rotated(elm, old(elm.right), old(elm.right.left), old(elm.parent), Left)
    {
      var tmp := elm.right;
      elm.right := tmp.left;
      if elm.right != null {
        tmp.left.parent := elm;
      }
      tmp.parent := elm.parent;
      if tmp.parent != null {
        if elm == elm.parent.left {
          elm.parent.left := tmp;
        } else {
          elm.parent.right := tmp;
        }
      } else {
        root := tmp;
      }
      tmp.left := elm;
      elm.parent := tmp;
    }

    method RotateRight(elm: Node)
      requires elm.left != null
      requires elm !in {elm.parent, elm.left, elm.left.right} && elm.left !in {elm.parent, elm.left.right}
      requires elm.parent == null || elm.parent != elm.left.right
      modifies this`root, elm`left, elm`parent, elm.left`right, elm.left`parent
      modifies Some(elm.left.right)`parent, Some(elm.parent)`left, Some(elm.parent)`right
      ensures Rotated(elm, old(elm.left), old(elm.left.right), old(elm.parent), Right)
    {
      var tmp := elm.left;
      elm.left := tmp.right;
      if elm.left != null {
        tmp.right.parent := elm;
      }
      tmp.parent := elm.parent;
      if tmp.parent != null {
        if elm == elm.parent.left {
          elm.parent.left := tmp;
        } else {
          elm.parent.right := tmp;
        }
      } else {
        root := tmp;
      }
      tmp.right := elm;
      elm.parent := tmp;
    }

    method Turn(elm: Node, d: Side)
      requires Models() && g.Rotatable(elm, d) && elm.Kid(d.Opposite()).parent == elm
      modifies this, g.cell.Keys
      ensures g == old(g.Rot(elm, d)) && Models()
    {
      ghost var h := g.Rot(elm, d);
      ghost var y, p := g.Kid(elm, d.Opposite()), g.Parent(elm);
      ghost var b := g.Kid(y, d);
      if d == Left {
        RotateLeft(elm);
      } else {
        RotateRight(elm);
      }
      forall n | n in g.cell
        ensures n.left == h.cell[n].left && n.right == h.cell[n].right
        ensures n.parent == h.cell[n].parent && n.red == h.cell[n].red
      {
        if n == elm {} else if n == y {} else if n == b {} else if n == p {} else {}
      }
      g := h;
    }

    method Rotate(elm: Node, d: Side)
      requires Models() && g.Shape() && elm in g.cell && g.Kid(elm, d.Opposite()) != null
      modifies this, g.cell.Keys
      ensures old(g.Rotatable(elm, d)) && g == old(g.Rot(elm, d)) && Models() && g.Shape()
    {
      RotSite(g, elm, d);
      RotShape(g, elm, d);
      assert g.Linked(elm, d.Opposite());
      Turn(elm, d);
    }

    method Paint(n: Node, red: bool, ghost bh: nat)
      requires Models() && n in g.cell
      modifies this`g, n`red
      ensures Models() && g == old(g).Paint(n, red, bh)
    {
      n.red := red;
      g := g.Paint(n, red, bh);
    }

    method SetBlackRed(black: Node, red: Node, ghost bb: nat, ghost rb: nat)
      requires Models() && {black, red} <= g.cell.Keys
      modifies this`g, {black, red}`red
      ensures Models() && g == old(g).Paint(black, false, bb).Paint(red, true, rb)
    {
      Paint(black, false, bb);
      Paint(red, true, rb);
    }

    method SetBlackRedRotate(black: Node, red: Node, ghost bb: nat, ghost rb: nat, x: Node, d: Side)
      requires Models() && {black, red, x} <= g.cell.Keys
      requires var k := g.Paint(black, false, bb).Paint(red, true, rb); k.Shape() && k.Rotatable(x, d)
      modifies this, g.cell.Keys
      ensures Models() && g == old(g).Paint(black, false, bb).Paint(red, true, rb).Rot(x, d)
    {
      SetBlackRed(black, red, bb, rb);
      Rotate(x, d);
    }

    method PaintGenerations(parent: Node, gparent: Node, tmp: Node)
      requires Models() && {parent, gparent, tmp} <= g.cell.Keys
      modifies this`g, {parent, gparent, tmp}`red
      ensures Models() && g == Recoloured(old(g), parent, gparent, tmp)
    {
      ghost var bu, bp, bg := g.Bh(tmp) + 1, g.Bh(parent) + 1, g.Bh(gparent);
      Paint(tmp, false, bu);
      SetBlackRed(parent, gparent, bp, bg);
    }

    // A red uncle: paint both generations and go on from the grandparent
    method Recolour(ghost e: Node, parent: Node, gparent: Node, tmp: Node, ghost d: Side)
      requires Models() && DoubleRed(g, e, parent, gparent, d) && g.Kid(gparent, d.Opposite()) == tmp && g.Red(tmp)
      modifies this`g, g.cell.Keys`red
      ensures Models() && g.cell.Keys == old(g.cell.Keys) && g.Fault(gparent)
      ensures old(g.Sub(e)) <= g.Sub(gparent) && gparent in g.Sub(gparent) - old(g.Sub(e))
    {
      RecolouredFault(g, e, parent, gparent, tmp, d);
      assert Recoloured(g, parent, gparent, tmp).Sub(gparent) == g.Sub(gparent);
      PaintGenerations(parent, gparent, tmp);
    }

    method Straighten(ghost e: Node, parent: Node, ghost gparent: Node, d: Side)
      requires Models() && DoubleRed(g, e, parent, gparent, d) && g.Kid(parent, d.Opposite()) == e
      modifies this, g.cell.Keys
      ensures Models() && g.cell.Keys == old(g.cell.Keys) && g.Fault(parent)
      ensures g.Parent(parent) == e && g.Red(e) && g.Parent(e) == gparent && g.Kid(gparent, d) == e
              && g.Kid(e, d) == parent
      ensures g.Kid(gparent, d.Opposite()) == old(g.Kid(gparent, d.Opposite()))
              && g.Red(g.Kid(gparent, d.Opposite())) == old(g.Red(g.Kid(gparent, d.Opposite())))
    {
      StraightenedFault(g, e, parent, gparent, d);
      Rotate(parent, d);
    }

    method Settle(ghost e: Node, parent: Node, gparent: Node, d: Side)
      requires Models() && Outer(g, e, parent, gparent, d)
      modifies this, g.cell.Keys
      ensures Models() && g.cell.Keys == old(g.cell.Keys) && g.Fault(e) && !g.Red(g.Parent(e))
    {
      SwappedShape(g, e, parent, gparent, d);
      OuterSettled(g, e, parent, gparent, d);
      SetBlackRedRotate(parent, gparent, g.Bh(parent) + 1, Less(g.Bh(gparent)), gparent, d.Opposite());
    }

    // No red uncle: at most two rotations end the repair
    method SettleFault(elm: Node, parent: Node, gparent: Node, d: Side) returns (e: Node)
      requires Models() && DoubleRed(g, elm, parent, gparent, d) && !g.Red(g.Kid(gparent, d.Opposite()))
      modifies this, g.cell.Keys
      ensures Models() && g.cell.Keys == old(g.cell.Keys) && g.Fault(e) && !g.Red(g.Parent(e))
    {
      if parent.Kid(d.Opposite()) == elm {
        Straighten(elm, parent, gparent, d);
        e := parent;
        ghost var p1, gp1, d1 := FaultSite(g, e);
        Settle(e, elm, gparent, d);
      } else {
        e := elm;
        Settle(e, parent, gparent, d);
      }
    }

    method InsertColor(elm: Node)
      requires Models() && g.Fault(elm)
      modifies this, g.cell.Keys
      ensures Models() && g.Valid() && g.cell.Keys == old(g.cell.Keys)
    {
      var e: Node := elm;
      assert g.LinkedUp(e);
      while e.parent != null && e.parent.red
        invariant Models() && g.cell.Keys == old(g.cell.Keys)
        invariant g.Fault(e) && (g.Parent(e) == null || g.Parent(e) in g.cell)
        decreases g.Red(g.Parent(e)), g.cell.Keys - g.Sub(e)
      {
        var parent := e.parent;
        ghost var p, gp, d0 := FaultSite(g, e);
        var gparent := parent.parent;
        var d := if parent == gparent.left then Left else Right;
        var tmp := gparent.Kid(d.Opposite());
        assert g.Linked(gparent, d.Opposite());
        if tmp != null && tmp.red {
          Recolour(e, parent, gparent, tmp, d);
          e := gparent;
        } else {
          e := SettleFault(e, parent, gparent, d);
        }
        assert g.LinkedUp(e);
      }
      BlackRoot(g, e);
      Paint(root, false, g.Bh(root) + if g.Red(root) then 1 else 0);
    }

    // ---- removal ----

    method RotateRedSibling(ghost e: Node?, p: Node, w: Node, s: Side)
      requires Models() && Sibling(g, e, p, w, s) && g.cell[w].red
      modifies this, g.cell.Keys
      ensures Models() && g.cell.Keys == old(g.cell.Keys) && Deficit(g, e, p, s)
      ensures g.cell[p].red && g.Red(e) == old(g.Red(e)) && g.root != e
    {
      TwoPaints(g, w, false, g.Bh(p), p, true, g.Bh(w), p, s);
      RedSibDeficit(g, e, p, w, s);
      SetBlackRedRotate(w, p, g.Bh(p), g.Bh(w), p, s);
    }

    method PaintLifted(ghost p: Node, w: Node)
      requires Models() && {p, w} <= g.cell.Keys && p != w
      modifies this`g, w`red
      ensures Models() && g == Lifted(old(g), p, w)
    {
      ghost var red, bp := g.cell[p].red, Less(g.Bh(p));
      Paint(w, true, Less(g.Bh(w)));
      g := g.Paint(p, red, bp);
    }

    method LiftDeficit(ghost e: Node?, p: Node, w: Node, ghost s: Side) returns (ghost s': Side)
      requires Models() && BlackNephews(g, e, p, w, s)
      modifies this`g, g.cell.Keys`red
      ensures Models() && g.cell.Keys == old(g.cell.Keys) && Deficit(g, p, g.Parent(p), s')
      ensures g.Parent(p) == old(g.Parent(p)) && g.Red(p) == old(g.Red(p))
      ensures var q := g.Parent(p);
              q == null || (old(g.Sub(p)) <= g.Sub(q) && q in g.Sub(q) - old(g.Sub(p)) && q in g.cell)
    {
      ghost var h, q := Lifted(g, p, w), g.Parent(p);
      s' := LiftedDeficit(g, e, p, w, s);
      assert h.Sub(q) == g.Sub(q) && g.LinkedUp(p) && g.Ordered(p);
      if q != null {
        assert g.Ordered(q);
      }
      PaintLifted(p, w);
    }

    method TurnInner(w: Node, inner: Node, d: Side)
      requires Models() && {w, inner} <= g.cell.Keys
      requires var k := InnerPainted(g, w, inner); k.Shape() && k.Rotatable(w, d)
      modifies this, g.cell.Keys
      ensures Models() && g == InnerPainted(old(g), w, inner).Rot(w, d)
    {
      SetBlackRedRotate(inner, w, g.Bh(inner) + 1, Less(g.Bh(w)), w, d);
    }

    method RotateInner(ghost e: Node?, ghost p: Node, w: Node, inner: Node, s: Side)
      requires Models() && InnerRed(g, e, p, w, inner, s)
      modifies this, g.cell.Keys
      ensures Models() && g.cell.Keys == old(g.cell.Keys) && Deficit(g, e, p, s)
      ensures g.Kid(p, s.Opposite()) == inner && inner in g.cell && !g.cell[inner].red
      ensures g.Kid(inner, s.Opposite()) == w && g.Red(w) && g.Red(e) == old(g.Red(e)) && g.root != e
    {
      InnerRepair(g, e, p, w, inner, s);
      TurnInner(w, inner, s.Opposite());
    }

    method PaintOuter(p: Node, w: Node, outer: Node)
      requires Models() && {p, w, outer} <= g.cell.Keys
      modifies this`g, {p, w, outer}`red
      ensures Models() && g == OuterPainted(old(g), p, w, outer)
    {
      ghost var bp, bw, bo := g.Bh(p), g.Bh(w), g.Bh(outer);
      Paint(w, p.red, bp);
      Paint(p, false, bw);
      Paint(outer, false, bo + 1);
    }

    method RotateOuter(ghost e: Node?, p: Node, w: Node, outer: Node, s: Side)
      requires Models() && OuterRed(g, e, p, w, outer, s)
      modifies this, g.cell.Keys
      ensures Models() && g.cell.Keys == old(g.cell.Keys) && g.Valid()
    {
      OuterPaintedShape(g, e, p, w, outer, s);
      OuterRedSettled(g, e, p, w, outer, s);
      PaintOuter(p, w, outer);
      Rotate(p, s);
    }

    // A black sibling with a red kid: one or two rotations end the repair
    method SettleDeficit(ghost e: Node?, p: Node, sibling: Node, s: Side)
      requires Models() && Sibling(g, e, p, sibling, s) && !g.cell[sibling].red
      requires g.Red(g.Kid(sibling, Left)) || g.Red(g.Kid(sibling, Right))
      modifies this, g.cell.Keys
      ensures Models() && g.cell.Keys == old(g.cell.Keys) && g.Valid()
    {
      var tmp := sibling;
      assert g.Linked(tmp, Left) && g.Linked(tmp, Right);
      var outer := tmp.Kid(s.Opposite());
      if outer == null || !outer.red {
        var inner := tmp.Kid(s);
        assert g.Linked(inner, Left) && g.Linked(inner, Right) && g.LinkedUp(tmp) && g.LinkedUp(p);
        RotateInner(e, p, tmp, inner, s);
        tmp := inner;
        ghost var w := SiblingSite(g, e, p, s);
      }
      RotateOuter(e, p, tmp, tmp.Kid(s.Opposite()), s);
    }

    method BlackSibling(ghost e: Node?, parent: Node, s: Side) returns (tmp: Node)
      requires Models() && Deficit(g, e, parent, s) && !g.Red(e) && e != g.root
      modifies this, g.cell.Keys
      ensures Models() && g.cell.Keys == old(g.cell.Keys)
      ensures Sibling(g, e, parent, tmp, s) && !g.cell[tmp].red
      ensures g.cell[parent].red || g.Sub(parent) == old(g.Sub(parent))
    {
      ghost var w := SiblingSite(g, e, parent, s);
      tmp := parent.Kid(s.Opposite());
      if tmp.red {
        RotateRedSibling(e, parent, tmp, s);
        w := SiblingSite(g, e, parent, s);
        tmp := parent.Kid(s.Opposite());
      }
    }

    // One turn of the loop: either the tree is repaired, or `parent` is now the short subtree
    method Mend(e: Node?, parent: Node, ghost s0: Side) returns (mended: bool, ghost s': Side)
      requires Models() && Deficit(g, e, parent, s0) && !g.Red(e) && e != g.root
      modifies this, g.cell.Keys
      ensures Models() && g.cell.Keys == old(g.cell.Keys)
      ensures mended ==> g.Valid()
      ensures !mended ==> Deficit(g, parent, g.Parent(parent), s')
      ensures !mended && !g.Red(parent) && g.Parent(parent) != null ==>
                var q := g.Parent(parent);
                q in g.cell && old(g.Sub(parent)) <= g.Sub(q) && q in g.Sub(q) - old(g.Sub(parent))
    {
      ghost var w := SiblingSite(g, e, parent, s0);
      var s := if parent.left == e then Left else Right;
      assert s == s0;
      s' := s;
      var tmp := BlackSibling(e, parent, s);
      assert g.Linked(tmp, Left) && g.Linked(tmp, Right);
      if (tmp.left == null || !tmp.left.red) && (tmp.right == null || !tmp.right.red) {
        s' := LiftDeficit(e, parent, tmp, s);
        mended := false;
      } else {
        SettleDeficit(e, parent, tmp, s);
        mended := true;
      }
    }

    method RemoveColor(par: Node?, elm: Node?, ghost side: Side)
      requires Models() && Deficit(g, elm, par, side)
      modifies this, g.cell.Keys
      ensures Models() && g.cell.Keys == old(g.cell.Keys) && g.Valid()
    {
      var e, parent := elm, par;
      ghost var s0 := side;
      DeficitElm(g, e, parent, s0);
      while (e == null || !e.red) && e != root
        invariant Models() && g.cell.Keys == old(g.cell.Keys)
        invariant Deficit(g, e, parent, s0) && (e == null || e in g.cell)
        decreases if g.Red(e) then 0 else 1, if parent == null then 0 else 1, g.cell.Keys - g.Sub(parent)
      {
        var mended;
        mended, s0 := Mend(e, parent, s0);
        // the source paints the root black once more, which it is
        if mended {
          return;
        }
        e := parent;
        parent := e.parent;
      }
      if e != null {
        Blacken(e, parent, s0);
      }
    }

    // The short subtree has a red node on top, or is the whole tree
    method Blacken(e: Node, ghost parent: Node?, ghost side: Side)
      requires Models() && Deficit(g, e, parent, side) && e in g.cell && (e.red || e == root)
      modifies this`g, e`red
      ensures Models() && g.cell.Keys == old(g.cell.Keys) && g.Valid()
    {
      BlackEnd(g, e, parent, side);
      Paint(e, false, g.Bh(e) + if g.Red(e) then 1 else 0);
    }

    // `elm` has at most one kid, which takes its place
    method Unlink(elm: Node, child: Node?)
      requires Models() && OneKid(g, elm, child)
      modifies this, g.cell.Keys
      ensures Models() && g == Bypass(old(g), elm, child)
    {
      ghost var h := Bypass(g, elm, child);
      assert g.LinkedUp(elm) && g.Linked(elm, Left) && g.Linked(elm, Right);
      var parent := elm.parent;
      if child != null {
        assert g.LinkedUp(child);
        child.parent := parent;
      }
      if parent != null {
        assert g.Ordered(elm) && g.Ordered(parent);
        if parent.left == elm {
          parent.left := child;
        } else {
          parent.right := child;
        }
      } else {
        root := child;
      }
      forall n | n in h.cell
        ensures n.left == h.cell[n].left && n.right == h.cell[n].right
        ensures n.parent == h.cell[n].parent && n.red == h.cell[n].red
      {
        BypassCell(g, elm, child, n);
      }
      g := h;
    }

    method FindSuccessor(lost: Node) returns (elm: Node)
      requires Models() && g.Shape() && lost in g.cell && lost.left != null && lost.right != null
      ensures Successor(g, lost, elm)
    {
      assert g.Linked(lost, Right) && g.Linked(lost, Left) && g.Ordered(lost);
      elm := lost.right;
      assert g.Ordered(elm);
      while elm.left != null
        invariant elm in g.cell && elm in g.Sub(lost.right)
        invariant forall m :: m in g.Sub(lost.right) && m !in g.Sub(elm) ==> elm.key < m.key
        invariant elm == lost.right ==> g.Parent(elm) == lost
        invariant elm != lost.right ==> g.Parent(elm) != null && g.Parent(elm) in g.cell && g.Parent(elm) != lost
        invariant elm != lost.right ==> g.Kid(g.Parent(elm), Left) == elm
        decreases g.Sub(elm)
      {
        assert g.Ordered(elm) && g.Linked(elm, Left) && g.Ordered(elm.left);
        Nested(g, lost.right, elm);
        elm := elm.left;
      }
      assert g.Ordered(elm);
    }

    // `elm` takes over the fields of `lost` and the pointers to it
    method TakeFields(lost: Node, elm: Node)
      requires lost.left != null && lost.left != lost.right && lost !in {lost.parent, lost.left, lost.right}
      requires elm !in {lost, lost.parent, lost.left, lost.right}
              && (lost.parent == null || lost.parent !in {lost.left, lost.right})
      modifies this`root, elm`left, elm`right, elm`parent, elm`red, Some(lost.parent)`left, Some(lost.parent)`right
      modifies lost.left`parent, Some(lost.right)`parent
      ensures elm.left == old(lost.left) && elm.right == old(lost.right) && elm.parent == old(lost.parent)
              && elm.red == old(lost.red)
      ensures lost.left.parent == elm && (lost.right != null ==> lost.right.parent == elm)
      ensures var p := old(lost.parent);
              if p == null then root == elm
              else root == old(root) &&
                   if old(p.left) == lost then p.left == elm && p.right == old(p.right)
                   else p.left == old(p.left) && p.right == elm
    {
      elm.left, elm.right, elm.parent, elm.red := lost.left, lost.right, lost.parent, lost.red;
      if lost.parent != null {
        if lost.parent.left == lost {
          lost.parent.left := elm;
        } else {
          lost.parent.right := elm;
        }
      } else {
        root := elm;
      }
      lost.left.parent := elm;
      if lost.right != null {
        lost.right.parent := elm;
      }
    }

    method HandOver(lost: Node, elm: Node, ghost h: Graph)
      requires Models() && lost in g.cell && lost.left != null && lost.left != lost.right
      requires lost !in {lost.parent, lost.left, lost.right} && elm !in {lost, lost.parent, lost.left, lost.right}
      requires lost.parent == null || lost.parent !in {lost.left, lost.right}
      requires Some(lost.parent) + Some(lost.left) + Some(lost.right) <= g.cell.Keys
      requires h.root == (if lost.parent == null then elm else root)
      requires forall n :: n in h.cell ==> Handed(g, lost, elm, n, h.cell[n])
      modifies this, g.cell.Keys, elm
      ensures Models() && g == h
    {
      TakeFields(lost, elm);
      forall n | n in h.cell
        ensures n.left == h.cell[n].left && n.right == h.cell[n].right
        ensures n.parent == h.cell[n].parent && n.red == h.cell[n].red
      {
        assert Handed(g, lost, elm, n, h.cell[n]);
      }
      g := h;
    }

    method Replace(lost: Node, elm: Node)
      requires Models() && g.Shape() && lost in g.cell && elm !in g.cell && g.Kid(lost, Left) != null
      modifies this, g.cell.Keys, elm
      ensures Models() && g == TakePlace(old(g), lost, elm)
    {
      ghost var h := TakePlace(g, lost, elm);
      assert g.LinkedUp(lost) && g.Linked(lost, Left) && g.Linked(lost, Right) && g.Ordered(lost)
          && g.Ordered(lost.left);
      if lost.right != null {
        assert g.Ordered(lost.right);
      }
      if lost.parent != null {
        assert g.Ordered(lost.parent) && g.Linked(lost.parent, Left) && g.Linked(lost.parent, Right);
      }
      forall n | n in h.cell
        ensures Handed(g, lost, elm, n, h.cell[n])
      {
        TakePlaceCell(g, lost, elm, n);
      }
      HandOver(lost, elm, h);
    }

    ghost predicate Valid()
      reads this, g.cell.Keys
    {
      Models() && g.Valid()
    }

    // The nodes in order
    ghost function Listing(): seq<Node>
      requires Valid()
      reads this, g.cell.Keys
    {
      InOrder(g, g.root)
    }

    method RemoveLeaf(elm: Node, child: Node?)
      requires Valid() && OneKid(g, elm, child)
      modifies this, g.cell.Keys
      ensures Valid() && g.cell.Keys == old(g.cell.Keys) - {elm}
    {
      var parent, red := elm.parent, elm.red;
      ghost var s := Left;
      BypassShape(g, elm, child);
      if red {
        BypassRed(g, elm, child);
      } else {
        s := BypassBlack(g, elm, child);
      }
      Unlink(elm, child);
      if !red {
        RemoveColor(parent, child, s);
      }
    }

    method RemoveInner(lost: Node)
      requires Valid() && lost in g.cell && lost.left != null && lost.right != null
      modifies this, g.cell.Keys
      ensures Valid() && g.cell.Keys == old(g.cell.Keys) - {lost}
    {
      var elm := FindSuccessor(lost);
      var child, parent, red := elm.right, elm.parent, elm.red;
      PlacesOf(g, lost, elm);
      SucceedInTwoSteps(g, lost, elm);
      SucceedShape(g, lost, elm);
      BypassShape(g, elm, child);
      if red {
        SucceedRed(g, lost, elm);
      } else {
        SucceedBlack(g, lost, elm);
      }
      ghost var s := if parent == lost then Right else Left;
      Unlink(elm, child);
      if parent == lost {
        parent := elm;
      }
      Replace(lost, elm);
      if !red {
        RemoveColor(parent, child, s);
      }
    }

    method Remove(elm: Node) returns (lost: Node)
      requires Valid() && elm in g.cell
      modifies this, g.cell.Keys
      ensures lost == elm && Valid() && g.cell.Keys == old(g.cell.Keys) - {elm}
      ensures PutIn(Listing(), elm, old(Listing()))
    {
      lost := elm;
      ghost var g0 := g;
      if elm.left == null {
        RemoveLeaf(elm, elm.right);
      } else if elm.right == null {
        RemoveLeaf(elm, elm.left);
      } else {
        RemoveInner(elm);
      }
      SameButOne(g, g0, elm);
    }

    // RB_SET and the link from the parent
    method Hang(elm: Node, parent: Node?, d: Side)
      requires Models() && g.Shape() && elm !in g.cell && Slot(g, parent, d, elm.key)
      modifies this, g.cell.Keys, elm
      ensures Models() && g == Attach(old(g), parent, d, elm)
    {
      ghost var h := Attach(g, parent, d, elm);
      elm.parent, elm.left, elm.right, elm.red := parent, null, null, true;
      if parent != null {
        if d == Left {
          parent.left := elm;
        } else {
          parent.right := elm;
        }
      } else {
        root := elm;
      }
      forall n | n in h.cell
        ensures n.left == h.cell[n].left && n.right == h.cell[n].right
        ensures n.parent == h.cell[n].parent && n.red == h.cell[n].red
      {
        if n != elm {
          AttachCell(g, parent, d, elm, n);
        }
      }
      g := h;
    }

    method Insert(elm: Node) returns (r: Node?)
      requires Valid()
      modifies this, g.cell.Keys, elm
      ensures Valid()
      ensures r != null ==> r in g.cell && r.key == elm.key && g == old(g) && unchanged(elm)
      ensures r == null ==>
              (forall n :: n in old(g.cell) ==> n.key != elm.key)
              && g.cell.Keys == old(g.cell.Keys) + {elm}
      ensures r == null ==> PutIn(old(Listing()), elm, Listing())
    {
      var tmp := root;
      var parent: Node? := null;
      var comp := 0;
      if root != null {
        PassedRoot(g, elm.key);
      }
      while tmp != null
        invariant Valid() && g == old(g) && unchanged(elm)
        invariant tmp != null ==> tmp in g.cell && Passed(g, tmp, elm.key)
        invariant tmp == null ==> Slot(g, parent, if comp < 0 then Left else Right, elm.key)
        invariant forall n :: n in g.cell && n.key == elm.key ==> n in g.Sub(tmp)
        decreases g.Sub(tmp)
      {
        parent := tmp;
        comp := elm.key - parent.key;
        assert g.Ordered(parent) && g.Linked(parent, Left) && g.Linked(parent, Right);
        if comp < 0 {
          tmp := tmp.left;
          if tmp != null {
            PassedKid(g, parent, Left, elm.key);
          }
        } else if comp > 0 {
          tmp := tmp.right;
          if tmp != null {
            PassedKid(g, parent, Right, elm.key);
          }
        } else {
          return tmp;
        }
      }
      AttachFault(g, parent, if comp < 0 then Left else Right, elm);
      Hang(elm, parent, if comp < 0 then Left else Right);
      InsertColor(elm);
      SameButOne(old(g), g, elm);
      return null;
    }

    method Find(key: int) returns (r: Node?, ghost steps: nat)
      requires Valid()
      ensures r == null ==> forall n :: n in g.cell ==> n.key != key
      ensures r != null ==> r in g.cell && r.key == key
      ensures steps == PathLength(g, g.root, key)
      ensures steps <= Height(g, g.root) && Pow2(steps) <= (|g.cell| + 1) * (|g.cell| + 1)
    {
      var tmp := root;
      steps := 0;
      while tmp != null
        invariant tmp != null ==> tmp in g.cell
        invariant forall n :: n in g.cell && n.key == key ==> n in g.Sub(tmp)
        invariant steps + PathLength(g, tmp, key) == PathLength(g, g.root, key)
        decreases g.Sub(tmp)
      {
        assert g.Ordered(tmp) && g.Linked(tmp, Left) && g.Linked(tmp, Right);
        steps := steps + 1;
        if key < tmp.key {
          tmp := tmp.left;
        } else if key > tmp.key {
          tmp := tmp.right;
        } else {
          FewSteps(g, key);
          return tmp, steps;
        }
      }
      FewSteps(g, key);
      return null, steps;
    }

    method NFind(key: int) returns (res: Node?, ghost steps: nat)
      requires Valid()
      ensures res == null ==> forall n :: n in g.cell ==> n.key < key
      ensures res != null ==>
              res in g.cell && key <= res.key &&
              forall n :: n in g.cell && key <= n.key ==> res.key <= n.key
      ensures steps == PathLength(g, g.root, key)
      ensures steps <= Height(g, g.root) && Pow2(steps) <= (|g.cell| + 1) * (|g.cell| + 1)
    {
      var tmp := root;
      res := null;
      steps := 0;
      while tmp != null
        invariant Narrowed(g, key, tmp, res) && steps + PathLength(g, tmp, key) == PathLength(g, g.root, key)
        decreases g.Sub(tmp)
      {
        NarrowedOn(g, key, tmp, res);
        assert g.Ordered(tmp);
        steps := steps + 1;
        if key < tmp.key {
          res := tmp;
          tmp := tmp.left;
        } else if key > tmp.key {
          tmp := tmp.right;
        } else {
          FewSteps(g, key);
          return tmp, steps;
        }
      }
      FewSteps(g, key);
    }

    method MinMax(val: int) returns (parent: Node?)
      requires Valid()
      ensures parent == null <==> g.cell == map[]
      ensures parent != null ==>
              parent in g.cell &&
              forall n :: n in g.cell ==> if val < 0 then parent.key <= n.key else n.key <= parent.key
    {
      var tmp := root;
      parent := null;
      while tmp != null
        invariant tmp != null ==> tmp in g.cell
        invariant parent == null ==> tmp == root
        invariant parent != null ==>
            parent in g.cell &&
            forall n :: n in g.Sub(tmp) ==> if val < 0 then n.key <= parent.key else parent.key <= n.key
        invariant forall n :: n in g.cell && n !in g.Sub(tmp) ==>
            parent != null && if val < 0 then parent.key <= n.key else n.key <= parent.key
        decreases g.Sub(tmp)
      {
        assert g.Ordered(tmp) && g.Linked(tmp, Left) && g.Linked(tmp, Right);
        parent := tmp;
        if val < 0 {
          tmp := tmp.left;
        } else {
          tmp := tmp.right;
        }
      }
    }

    method Next(elm: Node) returns (r: Node?)
      requires Valid() && elm in g.cell
      ensures IsNext(g, elm, r)
    {
      assert g.Ordered(elm) && g.Linked(elm, Right) && g.LinkedUp(elm);
      var e: Node := elm;
      if e.right != null {
        e := e.right;
        assert g.Ordered(e);
        while e.left != null
          invariant e in g.cell && e in g.Sub(elm.right)
          invariant forall n :: n in g.Sub(elm.right) && n !in g.Sub(e) ==> e.key < n.key
          decreases g.Sub(e)
        {
          assert g.Ordered(e) && g.Linked(e, Left) && g.Ordered(e.left);
          Nested(g, elm.right, e);
          e := e.left;
        }
        assert g.Ordered(e);
        forall n | n in g.cell && elm.key < n.key < e.key
          ensures false
        {
          Between(g, elm, elm, e, n);
        }
        return e;
      }
      if e.parent != null && e == e.parent.left {
        Upwards(g, elm, elm);
        return e.parent;
      }
      while e.parent != null && e == e.parent.right
        invariant e in g.cell && elm in g.Sub(e) && g.LinkedUp(e)
        invariant forall n :: n in g.Sub(e) ==> n.key <= elm.key
        decreases g.cell.Keys - g.Sub(e)
      {
        var p := e.parent;
        assert g.Ordered(p) && g.Ordered(e) && g.LinkedUp(p);
        e := p;
      }
      Upwards(g, elm, e);
      return e.parent;
    }

    method Prev(elm: Node) returns (r: Node?)
      requires Valid() && elm in g.cell
      ensures IsPrev(g, elm, r)
    {
      assert g.Ordered(elm) && g.Linked(elm, Left) && g.LinkedUp(elm);
      var e: Node := elm;
      if e.left != null {
        e := e.left;
        assert g.Ordered(e);
        while e.right != null
          invariant e in g.cell && e in g.Sub(elm.left)
          invariant forall n :: n in g.Sub(elm.left) && n !in g.Sub(e) ==> n.key < e.key
          decreases g.Sub(e)
        {
          assert g.Ordered(e) && g.Linked(e, Right) && g.Ordered(e.right);
          Nested(g, elm.left, e);
          e := e.right;
        }
        assert g.Ordered(e);
        forall n | n in g.cell && e.key < n.key < elm.key
          ensures false
        {
          Between(g, elm, e, elm, n);
        }
        return e;
      }
      if e.parent != null && e == e.parent.right {
        Downwards(g, elm, elm);
        return e.parent;
      }
      while e.parent != null && e == e.parent.left
        invariant e in g.cell && elm in g.Sub(e) && g.LinkedUp(e)
        invariant forall n :: n in g.Sub(e) ==> elm.key <= n.key
        decreases g.cell.Keys - g.Sub(e)
      {
        var p := e.parent;
        assert g.Ordered(p) && g.Ordered(e) && g.LinkedUp(p);
        e := p;
      }
      Downwards(g, elm, e);
      return e.parent;
    }

    // RB_FOREACH: every node once, in order
    method Foreach() returns (visited: seq<Node>)
      requires Valid()
      ensures visited == Listing()
    {
      ghost var s := Listing();
      InOrderSorted(g, g.root);
      var x := MinMax(-1);
      visited := [];
      FirstInOrder(g, x);
      while x != null
        invariant Walked(s, visited, x)
        decreases |s| - |visited|
      {
        var e: Node := x;
        assert e in Elements(s);
        x := Next(e);
        WalkedOn(g, visited, e, x);
        visited := visited + [e];
      }
    }
  }
}
