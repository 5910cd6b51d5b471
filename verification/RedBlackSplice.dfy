// Taking a node out of a red-black tree, before any repair: a node with at most one kid is bypassed,
// any other node hands its place to its successor.
module RedBlackSplice {
  import opened Listings
  import opened RedBlackGraph
  import opened RedBlackRemoval

  // ---- at most one kid ----

  ghost predicate OneKid(g: Graph, z: Node, c: Node?) {
    && g.Shape() && z in g.cell
    && ((g.Kid(z, Left) == c && g.Kid(z, Right) == null) || (g.Kid(z, Left) == null && g.Kid(z, Right) == c))
  }

  ghost function Bypass(g: Graph, z: Node, c: Node?): Graph
    requires z in g.cell
  {
    Graph(if g.root == z then c else g.root,
          map n | n in g.cell && n != z ::
            var k := g.cell[n];
            Cell(if k.left == z then c else k.left, if k.right == z then c else k.right,
                 if n == c then g.Parent(z) else k.parent, k.red, k.sub - {z}, k.bh))
  }

  // Only the parent and the kid of `z` notice
  lemma BypassCell(g: Graph, z: Node, c: Node?, n: Node)
    requires OneKid(g, z, c) && n in g.cell && n != z
    ensures n in Bypass(g, z, c).cell
    ensures var k, h, p := g.cell[n], Bypass(g, z, c).cell[n], g.Parent(z);
            && h.red == k.red && h.parent == (if n == c then p else k.parent)
            && h.left == (if n == p && k.left == z then c else k.left)
            && h.right == (if n == p && k.left != z then c else k.right)
  {
    assert g.Linked(n, Left) && g.Linked(n, Right) && g.LinkedUp(z);
  }

  lemma BypassLinked(g: Graph, z: Node, c: Node?, n: Node, s: Side)
    requires OneKid(g, z, c) && n in g.cell && n != z
    ensures Bypass(g, z, c).Linked(n, s)
  {
    assert g.Linked(n, s) && g.Linked(z, Left) && g.Linked(z, Right) && g.Ordered(z);
    if c != null {
      assert g.Ordered(c);
    }
  }

  lemma BypassLinkedUp(g: Graph, z: Node, c: Node?, n: Node)
    requires OneKid(g, z, c) && n in g.cell && n != z
    ensures Bypass(g, z, c).LinkedUp(n)
  {
    assert g.LinkedUp(n) && g.LinkedUp(z) && g.Linked(z, Left) && g.Linked(z, Right);
    var p := g.Parent(z);
    if p != null {
      assert g.Linked(p, Left) && g.Linked(p, Right) && g.Ordered(p) && g.Ordered(z);
    }
  }

  lemma BypassOrdered(g: Graph, z: Node, c: Node?, n: Node)
    requires OneKid(g, z, c) && n in g.cell && n != z
    ensures Bypass(g, z, c).Ordered(n)
  {
    var h := Bypass(g, z, c);
    assert g.Ordered(n) && g.Ordered(z) && g.Linked(z, Left) && g.Linked(z, Right) && g.Linked(n, Left)
        && g.Linked(n, Right);
    assert h.Sub(h.cell[n].left) == g.Sub(g.cell[n].left) - {z};
    assert h.Sub(h.cell[n].right) == g.Sub(g.cell[n].right) - {z};
  }

  lemma BypassShape(g: Graph, z: Node, c: Node?)
    requires OneKid(g, z, c)
    ensures Bypass(g, z, c).Shape() && Bypass(g, z, c).cell.Keys == g.cell.Keys - {z}
  {
    var h := Bypass(g, z, c);
    assert h.AllLinked() by {
      forall n, s | n in h.cell
        ensures h.Linked(n, s)
      {
        BypassLinked(g, z, c, n, s);
      }
    }
    assert h.AllLinkedUp() by {
      forall n | n in h.cell
        ensures h.LinkedUp(n)
      {
        BypassLinkedUp(g, z, c, n);
      }
    }
    assert h.AllOrdered() by {
      forall n | n in h.cell
        ensures h.Ordered(n)
      {
        BypassOrdered(g, z, c, n);
      }
    }
    assert g.LinkedUp(z) && g.Ordered(z) && g.Linked(z, Left) && g.Linked(z, Right);
    if c != null {
      assert g.LinkedUp(c);
    }
  }

  lemma BypassColours(g: Graph, z: Node, c: Node?, n: Node)
    requires OneKid(g, z, c) && g.Valid() && n in g.cell && n != z
    ensures n != g.Parent(z) || g.cell[z].red ==> Bypass(g, z, c).Balanced(n)
    ensures n != g.Parent(z) || g.cell[z].red ==> Bypass(g, z, c).RedSpaced(n)
  {
    assert g.Balanced(n) && g.RedSpaced(n) && g.Balanced(z) && g.RedSpaced(z) && g.Linked(n, Left)
        && g.Linked(n, Right);
    if c != null {
      assert g.Linked(z, Left) && g.Linked(z, Right);
      assert g.Balanced(c);
    }
  }

  lemma BypassRed(g: Graph, z: Node, c: Node?)
    requires OneKid(g, z, c) && g.Valid() && g.cell[z].red
    ensures Bypass(g, z, c).Valid()
  {
    var h := Bypass(g, z, c);
    BypassShape(g, z, c);
    assert h.AllBalanced(null) by {
      forall n | n in h.cell
        ensures h.Balanced(n)
      {
        BypassColours(g, z, c, n);
      }
    }
    assert h.AllRedSpaced(null) by {
      forall n | n in h.cell
        ensures h.RedSpaced(n)
      {
        BypassColours(g, z, c, n);
      }
    }
  }

  lemma BypassBlack(g: Graph, z: Node, c: Node?) returns (s: Side)
    requires OneKid(g, z, c) && g.Valid() && !g.cell[z].red
    ensures Deficit(Bypass(g, z, c), c, g.Parent(z), s)
  {
    var h, p := Bypass(g, z, c), g.Parent(z);
    BypassShape(g, z, c);
    assert h.AllBalanced(p) by {
      forall n | n in h.cell && n != p
        ensures h.Balanced(n)
      {
        BypassColours(g, z, c, n);
      }
    }
    forall n | n in h.cell && n != p && n != c
      ensures h.RedSpaced(n)
    {
      BypassColours(g, z, c, n);
    }
    s := if p != null && g.Kid(p, Left) == z then Left else Right;
    assert g.LinkedUp(z) && g.Balanced(z) && g.Linked(z, Left) && g.Linked(z, Right);
    if p != null {
      assert g.Balanced(p) && g.RedSpaced(p) && g.Linked(p, Left) && g.Linked(p, Right) && g.Ordered(p);
    }
  }

  // ---- two kids: the successor `y` takes the place of `z`, its own right kid takes that of `y` ----

  ghost predicate Successor(g: Graph, z: Node, y: Node) {
    && g.Shape() && z in g.cell && y in g.cell && g.Kid(z, Left) != null && g.Kid(z, Right) != null
    && y in g.Sub(g.Kid(z, Right)) && g.Kid(y, Left) == null
    && (forall m :: m in g.Sub(g.Kid(z, Right)) && m != y ==> y.key < m.key)
    && g.Parent(y) != null && g.Parent(y) in g.cell
    && (if g.Parent(y) == z then g.Kid(z, Right) == y else g.Kid(g.Parent(y), Left) == y)
  }

  ghost function Heir(k: Node?, z: Node, y: Node, c: Node?): Node? {
    if k == z then y else if k == y then c else k
  }

  ghost function Succeed(g: Graph, z: Node, y: Node): Graph
    requires z in g.cell && y in g.cell
  {
    var c := g.Kid(y, Right);
    Graph(if g.root == z then y else g.root,
          map n | n in g.cell && n != z ::
            var k := if n == y then g.cell[z] else g.cell[n];
            var q := if n == c then g.Parent(y) else k.parent;
            Cell(Heir(k.left, z, y, c), Heir(k.right, z, y, c), if q == z then y else q, k.red,
                 if n == y || z in k.sub then k.sub - {z} else k.sub - {y}, k.bh))
  }

  // The neighbourhood of both places
  ghost predicate Places(g: Graph, z: Node, y: Node) {
    && Successor(g, z, y) && y != z && g.Parent(y) != y && g.Parent(z) != y && g.Parent(z) != z
    && g.LinkedUp(z) && g.LinkedUp(y) && g.Linked(z, Left) && g.Linked(z, Right) && g.Linked(y, Right)
    && g.Kid(z, Left) != y && g.Kid(y, Right) !in {z, y} && y in g.Sub(y) && y in g.Sub(z)
    && g.Kid(z, Left) != z && g.Kid(z, Right) != z && g.Kid(z, Left) != g.Kid(z, Right)
    && (g.Kid(y, Right) == null ||
        (g.Kid(y, Right) !in {g.Parent(y), g.Kid(z, Left), g.Kid(z, Right)} && g.LinkedUp(g.Kid(y, Right))))
    && y !in g.Sub(g.Kid(z, Left)) && z !in g.Sub(y)
  }

  lemma PlacesOf(g: Graph, z: Node, y: Node)
    requires Successor(g, z, y)
    ensures Places(g, z, y)
  {
    assert g.Ordered(z) && g.Ordered(y) && g.LinkedUp(z) && g.LinkedUp(y) && g.Linked(z, Left) && g.Linked(z, Right)
        && g.Linked(y, Right);
    var c := g.Kid(y, Right);
    if c != null {
      assert g.Ordered(c) && g.LinkedUp(c);
    }
    if g.Parent(z) != null {
      assert g.Ordered(g.Parent(z)) && g.Linked(g.Parent(z), Left) && g.Linked(g.Parent(z), Right);
    }
    assert g.Ordered(g.Parent(y)) && g.Ordered(g.Kid(z, Left)) && g.Ordered(g.Kid(z, Right));
  }

  lemma SucceedLinked(g: Graph, z: Node, y: Node, n: Node, s: Side)
    requires Places(g, z, y) && n in g.cell && n != z
    ensures Succeed(g, z, y).Linked(n, s)
  {
    assert g.Linked(n, s) && g.Linked(z, s);
    if n == y {} else if n == g.Parent(y) {} else {}
  }

  lemma SucceedLinkedUp(g: Graph, z: Node, y: Node, n: Node)
    requires Places(g, z, y) && n in g.cell && n != z
    ensures Succeed(g, z, y).LinkedUp(n)
  {
    assert g.LinkedUp(n);
    var c := g.Kid(y, Right);
    if n == y {
      if g.Parent(z) != null {
        assert g.Linked(g.Parent(z), Left) && g.Linked(g.Parent(z), Right);
      }
    } else if n == c {
      assert g.Linked(g.Parent(y), Left) && g.Linked(g.Parent(y), Right);
    } else if g.Parent(n) == z {
    } else {
    }
  }

  // `y`, which is in no tree, takes the place of `z`
  ghost function TakePlace(g: Graph, z: Node, y: Node): Graph
    requires z in g.cell
  {
    Graph(if g.root == z then y else g.root,
          map n | n in g.cell.Keys - {z} + {y} ::
            var k := if n == y || n !in g.cell then g.cell[z] else g.cell[n];
            Cell(if k.left == z then y else k.left, if k.right == z then y else k.right,
                 if k.parent == z then y else k.parent,
                 k.red, if n == y || z in k.sub then k.sub - {z} + {y} else k.sub, k.bh))
  }

  // Only the neighbours of `z` notice
  ghost predicate Handed(g: Graph, z: Node, y: Node, n: Node, c: Cell)
    requires z in g.cell
  {
    var k := g.cell[z];
    if n == y then c.left == k.left && c.right == k.right && c.parent == k.parent && c.red == k.red
    else if n !in g.cell then false
    else
      && c.red == g.cell[n].red
      && c.parent == (if n == k.left || n == k.right then y else g.cell[n].parent)
      && c.left == (if n == k.parent && g.cell[n].left == z then y else g.cell[n].left)
      && c.right == (if n == k.parent && g.cell[n].left != z then y else g.cell[n].right)
  }

  lemma TakePlaceCell(g: Graph, z: Node, y: Node, n: Node)
    requires g.Shape() && z in g.cell && y !in g.cell && n in TakePlace(g, z, y).cell
    ensures Handed(g, z, y, n, TakePlace(g, z, y).cell[n])
  {
    assert g.LinkedUp(z) && g.Linked(z, Left) && g.Linked(z, Right) && g.Ordered(z);
    if n != y {
      assert g.Linked(n, Left) && g.Linked(n, Right) && g.LinkedUp(n);
    } else {
      assert g.cell[z].left != null ==> g.Ordered(g.cell[z].left);
      assert g.cell[z].right != null ==> g.Ordered(g.cell[z].right);
    }
  }

  lemma TwoStepsSub(g: Graph, z: Node, y: Node, n: Node)
    requires Places(g, z, y) && n in g.cell && n != z && n != y
    ensures (if z in g.Sub(n) then g.Sub(n) - {y} - {z} + {y} else g.Sub(n) - {y}) == Succeed(g, z, y).Sub(n)
  {
    if z in g.Sub(n) {
      Nested(g, n, z);
    }
  }

  lemma TwoStepsLinks(g: Graph, z: Node, y: Node, n: Node)
    requires Places(g, z, y) && n in g.cell && n != z
    ensures var k := Bypass(g, y, g.Kid(y, Right));
            z in k.cell && n in TakePlace(k, z, y).cell && n in Succeed(g, z, y).cell
    ensures var a, b := TakePlace(Bypass(g, y, g.Kid(y, Right)), z, y).cell[n], Succeed(g, z, y).cell[n];
            a.left == b.left && a.right == b.right && a.parent == b.parent && a.red == b.red && a.bh == b.bh
  {
    assert g.Linked(n, Left) && g.Linked(n, Right) && g.LinkedUp(n);
  }

  lemma TwoStepsCell(g: Graph, z: Node, y: Node, n: Node)
    requires Places(g, z, y) && n in g.cell && n != z
    ensures var k := Bypass(g, y, g.Kid(y, Right));
            z in k.cell && TakePlace(k, z, y).cell[n] == Succeed(g, z, y).cell[n]
  {
    TwoStepsLinks(g, z, y, n);
    if n != y {
      TwoStepsSub(g, z, y, n);
    }
  }

  lemma SucceedInTwoSteps(g: Graph, z: Node, y: Node)
    requires Places(g, z, y)
    ensures OneKid(g, y, g.Kid(y, Right))
    ensures var k := Bypass(g, y, g.Kid(y, Right)); z in k.cell && TakePlace(k, z, y) == Succeed(g, z, y)
  {
    var k := Bypass(g, y, g.Kid(y, Right));
    var h, t := Succeed(g, z, y), TakePlace(k, z, y);
    forall n | n in h.cell
      ensures t.cell[n] == h.cell[n]
    {
      TwoStepsCell(g, z, y, n);
    }
    assert t.cell.Keys == h.cell.Keys;
    assert t.cell == h.cell;
    if g.Kid(y, Right) != null {
      assert g.LinkedUp(g.Kid(y, Right));
    }
  }

  lemma HeirSub(g: Graph, z: Node, y: Node, k: Node)
    requires Places(g, z, y) && k in g.cell
    ensures var c := g.Kid(y, Right);
            Succeed(g, z, y).Sub(Heir(k, z, y, c)) == if z in g.Sub(k) then g.Sub(k) - {z} else g.Sub(k) - {y}
  {
    assert g.Ordered(z) && g.Ordered(y);
    var c := g.Kid(y, Right);
    if c != null {
      assert g.Ordered(c);
    }
    if k == z {} else if k == y {} else {}
  }

  lemma SucceedOrdered(g: Graph, z: Node, y: Node, n: Node)
    requires Places(g, z, y) && n in g.cell && n != z && n != y
    ensures Succeed(g, z, y).Ordered(n)
  {
    var h, c := Succeed(g, z, y), g.Kid(y, Right);
    var l, r := g.cell[n].left, g.cell[n].right;
    assert g.Ordered(n) && g.Linked(n, Left) && g.Linked(n, Right);
    if l != null {
      HeirSub(g, z, y, l);
      if z in g.Sub(l) {
        Nested(g, l, z);
      }
    }
    if r != null {
      HeirSub(g, z, y, r);
      if z in g.Sub(r) {
        Nested(g, r, z);
      }
    }
    assert h.cell[n].left == Heir(l, z, y, c) && h.cell[n].right == Heir(r, z, y, c);
    assert h.Sub(h.cell[n].left) <= g.Sub(l) && h.Sub(h.cell[n].right) <= g.Sub(r);
  }

  lemma SucceedOrderedHeir(g: Graph, z: Node, y: Node)
    requires Places(g, z, y)
    ensures Succeed(g, z, y).Ordered(y)
  {
    var h, c := Succeed(g, z, y), g.Kid(y, Right);
    var l, r := g.cell[z].left, g.cell[z].right;
    assert g.Ordered(z);
    HeirSub(g, z, y, l);
    HeirSub(g, z, y, r);
    assert h.cell[y].left == Heir(l, z, y, c) && h.cell[y].right == Heir(r, z, y, c);
    assert h.Sub(h.cell[y].left) == g.Sub(l) && h.Sub(h.cell[y].right) == g.Sub(r) - {y};
  }

  lemma SucceedShape(g: Graph, z: Node, y: Node)
    requires Places(g, z, y)
    ensures Succeed(g, z, y).Shape() && Succeed(g, z, y).cell.Keys == g.cell.Keys - {z}
  {
    var h := Succeed(g, z, y);
    assert h.AllLinked() by {
      forall n, s | n in h.cell
        ensures h.Linked(n, s)
      {
        SucceedLinked(g, z, y, n, s);
      }
    }
    assert h.AllLinkedUp() by {
      forall n | n in h.cell
        ensures h.LinkedUp(n)
      {
        SucceedLinkedUp(g, z, y, n);
      }
    }
    assert h.AllOrdered() by {
      forall n | n in h.cell
        ensures h.Ordered(n)
      {
        if n == y {
          SucceedOrderedHeir(g, z, y);
        } else {
          SucceedOrdered(g, z, y, n);
        }
      }
    }
  }

  // `y` takes over colour and black height of `z`, so only the old place of `y` can be short of a black node
  lemma SucceedColours(g: Graph, z: Node, y: Node, n: Node)
    requires Places(g, z, y) && g.Valid() && n in g.cell && n != z
    requires g.cell[y].red || n != (if g.Parent(y) == z then y else g.Parent(y))
    ensures Succeed(g, z, y).Balanced(n)
    ensures Succeed(g, z, y).RedSpaced(n)
  {
    assert g.Balanced(n) && g.RedSpaced(n) && g.Balanced(z) && g.RedSpaced(z) && g.Balanced(y) && g.RedSpaced(y);
    assert g.Linked(n, Left) && g.Linked(n, Right);
    if n == y {} else {}
  }

  lemma SucceedRed(g: Graph, z: Node, y: Node)
    requires Places(g, z, y) && g.Valid() && g.cell[y].red
    ensures Succeed(g, z, y).Valid()
  {
    var h := Succeed(g, z, y);
    SucceedShape(g, z, y);
    assert h.AllBalanced(null) by {
      forall n | n in h.cell
        ensures h.Balanced(n)
      {
        SucceedColours(g, z, y, n);
      }
    }
    assert h.AllRedSpaced(null) by {
      forall n | n in h.cell
        ensures h.RedSpaced(n)
      {
        SucceedColours(g, z, y, n);
      }
    }
  }

  lemma SucceedShort(g: Graph, z: Node, y: Node)
    requires Places(g, z, y) && g.Valid() && !g.cell[y].red
    ensures var p := if g.Parent(y) == z then y else g.Parent(y);
            ShortSide(Succeed(g, z, y), g.Kid(y, Right), p, if g.Parent(y) == z then Right else Left)
  {
    var q := g.Parent(y);
    assert g.Balanced(y) && g.Balanced(q) && g.RedSpaced(q) && g.Linked(q, Left) && g.Linked(q, Right) && g.Ordered(q)
        && g.LinkedUp(y);
  }

  lemma SucceedBlack(g: Graph, z: Node, y: Node)
    requires Places(g, z, y) && g.Valid() && !g.cell[y].red
    ensures var p := if g.Parent(y) == z then y else g.Parent(y);
            Deficit(Succeed(g, z, y), g.Kid(y, Right), p, if g.Parent(y) == z then Right else Left)
  {
    var h, c, p := Succeed(g, z, y), g.Kid(y, Right), if g.Parent(y) == z then y else g.Parent(y);
    SucceedShape(g, z, y);
    SucceedShort(g, z, y);
    assert h.AllBalanced(p) by {
      forall n | n in h.cell && n != p
        ensures h.Balanced(n)
      {
        SucceedColours(g, z, y, n);
      }
    }
    forall n | n in h.cell && n != p && n != c
      ensures h.RedSpaced(n)
    {
      SucceedColours(g, z, y, n);
    }
  }
}
