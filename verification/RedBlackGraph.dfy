// The linked nodes of a red-black tree as one value, its invariants, and what a rotation does to it.
module RedBlackGraph {

  import opened Listings

  class Node {
    const key: int
    var left: Node?
    var right: Node?
    var parent: Node?
    var red: bool

    constructor (key: int)
      ensures this.key == key
    {
      this.key := key;
      left, right, parent, red := null, null, null, false;
    }

    function Kid(d: Side): Node?
      reads this
    {
      if d == Left then left else right
    }
  }

  ghost function Some(n: Node?): set<Node> { if n == null then {} else {n} }

  ghost function Less(n: nat): nat { if n == 0 then 0 else n - 1 }

  datatype Cell = Cell(left: Node?, right: Node?, parent: Node?, red: bool, sub: set<Node>, bh: nat) {
    ghost function Kid(d: Side): Node? { if d == Left then left else right }
    ghost function SetKid(d: Side, n: Node?): Cell { if d == Left then this.(left := n) else this.(right := n) }
  }

  datatype Graph = Graph(root: Node?, cell: map<Node, Cell>) {
    ghost function Sub(n: Node?): set<Node> { if n != null && n in cell then cell[n].sub else {} }
    ghost function Bh(n: Node?): nat { if n != null && n in cell then cell[n].bh else 0 }
    ghost predicate Red(n: Node?) { n != null && n in cell && cell[n].red }
    ghost function Parent(n: Node): Node? requires n in cell { cell[n].parent }
    ghost function Kid(n: Node, d: Side): Node? requires n in cell { cell[n].Kid(d) }

    ghost predicate Linked(n: Node, d: Side)
      requires n in cell
    {
      var k := cell[n].Kid(d);
      k != null ==> k in cell && cell[k].parent == n
    }

    ghost predicate LinkedUp(n: Node)
      requires n in cell
    {
      var p := cell[n].parent;
      if p == null then root == n
      else p in cell && (cell[p].left == n) != (cell[p].right == n)
    }

    ghost predicate Ordered(n: Node)
      requires n in cell
    {
      && cell[n].sub == {n} + Sub(cell[n].left) + Sub(cell[n].right)
      && (forall m :: m in Sub(cell[n].left) ==> m.key < n.key)
      && (forall m :: m in Sub(cell[n].right) ==> n.key < m.key)
    }

    ghost predicate Shape() {
      && (root == null ==> cell == map[])
      && (root != null ==> root in cell && cell[root].parent == null && cell[root].sub == cell.Keys)
      && AllLinked() && AllLinkedUp() && AllOrdered()
    }

    ghost predicate AllLinked() {
      forall n, d {:trigger Linked(n, d)} :: n in cell ==> Linked(n, d)
    }

    ghost predicate AllLinkedUp() {
      forall n {:trigger LinkedUp(n)} :: n in cell ==> LinkedUp(n)
    }

    ghost predicate AllOrdered() {
      forall n {:trigger Ordered(n)} :: n in cell ==> Ordered(n)
    }

    ghost predicate Balanced(n: Node)
      requires n in cell
    {
      Bh(cell[n].left) == Bh(cell[n].right) && cell[n].bh == Bh(cell[n].left) + if cell[n].red then 0 else 1
    }

    ghost predicate RedSpaced(n: Node)
      requires n in cell
    {
      cell[n].red ==> !Red(cell[n].left) && !Red(cell[n].right)
    }

    ghost predicate AllBalanced(but: Node?) {
      forall n {:trigger Balanced(n)} :: n in cell && n != but ==> Balanced(n)
    }

    ghost predicate AllRedSpaced(but: Node?) {
      forall n {:trigger RedSpaced(n)} :: n in cell && n != but ==> RedSpaced(n)
    }

    ghost predicate Valid() {
      Shape() && AllBalanced(null) && AllRedSpaced(null) && !Red(root)
    }

    /** A red-black tree but for the red `e`, whose parent may be red as well. */
    ghost predicate Fault(e: Node) {
      && e in cell && cell[e].red
      && Shape() && AllBalanced(null) && AllRedSpaced(Parent(e))
      && (Red(root) ==> root == e)
      && (Red(Parent(e)) ==> forall d: Side {:trigger Kid(Parent(e), d)} :: Kid(Parent(e), d) != e ==>
          !Red(Kid(Parent(e), d)))
    }

    ghost function Paint(n: Node, red: bool, bh: nat): Graph
      requires n in cell
    {
      this.(cell := cell[n := cell[n].(red := red, bh := bh)])
    }

    ghost predicate Rotatable(x: Node, d: Side) {
      x in cell && Kid(x, d.Opposite()) != null && Kid(x, d.Opposite()) in cell
          && RotatableAt(x, Kid(x, d.Opposite()), d)
    }

    ghost predicate RotatableAt(x: Node, y: Node, d: Side)
      requires x in cell && y in cell
    {
      var p, a, b, e := Parent(x), Kid(x, d), Kid(y, d), Kid(y, d.Opposite());
      && x !in {y, p, a, b, e} && y !in {p, a, b, e}
      && (p != null ==> p in cell && p !in {a, b, e} && (cell[p].left == x) != (cell[p].right == x))
      && (b != null ==> b in cell && b != a && b != e)
      && (a != null ==> a in cell) && (e != null ==> e in cell)
    }

    /** The cell of `n` after a rotation at `x` towards `d`. */
    ghost function RotCell(x: Node, d: Side, n: Node): Cell
      requires Rotatable(x, d) && n in cell
    {
      var o := d.Opposite();
      var y, p := Kid(x, o), Parent(x);
      var b := Kid(y, d);
      if n == x then cell[x].SetKid(o, b).(parent := y, sub := {x} + Sub(Kid(x, d)) + Sub(b))
      else if n == y then cell[y].SetKid(d, x).(parent := p, sub := cell[x].sub)
      else if n == b then cell[n].(parent := x)
      else if n == p then (if cell[p].left == x then cell[p].(left := y) else cell[p].(right := y))
      else cell[n]
    }

    ghost function Rot(x: Node, d: Side): Graph
      requires Rotatable(x, d)
    {
      Graph(if Parent(x) == null then Kid(x, d.Opposite()) else root, map n | n in cell :: RotCell(x, d, n))
    }
  }

  lemma RotSite(g: Graph, x: Node, d: Side)
    requires g.Shape() && x in g.cell && g.Kid(x, d.Opposite()) != null
    ensures g.Rotatable(x, d)
  {
    var o := d.Opposite();
    var y := g.Kid(x, o);
    assert g.Linked(x, o) && g.Linked(x, d) && g.Ordered(x);
    assert g.Ordered(y) && g.Linked(y, d) && g.Linked(y, o) && g.LinkedUp(x) && g.LinkedUp(y);
    var b := g.Kid(y, d);
    if b != null {
      assert g.Ordered(b);
    }
    if g.Parent(x) != null {
      assert g.Ordered(g.Parent(x)) && g.Linked(g.Parent(x), Left) && g.Linked(g.Parent(x), Right);
    }
  }

  lemma RotLinked(g: Graph, x: Node, d: Side, n: Node, s: Side)
    requires g.Shape() && g.Rotatable(x, d) && n in g.cell
    ensures g.Rot(x, d).Linked(n, s)
  {
    assert g.Linked(n, s) && g.Linked(x, d) && g.Linked(x, d.Opposite());
    var y := g.Kid(x, d.Opposite());
    assert g.Linked(y, d) && g.Linked(y, d.Opposite());
    if n == x {} else if n == y {} else if n == g.Kid(y, d) {} else if n == g.Parent(x) {} else {}
  }

  lemma RotLinkedUp(g: Graph, x: Node, d: Side, n: Node)
    requires g.Shape() && g.Rotatable(x, d) && n in g.cell
    ensures g.Rot(x, d).LinkedUp(n)
  {
    assert g.LinkedUp(n) && g.LinkedUp(x) && g.Linked(x, d) && g.Linked(x, d.Opposite());
    var y := g.Kid(x, d.Opposite());
    assert g.LinkedUp(y) && g.Linked(y, d) && g.Linked(y, d.Opposite());
    var p := g.Parent(x);
    if p != null {
      assert g.Linked(p, Left) && g.Linked(p, Right);
    }
    if n == x {} else if n == y {} else if n == g.Kid(y, d) {} else if n == p {} else {}
  }

  // A kid may be replaced by another root of the same subtree
  lemma RotKidSub(g: Graph, x: Node, d: Side, n: Node, s: Side)
    requires g.Shape() && g.Rotatable(x, d) && n in g.cell && n != x && n != g.Kid(x, d.Opposite())
    ensures g.Rot(x, d).Sub(g.Rot(x, d).Kid(n, s)) == g.Sub(g.Kid(n, s)) && g.Rot(x, d).cell[n].sub == g.cell[n].sub
  {
    assert g.Linked(n, s) && g.Linked(x, d.Opposite());
    if n == g.Kid(g.Kid(x, d.Opposite()), d) {} else if n == g.Parent(x) {} else {}
  }

  lemma RotOrdered(g: Graph, x: Node, d: Side, n: Node)
    requires g.Shape() && g.Rotatable(x, d) && n in g.cell && n != x && n != g.Kid(x, d.Opposite())
    ensures g.Rot(x, d).Ordered(n)
  {
    assert g.Ordered(n);
    RotKidSub(g, x, d, n, Left);
    RotKidSub(g, x, d, n, Right);
  }

  lemma RotOrderedX(g: Graph, x: Node, d: Side)
    requires g.Shape() && g.Rotatable(x, d)
    ensures g.Rot(x, d).Ordered(x)
  {
    var y := g.Kid(x, d.Opposite());
    assert g.Ordered(x) && g.Ordered(y);
    if d == Left {} else {}
  }

  lemma RotOrderedY(g: Graph, x: Node, d: Side)
    requires g.Shape() && g.Rotatable(x, d)
    ensures g.Rot(x, d).Ordered(g.Kid(x, d.Opposite()))
  {
    var y := g.Kid(x, d.Opposite());
    assert g.Ordered(x) && g.Ordered(y);
    if d == Left {} else {}
  }

  lemma RotAllLinked(g: Graph, x: Node, d: Side)
    requires g.Shape() && g.Rotatable(x, d)
    ensures g.Rot(x, d).AllLinked()
  {
    forall n, s | n in g.cell
      ensures g.Rot(x, d).Linked(n, s)
    {
      RotLinked(g, x, d, n, s);
    }
  }

  lemma RotAllLinkedUp(g: Graph, x: Node, d: Side)
    requires g.Shape() && g.Rotatable(x, d)
    ensures g.Rot(x, d).AllLinkedUp()
  {
    forall n | n in g.cell
      ensures g.Rot(x, d).LinkedUp(n)
    {
      RotLinkedUp(g, x, d, n);
    }
  }

  lemma RotAllOrdered(g: Graph, x: Node, d: Side)
    requires g.Shape() && g.Rotatable(x, d)
    ensures g.Rot(x, d).AllOrdered()
  {
    forall n | n in g.cell
      ensures g.Rot(x, d).Ordered(n)
    {
      if n == x {
        RotOrderedX(g, x, d);
      } else if n == g.Kid(x, d.Opposite()) {
        RotOrderedY(g, x, d);
      } else {
        RotOrdered(g, x, d, n);
      }
    }
  }

  lemma RotShape(g: Graph, x: Node, d: Side)
    requires g.Shape() && g.Rotatable(x, d)
    ensures g.Rot(x, d).Shape() && g.Rot(x, d).cell.Keys == g.cell.Keys
  {
    RotAllLinked(g, x, d);
    RotAllLinkedUp(g, x, d);
    RotAllOrdered(g, x, d);
    var y := g.Kid(x, d.Opposite());
    assert g.LinkedUp(x) && g.Linked(x, d.Opposite()) && g.Linked(y, d);
  }

  lemma PaintShape(g: Graph, n: Node, red: bool, bh: nat)
    requires g.Shape() && n in g.cell
    ensures g.Paint(n, red, bh).Shape() && g.Paint(n, red, bh).cell.Keys == g.cell.Keys
  {
    var h := g.Paint(n, red, bh);
    assert h.AllLinked() by {
      forall m, s | m in g.cell
        ensures h.Linked(m, s)
      {
        assert g.Linked(m, s);
      }
    }
    assert h.AllLinkedUp() by {
      forall m | m in g.cell
        ensures h.LinkedUp(m)
      {
        assert g.LinkedUp(m);
      }
    }
    assert h.AllOrdered() by {
      forall m | m in g.cell
        ensures h.Ordered(m)
      {
        assert g.Ordered(m);
        assert h.Sub(h.cell[m].left) == g.Sub(g.cell[m].left) && h.Sub(h.cell[m].right) == g.Sub(g.cell[m].right);
      }
    }
  }

  // Rotations keep colours and black heights; only the kids of `x`, of `y` and of the old parent of `x` change.
  ghost function NewKid(g: Graph, x: Node, d: Side, n: Node, s: Side): Node?
    requires g.Rotatable(x, d) && n in g.cell
  {
    var y := g.Kid(x, d.Opposite());
    if n == x then (if s == d then g.Kid(x, d) else g.Kid(y, d))
    else if n == y then (if s == d then x else g.Kid(y, s))
    else if g.Kid(n, s) == x then y
    else g.Kid(n, s)
  }

  ghost predicate BalancedAfter(g: Graph, x: Node, d: Side, n: Node)
    requires g.Rotatable(x, d) && n in g.cell
  {
    var bh := g.Bh(NewKid(g, x, d, n, d));
    bh == g.Bh(NewKid(g, x, d, n, d.Opposite())) && g.Bh(n) == bh + if g.Red(n) then 0 else 1
  }

  ghost predicate SpacedAfter(g: Graph, x: Node, d: Side, n: Node)
    requires g.Rotatable(x, d) && n in g.cell
  {
    g.Red(n) ==> !g.Red(NewKid(g, x, d, n, d)) && !g.Red(NewKid(g, x, d, n, d.Opposite()))
  }

  lemma RotKids(g: Graph, x: Node, d: Side, n: Node, s: Side)
    requires g.Shape() && g.Rotatable(x, d) && n in g.cell
    ensures g.Rot(x, d).Kid(n, s) == NewKid(g, x, d, n, s)
  {
    assert g.LinkedUp(x) && g.Linked(n, s);
    if n == x {} else if n == g.Kid(x, d.Opposite()) {} else if n == g.Parent(x) {} else {}
  }

  lemma RotPaint(g: Graph, x: Node, d: Side, n: Node?)
    requires g.Rotatable(x, d)
    ensures g.Rot(x, d).Red(n) == g.Red(n) && g.Rot(x, d).Bh(n) == g.Bh(n)
  {
  }

  lemma RotColours(g: Graph, x: Node, d: Side, n: Node)
    requires g.Shape() && g.Rotatable(x, d) && n in g.cell
    ensures BalancedAfter(g, x, d, n) <==> g.Rot(x, d).Balanced(n)
    ensures SpacedAfter(g, x, d, n) <==> g.Rot(x, d).RedSpaced(n)
  {
    var h := g.Rot(x, d);
    RotKids(g, x, d, n, Left);
    RotKids(g, x, d, n, Right);
    RotPaint(g, x, d, n);
    RotPaint(g, x, d, NewKid(g, x, d, n, Left));
    RotPaint(g, x, d, NewKid(g, x, d, n, Right));
    assert h.Kid(n, Left) == h.cell[n].left && h.Kid(n, Right) == h.cell[n].right && h.Bh(n) == h.cell[n].bh
        && h.Red(n) == h.cell[n].red;
  }

  lemma TwoPaints(g: Graph, a: Node, ared: bool, abh: nat, b: Node, bred: bool, bbh: nat, x: Node, d: Side)
    requires g.Shape() && {a, b, x} <= g.cell.Keys && g.Kid(x, d.Opposite()) != null
    ensures var k := g.Paint(a, ared, abh).Paint(b, bred, bbh);
            k.Shape() && k.Rotatable(x, d) && k.cell.Keys == g.cell.Keys
  {
    PaintShape(g, a, ared, abh);
    PaintShape(g.Paint(a, ared, abh), b, bred, bbh);
    RotSite(g.Paint(a, ared, abh).Paint(b, bred, bbh), x, d);
  }

  // Subtrees are nested
  lemma {:induction false} Nested(g: Graph, n: Node, m: Node)
    requires g.Shape() && n in g.cell && m in g.Sub(n)
    ensures m in g.cell && g.Sub(m) <= g.Sub(n)
    ensures m != n ==> g.Parent(m) != null && g.Parent(m) in g.Sub(n)
    decreases g.Sub(n)
  {
    assert g.Ordered(n) && g.Linked(n, Left) && g.Linked(n, Right);
    var l, r := g.cell[n].left, g.cell[n].right;
    if m in g.Sub(l) {
      assert g.Ordered(l);
      Nested(g, l, m);
    } else if m in g.Sub(r) {
      assert g.Ordered(r);
      Nested(g, r, m);
    }
  }
}
