// The linked nodes of a splay tree, and of the three trees it is taken apart into, as one value.
module SplayForest {

  import opened Listings

  class Node {
    const key: int
    var left: Node?
    var right: Node?

    constructor (key: int)
      ensures this.key == key && left == null && right == null
    {
      this.key := key;
      left, right := null, null;
    }

    function Kid(d: Side): Node?
      reads this
    {
      if d == Left then left else right
    }
  }

  // `a` comes before `b` seen from side `d`
  predicate Before(d: Side, a: int, b: int) {
    if d == Left then a < b else b < a
  }

  datatype Cell = Cell(left: Node?, right: Node?, sub: set<Node>) {
    ghost function Kid(d: Side): Node? { if d == Left then left else right }
    ghost function SetKid(d: Side, n: Node?): Cell { if d == Left then this.(left := n) else this.(right := n) }
  }

  type Forest = map<Node, Cell>

  ghost function Sub(f: Forest, n: Node?): set<Node> {
    if n != null && n in f then f[n].sub else {}
  }

  ghost function Kid(f: Forest, n: Node, d: Side): Node?
    requires n in f
  {
    f[n].Kid(d)
  }

  ghost predicate Ordered(f: Forest, n: Node)
    requires n in f
  {
    && (f[n].left != null ==> f[n].left in f) && (f[n].right != null ==> f[n].right in f)
    && f[n].sub == {n} + Sub(f, f[n].left) + Sub(f, f[n].right)
    && (forall m :: m in Sub(f, f[n].left) ==> m.key < n.key)
    && (forall m :: m in Sub(f, f[n].right) ==> n.key < m.key)
  }

  ghost predicate Shape(f: Forest) {
    && (forall n {:trigger Ordered(f, n)} :: n in f ==> Ordered(f, n))
    && OneParent(f)
  }

  ghost predicate OneParent(f: Forest) {
    forall n, m, s, t {:trigger Kid(f, n, s), Kid(f, m, t)} ::
      n in f && m in f && Kid(f, n, s) != null && Kid(f, n, s) == Kid(f, m, t) ==> n == m && s == t
  }

  ghost predicate IsRoot(f: Forest, x: Node) {
    x in f && forall n, d {:trigger Kid(f, n, d)} :: n in f ==> Kid(f, n, d) != x
  }

  // ---- taking off and hanging on ----

  // The root `x` loses its subtree on side `d`
  ghost function Cut(f: Forest, x: Node, d: Side): Forest
    requires x in f
  {
    f[x := f[x].SetKid(d, null).(sub := {x} + Sub(f, Kid(f, x, d.Opposite())))]
  }

  lemma CutKids(f: Forest, x: Node, d: Side, n: Node, s: Side)
    requires x in f && n in f
    ensures Kid(Cut(f, x, d), n, s) == if n == x && s == d then null else Kid(f, n, s)
  {
  }

  lemma CutShape(f: Forest, x: Node, d: Side)
    requires Shape(f) && IsRoot(f, x)
    ensures Shape(Cut(f, x, d)) && Cut(f, x, d).Keys == f.Keys && IsRoot(Cut(f, x, d), x)
    ensures Kid(f, x, d) != null ==> IsRoot(Cut(f, x, d), Kid(f, x, d))
    ensures forall y :: IsRoot(f, y) ==> IsRoot(Cut(f, x, d), y)
  {
    var h := Cut(f, x, d);
    forall n | n in h
      ensures Ordered(h, n)
    {
      assert Ordered(f, n) && Kid(f, n, Left) != x && Kid(f, n, Right) != x;
    }
    forall n, s | n in h
      ensures Kid(h, n, s) == if n == x && s == d then null else Kid(f, n, s)
    {
      CutKids(f, x, d, n, s);
    }
    assert Ordered(f, x);
  }

  // The tree `x` is hung on side `d` of `p`
  ghost function Link(f: Forest, p: Node, d: Side, x: Node): Forest
    requires p in f && x in f
  {
    map n | n in f ::
      var c := if n == p then f[n].SetKid(d, x) else f[n];
      if p in f[n].sub then c.(sub := f[n].sub + f[x].sub) else c
  }

  lemma LinkKids(f: Forest, p: Node, d: Side, x: Node, n: Node, s: Side)
    requires p in f && x in f && n in f
    ensures Kid(Link(f, p, d, x), n, s) == if n == p && s == d then x else Kid(f, n, s)
  {
  }

  lemma LinkOneParent(f: Forest, p: Node, d: Side, x: Node)
    requires OneParent(f) && p in f && IsRoot(f, x)
    ensures OneParent(Link(f, p, d, x))
    ensures forall y :: IsRoot(f, y) && y != x ==> IsRoot(Link(f, p, d, x), y)
  {
    forall n, s | n in f
      ensures Kid(Link(f, p, d, x), n, s) == if n == p && s == d then x else Kid(f, n, s)
    {
      LinkKids(f, p, d, x, n, s);
    }
  }

  lemma LinkShape(f: Forest, p: Node, d: Side, x: Node)
    requires Shape(f) && p in f && IsRoot(f, x) && Kid(f, p, d) == null && p !in Sub(f, x)
    requires forall n, m :: n in f && p in f[n].sub && m in Sub(f, x) ==> Before(d, m.key, n.key)
    requires forall n :: n in f && p in f[n].sub ==> n == p || Before(d, p.key, n.key)
    ensures Shape(Link(f, p, d, x)) && Link(f, p, d, x).Keys == f.Keys
    ensures forall y :: IsRoot(f, y) && y != x ==> IsRoot(Link(f, p, d, x), y)
  {
    LinkOneParent(f, p, d, x);
    var h := Link(f, p, d, x);
    forall n | n in h
      ensures Ordered(h, n)
    {
      assert Ordered(f, n) && Ordered(f, p);
      var l, r := f[n].left, f[n].right;
      assert p in f[n].sub <==> n == p || p in Sub(f, l) || p in Sub(f, r);
      if n == p {} else {}
    }
  }

  // The root `x` and its kid `y` on side `d` change places
  ghost function Rotate(f: Forest, x: Node, d: Side): Forest
    requires x in f && Kid(f, x, d) != null && Kid(f, x, d) in f
  {
    var o, y := d.Opposite(), Kid(f, x, d);
    var b := Kid(f, y, o);
    f[x := f[x].SetKid(d, b).(sub := {x} + Sub(f, b) + Sub(f, Kid(f, x, o)))][y := f[y].SetKid(o, x).(sub := f[x].sub)]
  }

  lemma RotateKids(f: Forest, x: Node, d: Side, n: Node, s: Side)
    requires Shape(f) && IsRoot(f, x) && Kid(f, x, d) != null && Kid(f, x, d) in f && n in f
    ensures var y, o := Kid(f, x, d), d.Opposite();
            Kid(Rotate(f, x, d), n, s) ==
            if n == x && s == d then Kid(f, y, o) else if n == y && s == o then x else Kid(f, n, s)
  {
  }

  lemma RotateOther(f: Forest, x: Node, d: Side, n: Node)
    requires Shape(f) && IsRoot(f, x) && Kid(f, x, d) != null && Kid(f, x, d) in f
    requires n in f && n != x && n != Kid(f, x, d)
    ensures Ordered(Rotate(f, x, d), n)
  {
    assert Ordered(f, n) && Kid(f, x, d) == Kid(f, x, d);
    assert Kid(f, n, Left) != x && Kid(f, n, Right) != x;
    assert Kid(f, n, Left) != Kid(f, x, d) && Kid(f, n, Right) != Kid(f, x, d);
  }

  lemma RotateOrdered(f: Forest, x: Node, d: Side, n: Node)
    requires Shape(f) && IsRoot(f, x) && Kid(f, x, d) != null && Kid(f, x, d) in f && n in f
    ensures Ordered(Rotate(f, x, d), n)
  {
    var y := Kid(f, x, d);
    if n == x || n == y {
      assert Ordered(f, x) && Ordered(f, y) && Kid(f, y, Left) != x && Kid(f, y, Right) != x;
      if n == x {} else {}
    } else {
      RotateOther(f, x, d, n);
    }
  }

  lemma RotateOneParent(f: Forest, x: Node, d: Side)
    requires Shape(f) && IsRoot(f, x) && Kid(f, x, d) != null && Kid(f, x, d) in f
    ensures OneParent(Rotate(f, x, d)) && IsRoot(Rotate(f, x, d), Kid(f, x, d))
    ensures forall z :: IsRoot(f, z) && z != x ==> IsRoot(Rotate(f, x, d), z)
  {
    var y, o := Kid(f, x, d), d.Opposite();
    forall n, s | n in f
      ensures Kid(Rotate(f, x, d), n, s) ==
        if n == x && s == d then Kid(f, y, o) else if n == y && s == o then x else Kid(f, n, s)
    {
      RotateKids(f, x, d, n, s);
    }
  }

  lemma RotateShape(f: Forest, x: Node, d: Side)
    requires Shape(f) && IsRoot(f, x) && Kid(f, x, d) != null
    ensures Kid(f, x, d) in f && var h := Rotate(f, x, d); Shape(h) && h.Keys == f.Keys && IsRoot(h, Kid(f, x, d))
    ensures forall z :: IsRoot(f, z) && z != x ==> IsRoot(Rotate(f, x, d), z)
  {
    assert Ordered(f, x);
    forall n | n in f
      ensures Ordered(Rotate(f, x, d), n)
    {
      RotateOrdered(f, x, d, n);
    }
    RotateOneParent(f, x, d);
  }

  // Subtrees are nested
  lemma {:induction false} Nested(f: Forest, x: Node, m: Node)
    requires Shape(f) && x in f && m in f[x].sub
    ensures m in f && f[m].sub <= f[x].sub
    decreases f[x].sub
  {
    assert Ordered(f, x);
    var l, r := f[x].left, f[x].right;
    if m in Sub(f, l) {
      assert Ordered(f, l);
      Nested(f, l, m);
    } else if m in Sub(f, r) {
      assert Ordered(f, r);
      Nested(f, r, m);
    }
  }

  lemma {:induction false} RootOnTop(f: Forest, x: Node, n: Node)
    requires Shape(f) && IsRoot(f, x) && n in f && x in f[n].sub
    ensures n == x
    decreases f[n].sub
  {
    assert Ordered(f, n) && Kid(f, n, Left) != x && Kid(f, n, Right) != x;
    var l, r := f[n].left, f[n].right;
    if x in Sub(f, l) {
      assert Ordered(f, l);
      RootOnTop(f, x, l);
    } else if x in Sub(f, r) {
      assert Ordered(f, r);
      RootOnTop(f, x, r);
    }
  }
}
