// The in-order listing of a splay tree, and what a new root and a lost root do to the tree.
module SplayOrder {
  import opened Listings
  import opened Lists
  import opened SplayForest

  function Key(n: Node): int { n.key }

  ghost function InOrder(f: Forest, n: Node?): seq<Node>
    requires Shape(f) && (n == null || n in f)
    decreases Sub(f, n)
  {
    if n == null then [] else
    assert Ordered(f, n);
    var l, r := f[n].left, f[n].right;
    assert n in Sub(f, n) && n !in Sub(f, l) && n !in Sub(f, r);
    InOrder(f, l) + [n] + InOrder(f, r)
  }

  lemma {:induction false} InOrderSorted(f: Forest, n: Node?)
    requires Shape(f) && (n == null || n in f)
    ensures Ascending(InOrder(f, n), Key) && Elements(InOrder(f, n)) == Sub(f, n)
    decreases Sub(f, n)
  {
    if n != null {
      assert Ordered(f, n);
      var l, r := f[n].left, f[n].right;
      assert n in Sub(f, n) && n !in Sub(f, l) && n !in Sub(f, r);
      InOrderSorted(f, l);
      InOrderSorted(f, r);
      Joined<Node>(InOrder(f, l), n, InOrder(f, r), Key);
    }
  }

  // Trees of the same nodes list them in the same order
  lemma SameListing(f: Forest, x: Node?, h: Forest, y: Node?)
    requires Shape(f) && Shape(h) && (x == null || x in f) && (y == null || y in h) && Sub(f, x) == Sub(h, y)
    ensures InOrder(f, x) == InOrder(h, y)
  {
    InOrderSorted(f, x);
    InOrderSorted(h, y);
    SortedOnce<Node>(InOrder(f, x), InOrder(h, y), Key);
  }

  lemma SameButOne(f: Forest, x: Node?, h: Forest, y: Node?, e: Node)
    requires Shape(f) && Shape(h) && (x == null || x in f) && (y == null || y in h)
    requires e !in Sub(f, x) && Sub(h, y) == Sub(f, x) + {e}
    ensures PutIn(InOrder(f, x), e, InOrder(h, y))
  {
    InOrderSorted(f, x);
    InOrderSorted(h, y);
    assert e !in Elements(InOrder(f, x));
    OneMore<Node>(InOrder(f, x), InOrder(h, y), e, Key);
  }

  // ---- insertion: the tree is split at the root, with the new node on top ----

  ghost function Crowned(f: Forest, x: Node, d: Side, e: Node): Forest
    requires x in f && e !in f
  {
    var a := Kid(f, x, d);
    Cut(f, x, d)[e := Cell(null, null, f.Keys + {e}).SetKid(d, a).SetKid(d.Opposite(), x)]
  }

  lemma CrownedOrdered(f: Forest, x: Node, d: Side, e: Node, n: Node)
    requires Shape(f) && IsRoot(f, x) && f[x].sub == f.Keys && e !in f && Before(d, e.key, x.key)
    requires forall n :: n in f ==> Before(d, n.key, e.key) || n == x || Before(d, x.key, n.key)
    requires n in Crowned(f, x, d, e)
    ensures Ordered(Crowned(f, x, d, e), n)
  {
    CutShape(f, x, d);
    assert Ordered(f, x);
    if n != e {
      assert Ordered(Cut(f, x, d), n);
    }
  }

  lemma CrownedKids(f: Forest, x: Node, d: Side, e: Node, n: Node, s: Side)
    requires x in f && e !in f && n in Crowned(f, x, d, e)
    ensures Kid(Crowned(f, x, d, e), n, s) ==
      if n != e then Kid(Cut(f, x, d), n, s) else if s == d then Kid(f, x, d) else x
  {
  }

  lemma CrownedOneParent(f: Forest, x: Node, d: Side, e: Node)
    requires Shape(f) && IsRoot(f, x) && e !in f
    ensures OneParent(Crowned(f, x, d, e)) && IsRoot(Crowned(f, x, d, e), e)
  {
    CutShape(f, x, d);
    var c, h := Cut(f, x, d), Crowned(f, x, d, e);
    forall n, s | n in h
      ensures Kid(h, n, s) == if n != e then Kid(c, n, s) else if s == d then Kid(f, x, d) else x
      ensures Kid(h, n, s) != e
    {
      CrownedKids(f, x, d, e, n, s);
      if n != e {
        assert Ordered(c, n);
      } else {
        assert Ordered(f, x);
      }
    }
  }

  lemma CrownedShape(f: Forest, x: Node, d: Side, e: Node)
    requires Shape(f) && IsRoot(f, x) && f[x].sub == f.Keys && e !in f && Before(d, e.key, x.key)
    requires forall n :: n in f ==> Before(d, n.key, e.key) || n == x || Before(d, x.key, n.key)
    ensures var h := Crowned(f, x, d, e); Shape(h) && IsRoot(h, e) && h.Keys == f.Keys + {e}
  {
    forall n | n in Crowned(f, x, d, e)
      ensures Ordered(Crowned(f, x, d, e), n)
    {
      CrownedOrdered(f, x, d, e, n);
    }
    CrownedOneParent(f, x, d, e);
  }

  // ---- removal: the root goes, its left subtree is arranged anew and takes over the right one ----

  ghost function Restricted(f: Forest, all: set<Node>): Forest {
    map n | n in f && n in all :: f[n]
  }

  lemma KidInSub(f: Forest, n: Node, s: Side)
    requires Shape(f) && n in f
    ensures Kid(f, n, s) != null ==> Kid(f, n, s) in f && Kid(f, n, s) in Sub(f, Kid(f, n, s))
  {
    assert Ordered(f, n);
    assert Kid(f, n, s) != null ==> Ordered(f, Kid(f, n, s));
  }

  lemma RestrictedKid(f: Forest, x: Node, n: Node, s: Side)
    requires Shape(f) && x in f && n in f[x].sub
    ensures n in f && Kid(f, n, s) != x && (Kid(f, n, s) != null ==> Kid(f, n, s) in f[x].sub && Kid(f, n, s) in f)
  {
    Nested(f, x, n);
    assert Ordered(f, n);
    assert Kid(f, n, s) != null ==> Ordered(f, Kid(f, n, s));
  }

  lemma RestrictedShape(f: Forest, x: Node)
    requires Shape(f) && x in f
    ensures var h := Restricted(f, f[x].sub); Shape(h) && x in h && h.Keys == f[x].sub && h[x] == f[x] && IsRoot(h, x)
  {
    var h := Restricted(f, f[x].sub);
    assert Ordered(f, x);
    forall n | n in f[x].sub
      ensures n in f
    {
      Nested(f, x, n);
    }
    forall n | n in h
      ensures Ordered(h, n)
    {
      assert Ordered(f, n);
      RestrictedKid(f, x, n, Left);
      RestrictedKid(f, x, n, Right);
    }
    forall n, s | n in h
      ensures Kid(h, n, s) == Kid(f, n, s) && Kid(h, n, s) != x
    {
      RestrictedKid(f, x, n, s);
    }
  }

  // `g` is the left subtree of the root `x` of `f`, arranged anew
  ghost function Merged(f: Forest, x: Node, g: Forest): Forest {
    map n | n in f && n != x :: if n in g then g[n] else f[n]
  }

  lemma MergedKid(f: Forest, x: Node, n: Node, s: Side)
    requires Shape(f) && IsRoot(f, x) && f[x].sub == f.Keys && n in f && n != x && n !in Sub(f, f[x].left)
    ensures f[x].right in f && n in Sub(f, f[x].right) && Kid(f, n, s) != x && Kid(f, n, s) != f[x].right
    ensures Kid(f, n, s) != null ==> Kid(f, n, s) in f && Kid(f, n, s) in Sub(f, f[x].right)
  {
    assert Ordered(f, x);
    RestrictedKid(f, f[x].right, n, s);
  }

  lemma MergedOrdered(f: Forest, x: Node, g: Forest, n: Node)
    requires Shape(f) && IsRoot(f, x) && f[x].sub == f.Keys && f[x].left != null && n in f && n != x
    requires Shape(g) && g.Keys == Sub(f, f[x].left)
    ensures Ordered(Merged(f, x, g), n)
  {
    assert Ordered(f, x);
    if n in g {
      assert Ordered(g, n);
    } else {
      assert Ordered(f, n);
      MergedKid(f, x, n, Left);
      MergedKid(f, x, n, Right);
    }
  }

  lemma MergedOneParent(f: Forest, x: Node, g: Forest, r: Node)
    requires Shape(f) && IsRoot(f, x) && f[x].sub == f.Keys && f[x].left != null
    requires Shape(g) && IsRoot(g, r) && g[r].sub == g.Keys == Sub(f, f[x].left)
    ensures var h := Merged(f, x, g); OneParent(h) && forall n, s :: n in h ==> Kid(h, n, s) != r
    ensures f[x].right != null ==> forall n, s :: n in Merged(f, x, g) ==> Kid(Merged(f, x, g), n, s) != f[x].right
  {
    var h := Merged(f, x, g);
    assert Ordered(f, x);
    if f[x].right != null {
      assert Ordered(f, f[x].right);
    }
    forall n, s | n in h
      ensures Kid(h, n, s) == (if n in g then Kid(g, n, s) else Kid(f, n, s)) && Kid(h, n, s) != r
      ensures Kid(h, n, s) != null ==> (Kid(h, n, s) in g <==> n in g)
      ensures f[x].right != null ==> Kid(h, n, s) != f[x].right
    {
      if n in g {
        assert Ordered(g, n);
      } else {
        MergedKid(f, x, n, s);
      }
    }
  }

  lemma MergedShape(f: Forest, x: Node, g: Forest, r: Node)
    requires Shape(f) && IsRoot(f, x) && f[x].sub == f.Keys && f[x].left != null
    requires Shape(g) && IsRoot(g, r) && g[r].sub == g.Keys == Sub(f, f[x].left)
    ensures var h := Merged(f, x, g); Shape(h) && IsRoot(h, r) && h.Keys == f.Keys - {x} && h[r] == g[r]
    ensures f[x].right != null ==>
            f[x].right in f && f[x].right in Merged(f, x, g)
            && IsRoot(Merged(f, x, g), f[x].right) && Merged(f, x, g)[f[x].right] == f[f[x].right]
  {
    var h := Merged(f, x, g);
    assert Ordered(f, x);
    if f[x].right != null {
      assert Ordered(f, f[x].right);
    }
    forall n | n in h
      ensures Ordered(h, n)
    {
      MergedOrdered(f, x, g, n);
    }
    MergedOneParent(f, x, g, r);
  }

  ghost function Beheaded(f: Forest, x: Node, g: Forest, r: Node): Forest
    requires x in f
  {
    var m, b := Merged(f, x, g), f[x].right;
    if b != null && b in m && r in m then Link(m, r, Right, b) else m
  }

  lemma BeheadedShape(f: Forest, x: Node, g: Forest, r: Node)
    requires Shape(f) && IsRoot(f, x) && f[x].sub == f.Keys && f[x].left != null
    requires Shape(g) && IsRoot(g, r) && g[r].sub == g.Keys == Sub(f, f[x].left)
    requires forall n :: n in g ==> n.key <= r.key
    ensures g[r].right == null
    ensures var h := Beheaded(f, x, g, r); Shape(h) && IsRoot(h, r) && h.Keys == h[r].sub == f.Keys - {x}
  {
    MergedShape(f, x, g, r);
    var m, b := Merged(f, x, g), f[x].right;
    assert Ordered(f, x) && Ordered(g, r);
    KidInSub(g, r, Right);
    if b != null {
      forall n | n in m && r in m[n].sub
        ensures n == r
      {
        RootOnTop(m, r, n);
      }
      LinkShape(m, r, Right, b);
    }
  }

  // A root without a left subtree hands over to its right one
  lemma RightOnlyShape(f: Forest, x: Node)
    requires Shape(f) && IsRoot(f, x) && f[x].sub == f.Keys && f[x].left == null
    ensures f[x].right == null ==> f.Keys == {x}
    ensures f[x].right != null ==> f[x].right in f && f[f[x].right].sub == f.Keys - {x}
  {
    assert Ordered(f, x);
  }
}
