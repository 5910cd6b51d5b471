// What the shape of a search tree says about the order of its nodes, and what its colours say about its height.
module RedBlackOrder {
  import opened Listings
  import opened Lists
  import opened Powers
  import opened RedBlackGraph

  ghost function InOrder(g: Graph, n: Node?): seq<Node>
    requires g.Shape() && (n == null || n in g.cell)
    decreases g.Sub(n)
  {
    if n == null then [] else
    assert g.Ordered(n) && g.Linked(n, Left) && g.Linked(n, Right);
    var l, r := g.cell[n].left, g.cell[n].right;
    assert n in g.Sub(n) && n !in g.Sub(l) && n !in g.Sub(r);
    InOrder(g, l) + [n] + InOrder(g, r)
  }

  function Key(n: Node): int { n.key }

  lemma {:induction false} InOrderSorted(g: Graph, n: Node?)
    requires g.Shape() && (n == null || n in g.cell)
    ensures Ascending(InOrder(g, n), Key) && Elements(InOrder(g, n)) == g.Sub(n)
    decreases g.Sub(n)
  {
    if n != null {
      assert g.Ordered(n) && g.Linked(n, Left) && g.Linked(n, Right);
      var l, r := g.cell[n].left, g.cell[n].right;
      assert n in g.Sub(n) && n !in g.Sub(l) && n !in g.Sub(r);
      InOrderSorted(g, l);
      InOrderSorted(g, r);
      Joined<Node>(InOrder(g, l), n, InOrder(g, r), Key);
    }
  }

  // Two trees whose nodes differ in `e` list their nodes in the same order, `e` left out
  lemma SameButOne(g: Graph, h: Graph, e: Node)
    requires g.Shape() && h.Shape() && e !in g.cell && h.cell.Keys == g.cell.Keys + {e}
    ensures PutIn(InOrder(g, g.root), e, InOrder(h, h.root))
  {
    InOrderSorted(g, g.root);
    InOrderSorted(h, h.root);
    assert Elements(InOrder(g, g.root)) == g.cell.Keys && Elements(InOrder(h, h.root)) == h.cell.Keys;
    assert e !in Elements(InOrder(g, g.root));
    OneMore(InOrder(g, g.root), InOrder(h, h.root), e, Key);
  }

  // Nothing outside a subtree lies between two of its nodes
  lemma {:induction false} Between(g: Graph, c: Node, a: Node, b: Node, m: Node)
    requires g.Shape() && c in g.cell && a in g.Sub(c) && b in g.Sub(c) && m in g.cell && a.key < m.key < b.key
    ensures m in g.Sub(c)
    decreases g.cell.Keys - g.Sub(c)
  {
    assert g.LinkedUp(c);
    var p := g.Parent(c);
    if p != null {
      assert g.Ordered(p) && g.Ordered(c);
      Between(g, p, a, b, m);
    }
  }

  ghost predicate IsNext(g: Graph, e: Node, r: Node?) {
    if r == null then forall n :: n in g.cell ==> n.key <= e.key
    else r in g.cell && e.key < r.key && forall n :: n in g.cell ==> n.key <= e.key || r.key <= n.key
  }

  ghost predicate IsPrev(g: Graph, e: Node, r: Node?) {
    if r == null then forall n :: n in g.cell ==> e.key <= n.key
    else r in g.cell && r.key < e.key && forall n :: n in g.cell ==> e.key <= n.key || n.key <= r.key
  }

  // The neighbours in key order are the neighbours in the in-order sequence
  lemma NextInOrder(g: Graph, i: nat, r: Node?)
    requires g.Shape() && i < |InOrder(g, g.root)| && InOrder(g, g.root)[i] in g.cell
            && IsNext(g, InOrder(g, g.root)[i], r)
    ensures r == if i + 1 < |InOrder(g, g.root)| then InOrder(g, g.root)[i + 1] else null
  {
    var s := InOrder(g, g.root);
    InOrderSorted(g, g.root);
    if i + 1 < |s| {
      assert s[i + 1] in Elements(s);
    }
    if r != null {
      assert r in Elements(s);
      var j :| 0 <= j < |s| && s[j] == r;
    }
  }

  // Going on and back again ends where it started
  lemma PrevUndoesNext(g: Graph, e: Node, r: Node, b: Node?)
    requires g.Shape() && e in g.cell && IsNext(g, e, r) && IsPrev(g, r, b)
    ensures b == e
  {
    InOrderSorted(g, g.root);
    var s := InOrder(g, g.root);
    assert e in Elements(s) && b in Elements(s);
    var i :| 0 <= i < |s| && s[i] == e;
    var j :| 0 <= j < |s| && s[j] == b;
  }

  lemma FirstInOrder(g: Graph, x: Node?)
    requires g.Shape() && (x == null <==> g.cell == map[])
    requires x != null ==> x in g.cell && forall n :: n in g.cell ==> x.key <= n.key
    ensures x == if InOrder(g, g.root) == [] then null else InOrder(g, g.root)[0]
  {
    InOrderSorted(g, g.root);
    var s := InOrder(g, g.root);
    assert x == null || x in Elements(s);
    assert s == [] || s[0] in Elements(s);
  }

  // The listing up to the node `x`, or all of it
  ghost predicate Walked(s: seq<Node>, visited: seq<Node>, x: Node?) {
    |visited| <= |s| && visited == s[..|visited|] && x == if |visited| < |s| then s[|visited|] else null
  }

  lemma WalkedOn(g: Graph, visited: seq<Node>, e: Node, x: Node?)
    requires g.Shape() && Walked(InOrder(g, g.root), visited, e) && e in g.cell && IsNext(g, e, x)
    ensures Walked(InOrder(g, g.root), visited + [e], x)
  {
    NextInOrder(g, |visited|, x);
  }

  // The search for the least node not below `key` has come down to `t`; `r` is the best found so far
  ghost predicate Narrowed(g: Graph, key: int, t: Node?, r: Node?) {
    && (t != null ==> t in g.cell) && (r != null ==> r in g.cell && key < r.key)
    && (r != null ==> forall n :: n in g.Sub(t) ==> n.key < r.key)
    && (forall n :: n in g.cell && key <= n.key && (r == null || n.key < r.key) ==> n in g.Sub(t))
  }

  lemma NarrowedOn(g: Graph, key: int, t: Node, r: Node?)
    requires g.Shape() && Narrowed(g, key, t, r)
    ensures key < t.key ==> Narrowed(g, key, g.cell[t].left, t)
    ensures t.key < key ==> Narrowed(g, key, g.cell[t].right, r)
    ensures t.key == key ==> forall n :: n in g.cell && key <= n.key ==> t.key <= n.key
  {
    assert g.Ordered(t) && g.Linked(t, Left) && g.Linked(t, Right);
  }

  // A subtree that ends in `e` and hangs on the left of its parent: the parent comes next
  lemma Upwards(g: Graph, e: Node, c: Node)
    requires g.Shape() && c in g.cell && e in g.Sub(c) && forall n :: n in g.Sub(c) ==> n.key <= e.key
    requires g.Parent(c) == null || (g.Parent(c) in g.cell && g.Kid(g.Parent(c), Left) == c)
    ensures IsNext(g, e, g.Parent(c))
  {
    assert g.LinkedUp(c);
    var p := g.Parent(c);
    if p != null {
      assert g.Ordered(p);
      forall n | n in g.cell && e.key < n.key < p.key
        ensures false
      {
        Between(g, p, e, p, n);
      }
    }
  }

  lemma Downwards(g: Graph, e: Node, c: Node)
    requires g.Shape() && c in g.cell && e in g.Sub(c) && forall n :: n in g.Sub(c) ==> e.key <= n.key
    requires g.Parent(c) == null || (g.Parent(c) in g.cell && g.Kid(g.Parent(c), Right) == c)
    ensures IsPrev(g, e, g.Parent(c))
  {
    assert g.LinkedUp(c);
    var p := g.Parent(c);
    if p != null {
      assert g.Ordered(p);
      forall n | n in g.cell && p.key < n.key < e.key
        ensures false
      {
        Between(g, p, p, e, n);
      }
    }
  }

  // ---- height ----

  ghost function Height(g: Graph, n: Node?): nat
    requires g.Shape() && (n == null || n in g.cell)
    decreases g.Sub(n)
  {
    if n == null then 0 else
    assert g.Ordered(n) && g.Linked(n, Left) && g.Linked(n, Right);
    var l, r := g.cell[n].left, g.cell[n].right;
    assert n in g.Sub(n) && n !in g.Sub(l) && n !in g.Sub(r);
    var a, b := Height(g, l), Height(g, r);
    1 + if a < b then b else a
  }

  // How many nodes a search for `key` compares with, from `n` on
  ghost function PathLength(g: Graph, n: Node?, key: int): nat
    requires g.Shape() && (n == null || n in g.cell)
    decreases g.Sub(n)
  {
    if n == null then 0 else
    assert g.Ordered(n) && g.Linked(n, Left) && g.Linked(n, Right);
    var l, r := g.cell[n].left, g.cell[n].right;
    assert n in g.Sub(n) && n !in g.Sub(l) && n !in g.Sub(r);
    1 + if key < n.key then PathLength(g, l, key) else if n.key < key then PathLength(g, r, key) else 0
  }

  lemma {:induction false} PathInHeight(g: Graph, n: Node?, key: int)
    requires g.Shape() && (n == null || n in g.cell)
    ensures PathLength(g, n, key) <= Height(g, n)
    decreases g.Sub(n)
  {
    if n != null {
      assert g.Ordered(n) && g.Linked(n, Left) && g.Linked(n, Right);
      var l, r := g.cell[n].left, g.cell[n].right;
      assert n in g.Sub(n) && n !in g.Sub(l) && n !in g.Sub(r);
      PathInHeight(g, l, key);
      PathInHeight(g, r, key);
    }
  }

  lemma SubSize(g: Graph, n: Node)
    requires g.Shape() && n in g.cell
    ensures |g.Sub(n)| == 1 + |g.Sub(g.cell[n].left)| + |g.Sub(g.cell[n].right)|
  {
    assert g.Ordered(n);
    var l, r := g.Sub(g.cell[n].left), g.Sub(g.cell[n].right);
    assert l !! r && n !in l + r;
    assert g.Sub(n) == {n} + (l + r);
  }

  lemma {:induction false} BlackSize(g: Graph, n: Node?)
    requires g.Valid() && (n == null || n in g.cell)
    ensures Pow2(g.Bh(n)) <= |g.Sub(n)| + 1
    decreases g.Sub(n)
  {
    if n != null {
      assert g.Ordered(n) && g.Linked(n, Left) && g.Linked(n, Right) && g.Balanced(n);
      var l, r := g.cell[n].left, g.cell[n].right;
      assert n in g.Sub(n) && n !in g.Sub(l) && n !in g.Sub(r);
      BlackSize(g, l);
      BlackSize(g, r);
      SubSize(g, n);
    }
  }

  lemma {:induction false} BlackHeight(g: Graph, n: Node?)
    requires g.Valid() && (n == null || n in g.cell)
    ensures Height(g, n) <= 2 * g.Bh(n) + if g.Red(n) then 1 else 0
    ensures Pow2(g.Bh(n)) <= |g.Sub(n)| + 1
    decreases g.Sub(n)
  {
    BlackSize(g, n);
    if n != null {
      assert g.Ordered(n) && g.Linked(n, Left) && g.Linked(n, Right) && g.Balanced(n) && g.RedSpaced(n);
      var l, r := g.cell[n].left, g.cell[n].right;
      assert n in g.Sub(n) && n !in g.Sub(l) && n !in g.Sub(r);
      BlackHeight(g, l);
      BlackHeight(g, r);
    }
  }

  lemma Squares(a: nat, b: nat)
    requires a <= b
    ensures a * a <= b * b
  {
  }

  // The height is at most 2 lg(n + 1)
  lemma HeightBound(g: Graph)
    requires g.Valid()
    ensures Pow2(Height(g, g.root)) <= (|g.cell| + 1) * (|g.cell| + 1)
  {
    BlackHeight(g, g.root);
    var b := g.Bh(g.root);
    assert g.Sub(g.root) == g.cell.Keys && |g.cell| == |g.cell.Keys|;
    Pow2Grows(Height(g, g.root), b + b);
    Pow2Sum(b, b);
    Squares(Pow2(b), |g.cell| + 1);
  }

  lemma FewSteps(g: Graph, key: int)
    requires g.Valid()
    ensures var k := PathLength(g, g.root, key); k <= Height(g, g.root) && Pow2(k) <= (|g.cell| + 1) * (|g.cell| + 1)
  {
    HeightBound(g);
    PathInHeight(g, g.root, key);
    Pow2Grows(PathLength(g, g.root, key), Height(g, g.root));
  }
}
