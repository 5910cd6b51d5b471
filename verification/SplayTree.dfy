// Top-down splay trees over linked nodes.
module SplayTree {
  import opened Listings
  import opened Powers
  import opened SplayCost
  import opened SplayForest
  import opened SplayModel
  import opened SplayOrder
  import opened SplayParts
  import opened SplayRefines

  /** `x` has the key `k`, or nothing lies between `x` and `k`. */
  ghost predicate Near(all: set<Node>, x: Node, k: int) {
    && x in all
    && (x.key == k
        || (k < x.key && forall n :: n in all ==> n.key < k || x.key <= n.key)
        || (x.key < k && forall n :: n in all ==> n.key <= x.key || k < n.key))
  }

  // The key of `e` lies right beside the root
  lemma CrownSite(f: Forest, x: Node, d: Side, e: Node)
    requires Shape(f) && IsRoot(f, x) && f[x].sub == f.Keys && Near(f.Keys, x, e.key) && Before(d, e.key, x.key)
    ensures forall n :: n in f ==> Before(d, n.key, e.key) || n == x || Before(d, x.key, n.key)
  {
    assert Ordered(f, x);
  }

  class Head {
    var root: Node?
    ghost var f: Forest

    constructor ()
      ensures Valid() && root == null
    {
      root := null;
      f := map[];
    }

    ghost predicate Models()
      reads this, f.Keys
    {
      forall n :: n in f ==> n.left == f[n].left && n.right == f[n].right
    }

    ghost predicate Valid()
      reads this, f.Keys
    {
      && Models() && Shape(f)
      && (root == null ==> f == map[])
      && (root != null ==> IsRoot(f, root) && f[root].sub == f.Keys)
    }

    /** The tree taken apart: the innermost link of each flank is stale until the tree is put together again. */
    ghost predicate Apart(s: Parts, node: Node, left: Node, right: Node)
      reads this, s.f.Keys, node
    {
      && root == s.root && node !in s.f
      && left == (if s.leftEdge == null then node else s.leftEdge) && node.right == s.leftTop
      && right == (if s.rightEdge == null then node else s.rightEdge) && node.left == s.rightTop
      && forall n :: n in s.f ==>
          (n != s.rightEdge ==> n.left == s.f[n].left)
          && (n != s.leftEdge ==> n.right == s.f[n].right)
    }

    method RotateRight(tmp: Node)
      requires root != null && root != tmp
      modifies this`root, root`left, tmp`right
      ensures root == tmp && old(root).left == old(tmp.right) && tmp.right == old(root)
    {
      root.left := tmp.right;
      tmp.right := root;
      root := tmp;
    }

    method RotateLeft(tmp: Node)
      requires root != null && root != tmp
      modifies this`root, root`right, tmp`left
      ensures root == tmp && old(root).right == old(tmp.left) && tmp.left == old(root)
    {
      root.right := tmp.left;
      tmp.left := root;
      root := tmp;
    }

    method Turn(ghost s: Parts, ghost k: int, ghost node: Node, ghost left: Node, ghost right: Node, tmp: Node, d: Side)
      requires s.Good(k) && Apart(s, node, left, right) && Kid(s.f, s.root, d) == tmp
      modifies this`root, s.f.Keys
      ensures tmp in s.f && s.Turn(d).Good(k) && Apart(s.Turn(d), node, left, right)
      ensures s.Turn(d).f.Keys == s.f.Keys && Sub(s.Turn(d).f, tmp) == Sub(s.f, s.root)
    {
      TurnGood(s, k, d);
      ghost var h := s.Turn(d).f;
      assert Ordered(s.f, s.root);
      if d == Left {
        RotateRight(tmp);
      } else {
        RotateLeft(tmp);
      }
      forall n | n in h
        ensures (n != s.rightEdge ==> n.left == h[n].left) && (n != s.leftEdge ==> n.right == h[n].right)
      {
        if n == s.root {} else if n == tmp {} else {}
      }
    }

    // SPLAY_LINKLEFT: the root goes to the right flank
    method LinkLeft(tmp: Node) returns (edge: Node)
      requires root != null && root.left != null && root != tmp
      modifies this`root, tmp`left
      ensures edge == old(root) && tmp.left == old(root) && root == old(root.left)
    {
      tmp.left := root;
      edge := root;
      root := root.left;
    }

    method LinkRight(tmp: Node) returns (edge: Node)
      requires root != null && root.right != null && root != tmp
      modifies this`root, tmp`right
      ensures edge == old(root) && tmp.right == old(root) && root == old(root.right)
    {
      tmp.right := root;
      edge := root;
      root := root.right;
    }

    method Descend(ghost s: Parts, ghost k: int, node: Node, left: Node, right: Node, d: Side)
        returns (left1: Node, right1: Node)
      requires s.Good(k) && Apart(s, node, left, right) && Kid(s.f, s.root, d) != null && Before(d, k, s.root.key)
      modifies this`root, s.f.Keys, node
      ensures Kid(s.f, s.root, d) in s.f && var t := s.Step(d.Opposite());
              t.Good(k) && Apart(t, node, left1, right1) && t.f.Keys == s.f.Keys && Sub(t.f, t.root) < Sub(s.f, s.root)
    {
      ghost var o := d.Opposite();
      assert Ordered(s.f, s.root);
      ghost var t := s.Step(o);
      RootNoEdge(s, k);
      left1, right1 := left, right;
      if d == Left {
        right1 := LinkLeft(right);
      } else {
        left1 := LinkRight(left);
      }
      forall n | n in s.f
        ensures (n != t.rightEdge ==> n.left == t.f[n].left) && (n != t.leftEdge ==> n.right == t.f[n].right)
      {
        StepCell(s, k, o, n);
        if d == Left {
          if n == s.rightEdge {}
        } else {
          if n == s.leftEdge {}
        }
      }
      StepGood(s, k, o);
    }

    // SPLAY_ASSEMBLE
    method Assemble(ghost s: Parts, ghost k: int, node: Node, left: Node, right: Node)
      requires s.Good(k) && Apart(s, node, left, right)
      modifies this`f, s.f.Keys, node
      ensures Valid() && root == s.root && f.Keys == s.f.Keys
      ensures AsTree() == Close(Around(s, Open(Core(s))))
    {
      AssembledGood(s, k);
      AssembledTree(s, k);
      RootNoEdge(s, k);
      ghost var h := Assembled(s);
      left.right := root.left;
      right.left := root.right;
      root.left := node.right;
      root.right := node.left;
      forall n | n in h
        ensures n.left == h[n].left && n.right == h[n].right
      {
        AssembledKids(s, k, n);
        if n == s.root {} else if n == s.leftEdge {} else if n == s.rightEdge {} else {}
      }
      f := h;
    }

    ghost function Listing(): seq<Node>
      reads this, f.Keys
      requires Valid()
    {
      InOrder(f, root)
    }

    ghost function AsTree(): (t: Tree)
      reads this, f.Keys
      requires Valid()
      ensures t.Size() == |f| && (t.Branch? <==> root != null)
    {
      ToTreeSize(f, root);
      assert |f| == |f.Keys|;
      ToTree(f, root)
    }

    // One round of the search: down one level, or two after a rotation; `stop` where there is no way on
    method Round(ghost s: Parts, ghost k: int, node: Node, left: Node, right: Node, d: Side, straight: bool)
      returns (ghost t: Parts, left1: Node, right1: Node, stop: bool)
      requires s.Good(k) && Apart(s, node, left, right) && Before(d, k, s.root.key) && Kid(s.f, s.root, d) != null
      requires straight ==> Before(d, k, Kid(s.f, s.root, d).key)
      modifies this`root, s.f.Keys, node
      ensures t.Good(k) && Apart(t, node, left1, right1) && t.f.Keys == s.f.Keys
      ensures stop ==> t.root in t.f && Before(d, k, t.root.key) && Kid(t.f, t.root, d) == null
      ensures !stop ==> Sub(t.f, t.root) < Sub(s.f, s.root)
      ensures (Before(d, k, Kid(s.f, s.root, d).key) ==> straight) ==> Searched(s, t, k, stop)
    {
      RootNoEdge(s, k);
      if straight {
        SearchedPair(s, k);
      } else if !Before(d, k, Kid(s.f, s.root, d).key) {
        SearchedSingle(s, k);
      }
      t, left1, right1, stop := s, left, right, false;
      if straight {
        Turn(s, k, node, left, right, root.Kid(d), d);
        t := s.Turn(d);
        RootNoEdge(t, k);
        if root.Kid(d) == null {
          stop := true;
          return;
        }
      }
      left1, right1 := Descend(t, k, node, left, right, d);
      t := t.Step(d.Opposite());
    }

    method Level(ghost s: Parts, k: int, node: Node, left: Node, right: Node)
      returns (ghost t: Parts, left1: Node, right1: Node, stop: bool)
      requires s.Good(k) && Apart(s, node, left, right) && s.root.key != k
      modifies this`root, s.f.Keys, node
      ensures t.Good(k) && Apart(t, node, left1, right1) && t.f.Keys == s.f.Keys
      ensures if stop then Near(s.f.Keys, t.root, k) else Sub(t.f, t.root) < Sub(s.f, s.root)
      ensures Searched(s, t, k, stop)
    {
      RootNoEdge(s, k);
      var d := if k < root.key then Left else Right;
      var tmp := root.Kid(d);
      t, left1, right1, stop := s, left, right, tmp == null;
      if !stop {
        t, left1, right1, stop := Round(s, k, node, left, right, d, Before(d, k, tmp.key));
      }
      if tmp == null {
        SearchedEnd(s, k);
      }
      if stop {
        Nearest(t, k, d);
      }
    }

    method Dive(k: int, node: Node) returns (ghost s: Parts, left: Node, right: Node, ghost rounds: nat)
      requires Valid() && root != null && node !in f && node.left == null && node.right == null
      modifies this`root, f.Keys, node
      ensures s.Good(k) && Apart(s, node, left, right) && s.f.Keys == f.Keys
      ensures Near(f.Keys, s.root, k) && Arrived(old(AsTree()), s, k, rounds)
    {
      s := Parts(f, root, null, null, null, null);
      left, right, rounds := node, node, 0;
      ghost var t := AsTree();
      assert s.Good(k);
      DivingFrom(f, root, k);
      while root.key != k
        invariant root != null && s.Good(k) && Apart(s, node, left, right) && s.f.Keys == f.Keys
        invariant Diving(t, s, k, rounds)
        decreases Sub(s.f, s.root)
      {
        var stop;
        ghost var u;
        u, left, right, stop := Level(s, k, node, left, right);
        DivingOn(t, s, u, k, rounds, stop);
        s, rounds := u, rounds + 1;
        if stop {
          return;
        }
      }
      DivingDone(t, s, k, rounds);
    }

    // In the long run a splay takes a number of rounds logarithmic in the size
    method Splay(k: int) returns (ghost rounds: nat)
      requires Valid() && root != null
      modifies this, f.Keys
      ensures Valid() && root != null && f.Keys == old(f.Keys) && Near(f.Keys, root, k)
      ensures Listing() == old(Listing())
      ensures AsTree() == Splayed(old(AsTree()), k) && rounds == Rounds(old(AsTree()), k)
    {
      var node := new Node(0);
      ghost var f0, root0 := f, root;
      ghost var s;
      var left, right;
      s, left, right, rounds := Dive(k, node);
      Assemble(s, k, node, left, right);
      SameListing(f0, root0, f, root);
    }

    // The way down to the first node (`d` is left) or the last
    method Plunge(ghost k: int, node: Node, d: Side)
        returns (ghost s: Parts, left: Node, right: Node, ghost rounds: nat)
      requires Valid() && root != null && node !in f && node.left == null && node.right == null
      requires forall n :: n in f ==> Before(d, k, n.key)
      modifies this`root, f.Keys, node
      ensures s.Good(k) && Apart(s, node, left, right) && s.f.Keys == f.Keys
      ensures forall n :: n in f ==> n == s.root || Before(d, s.root.key, n.key)
      ensures Arrived(old(AsTree()), s, k, rounds)
    {
      s := Parts(f, root, null, null, null, null);
      left, right, rounds := node, node, 0;
      ghost var t := AsTree();
      assert s.Good(k);
      DivingFrom(f, root, k);
      while true
        invariant root != null && s.Good(k) && Apart(s, node, left, right) && s.f.Keys == f.Keys
        invariant Diving(t, s, k, rounds)
        decreases Sub(s.f, s.root)
      {
        var stop;
        ghost var u;
        u, left, right, stop := Descent(s, k, node, left, right, d);
        DivingOn(t, s, u, k, rounds, stop);
        s, rounds := u, rounds + 1;
        if stop {
          Nearest(s, k, d);
          return;
        }
      }
    }

    // One round on the way to the first or last node
    method Descent(ghost s: Parts, ghost k: int, node: Node, left: Node, right: Node, d: Side)
        returns (ghost t: Parts, left1: Node, right1: Node, stop: bool)
      requires s.Good(k) && Apart(s, node, left, right) && forall n :: n in s.f ==> Before(d, k, n.key)
      modifies this`root, s.f.Keys, node
      ensures t.Good(k) && Apart(t, node, left1, right1) && t.f.Keys == s.f.Keys && Searched(s, t, k, stop)
      ensures if stop then t.root in t.f && Kid(t.f, t.root, d) == null else Sub(t.f, t.root) < Sub(s.f, s.root)
    {
      RootNoEdge(s, k);
      assert Ordered(s.f, s.root);
      var tmp := root.Kid(d);
      if tmp == null {
        SearchedEnd(s, k);
        return s, left, right, true;
      }
      t, left1, right1, stop := Round(s, k, node, left, right, d, true);
    }

    // The splay is the one towards `k`, a key beyond all others
    method MinMax(comp: int) returns (ghost k: int, ghost rounds: nat)
      requires Valid() && root != null && comp != 0
      modifies this, f.Keys
      ensures Valid() && root != null && f.Keys == old(f.Keys) && root in f
      ensures forall n :: n in f ==> if comp < 0 then root.key <= n.key else n.key <= root.key
      ensures Listing() == old(Listing())
      ensures forall n :: n in f ==> if comp < 0 then k < n.key else n.key < k
      ensures AsTree() == Outcome(old(AsTree()), Seek(k)) && rounds == Cost(old(AsTree()), Seek(k))
    {
      var d := if comp < 0 then Left else Right;
      ghost var f0, root0 := f, root;
      k := Beyond(f.Keys, d);
      rounds := SplayEnd(k, d);
      SameListing(f0, root0, f, root);
    }

    // The splay towards a key beyond all others
    method SplayEnd(ghost k: int, d: Side) returns (ghost rounds: nat)
      requires Valid() && root != null && forall n :: n in f ==> Before(d, k, n.key)
      modifies this, f.Keys
      ensures Valid() && root != null && f.Keys == old(f.Keys) && root in f
      ensures forall n :: n in f ==> n == root || Before(d, root.key, n.key)
      ensures AsTree() == Splayed(old(AsTree()), k) && rounds == Rounds(old(AsTree()), k)
    {
      var node := new Node(0);
      ghost var s;
      var left, right;
      s, left, right, rounds := Plunge(k, node, d);
      Assemble(s, k, node, left, right);
    }

    method Find(k: int) returns (r: Node?, ghost rounds: nat)
      requires Valid()
      modifies this, f.Keys
      ensures Valid() && f.Keys == old(f.Keys) && Listing() == old(Listing())
      ensures r != null ==> r in f && r.key == k && r == root
      ensures r == null ==> forall n :: n in f ==> n.key != k
      ensures AsTree() == Outcome(old(AsTree()), Seek(k)) && rounds == Cost(old(AsTree()), Seek(k))
    {
      rounds := 0;
      if root == null {
        return null, rounds;
      }
      rounds := Splay(k);
      if root.key == k {
        return root, rounds;
      }
      return null, rounds;
    }

    method Leftmost(b: Node) returns (e: Node)
      requires Valid() && b in f
      ensures e in f && e in Sub(f, b) && forall n :: n in Sub(f, b) ==> e.key <= n.key
    {
      e := b;
      assert Ordered(f, e);
      while e.left != null
        invariant e in f && e in Sub(f, b)
        invariant forall n :: n in Sub(f, b) && n !in Sub(f, e) ==> e.key < n.key
        decreases Sub(f, e)
      {
        assert Ordered(f, e) && Ordered(f, e.left);
        Nested(f, b, e);
        e := e.left;
      }
      assert Ordered(f, e);
    }

    // SPLAY_NEXT
    method Next(elm: Node) returns (r: Node?, ghost rounds: nat)
      requires Valid() && elm in f
      modifies this, f.Keys
      ensures Valid() && f.Keys == old(f.Keys) && Listing() == old(Listing())
      ensures r == null ==> forall n :: n in f ==> n.key <= elm.key
      ensures r != null ==> r in f && elm.key < r.key && forall n :: n in f ==> n.key <= elm.key || r.key <= n.key
      ensures root == elm
      ensures AsTree() == Outcome(old(AsTree()), Seek(elm.key)) && rounds == Cost(old(AsTree()), Seek(elm.key))
    {
      rounds := Splay(elm.key);
      assert Ordered(f, root) && root == elm;
      if elm.right == null {
        return null, rounds;
      }
      r := Leftmost(elm.right);
    }

    // The node next to the key becomes the kid of the new root
    method Crown(elm: Node, d: Side)
      requires Valid() && root != null && elm !in f && Before(d, elm.key, root.key) && Near(f.Keys, root, elm.key)
      modifies this, f.Keys, elm
      ensures root == old(root) && Models() && Shape(f) && f.Keys == old(f.Keys) + {elm} && IsRoot(f, elm)
              && f[elm].sub == f.Keys
      ensures f == Crowned(old(f), old(root), d, elm)
    {
      CrownSite(f, root, d, elm);
      CrownedShape(f, root, d, elm);
      ghost var h := Crowned(f, root, d, elm);
      if d == Left {
        elm.left := root.left;
        elm.right := root;
        root.left := null;
      } else {
        elm.right := root.right;
        elm.left := root;
        root.right := null;
      }
      forall n | n in h
        ensures n.left == h[n].left && n.right == h[n].right
      {
        if n == elm {} else if n == root {} else {}
      }
      f := h;
    }

    // The key is searched for; if it is not there, the new node comes to the root
    method Place(elm: Node) returns (r: Node?, ghost rounds: nat)
      requires Valid() && root != null
      modifies this, f.Keys, elm
      ensures Valid()
      ensures r != null ==> r in old(f.Keys) && r.key == elm.key && f.Keys == old(f.Keys) && Listing() == old(Listing())
      ensures r == null ==>
              (forall n :: n in old(f.Keys) ==> n.key != elm.key) && f.Keys == old(f.Keys) + {elm} && root == elm
      ensures AsTree() == Outcome(old(AsTree()), Put(elm)) && rounds == Cost(old(AsTree()), Put(elm))
    {
      rounds := Splay(elm.key);
      if elm.key == root.key {
        return root, rounds;
      }
      var d := if elm.key < root.key then Left else Right;
      CrownSite(f, root, d, elm);
      CrownedTree(f, root, d, elm);
      Crown(elm, d);
      root := elm;
      return null, rounds;
    }

    method Insert(elm: Node) returns (r: Node?, ghost rounds: nat)
      requires Valid()
      modifies this, f.Keys, elm
      ensures Valid()
      ensures r != null ==> r in old(f.Keys) && r.key == elm.key && f.Keys == old(f.Keys) && Listing() == old(Listing())
      ensures r == null ==>
              (forall n :: n in old(f.Keys) ==> n.key != elm.key) && f.Keys == old(f.Keys) + {elm} && root == elm
      ensures r == null ==> PutIn(old(Listing()), elm, Listing())
      ensures AsTree() == Outcome(old(AsTree()), Put(elm)) && rounds == Cost(old(AsTree()), Put(elm))
    {
      ghost var f0, root0 := f, root;
      if root == null {
        Plant(elm);
        r, rounds := null, 0;
      } else {
        r, rounds := Place(elm);
      }
      if r == null {
        SameButOne(f0, root0, f, root, elm);
      }
    }

    method Plant(elm: Node)
      requires Valid() && root == null
      modifies this, elm
      ensures Valid() && root == elm && f.Keys == {elm}
      ensures old(AsTree()).Leaf? && AsTree() == Branch(Leaf, elm, Leaf)
    {
      elm.left, elm.right := null, null;
      f := map[elm := Cell(null, null, {elm})];
      root := elm;
      OnlyNode(f, elm);
    }

    // The root has no left subtree: the right one is left
    method Shift()
      requires Valid() && root != null && root.left == null
      modifies this
      ensures Valid() && f.Keys == old(f.Keys) - {old(root)}
      ensures old(AsTree()).Branch? && AsTree() == old(AsTree()).right
    {
      RightOnlyShape(f, root);
      ToTreeArm(f, root, Right);
      if root.right != null {
        RestrictedShape(f, root.right);
        RestrictedTree(f, root.right);
      }
      f := Restricted(f, f.Keys - {root});
      root := root.right;
    }

    // The other subtree of the lost root `x` goes to the right of the new root
    method Adopt(ghost g: Forest, ghost x: Node, tmp: Node?)
      requires Shape(g) && IsRoot(g, x) && g[x].sub == g.Keys && g[x].left != null && g[x].right == tmp
      requires Valid() && root != null && f.Keys == Sub(g, g[x].left) && forall n :: n in f ==> n.key <= root.key
      requires forall n :: n in g && n !in f && n != x ==> n.left == g[n].left && n.right == g[n].right
      modifies this`f, root`right
      ensures Valid() && f.Keys == g.Keys - {x}
      ensures old(AsTree()).Branch? && ToTree(g, x).Branch?
      ensures AsTree() == Branch(old(AsTree()).left, root, ToTree(g, x).right)
    {
      BeheadedTree(g, x, f, root);
      BeheadedShape(g, x, f, root);
      MergedShape(g, x, f, root);
      ghost var h := Beheaded(g, x, f, root);
      root.right := tmp;
      forall n | n in h
        ensures n.left == h[n].left && n.right == h[n].right
      {
        if n == root {} else if n in f {} else {}
      }
      f := h;
    }

    // The root has a left subtree: its last node takes over
    method Behead() returns (ghost rounds: nat)
      requires Valid() && root != null && root.left != null
      modifies this, f.Keys
      ensures Valid() && f.Keys == old(f.Keys) - {old(root)}
      ensures var t, k := old(AsTree()), old(root).key;
              t.Branch? && t.left.Branch? && AsTree() == Beheading(t, k) && rounds == Rounds(t.left, k)
    {
      ghost var g, x := f, root;
      var k, tmp := root.key, root.right;
      assert Ordered(f, root);
      ToTreeArm(f, root, Left);
      RestrictedShape(f, root.left);
      RestrictedTree(f, root.left);
      root := root.left;
      f := Restricted(f, f[root].sub);
      rounds := Splay(k);
      Adopt(g, x, tmp);
    }

    // The root goes
    method Drop() returns (ghost rounds: nat)
      requires Valid() && root != null
      modifies this, f.Keys
      ensures Valid() && f.Keys == old(f.Keys) - {old(root)}
      ensures var t, k := old(AsTree()), old(root).key;
              t.Branch? && AsTree() == Dropped(t, k) && rounds == DropRounds(t, k)
    {
      ToTreeArm(f, root, Left);
      if root.left == null {
        Shift();
        rounds := 0;
      } else {
        rounds := Behead();
      }
    }

    // The node with the key of `elm`, if there is one, goes
    method Displace(elm: Node) returns (found: bool, ghost x: Node, ghost rounds: nat)
      requires Valid() && root != null
      modifies this, f.Keys
      ensures Valid()
      ensures !found ==>
              (forall n :: n in old(f.Keys) ==> n.key != elm.key) && f.Keys == old(f.Keys)
                  && Listing() == old(Listing())
      ensures found ==> x in old(f.Keys) && x.key == elm.key && f.Keys == old(f.Keys) - {x}
      ensures AsTree() == Outcome(old(AsTree()), Take(elm)) && rounds == Cost(old(AsTree()), Take(elm))
    {
      rounds := Splay(elm.key);
      x := root;
      if elm.key != root.key {
        return false, x, rounds;
      }
      ghost var more := Drop();
      return true, x, rounds + more;
    }

    method Remove(elm: Node) returns (r: Node?, ghost rounds: nat)
      requires Valid()
      modifies this, f.Keys
      ensures Valid()
      ensures r == null ==>
              (forall n :: n in old(f.Keys) ==> n.key != elm.key) && f.Keys == old(f.Keys)
              && Listing() == old(Listing())
      ensures r != null ==> r == elm && exists x :: Lost(old(f.Keys), old(Listing()), x, elm.key, f.Keys, Listing())
      ensures AsTree() == Outcome(old(AsTree()), Take(elm)) && rounds == Cost(old(AsTree()), Take(elm))
    {
      if root == null {
        return null, 0;
      }
      ghost var f0, root0 := f, root;
      var found;
      ghost var x;
      found, x, rounds := Displace(elm);
      if !found {
        return null, rounds;
      }
      assert Sub(f, root) == f.Keys && Sub(f0, root0) == f0.Keys;
      SameButOne(f, root, f0, root0, x);
      assert Lost(old(f.Keys), old(Listing()), x, elm.key, f.Keys, Listing());
      return elm, rounds;
    }

    // ---- sequences of operations ----

    method Perform(op: Operation) returns (ghost rounds: nat)
      requires Valid()
      modifies this, f.Keys, op.Nodes()
      ensures Valid() && f.Keys <= old(f.Keys) + op.Nodes()
      ensures AsTree() == Outcome(old(AsTree()), op) && rounds == Cost(old(AsTree()), op)
    {
      var r;
      match op
      case Put(n) =>
        r, rounds := Insert(n);
      case Take(n) =>
        r, rounds := Remove(n);
      case Seek(k) =>
        r, rounds := Find(k);
    }

    method PerformAll(ops: seq<Operation>) returns (ghost rounds: nat)
      requires Valid()
      modifies this, f.Keys, AllNodes(ops)
      ensures Valid() && f.Keys <= old(f.Keys) + AllNodes(ops)
      ensures AsTree() == OutcomeAll(old(AsTree()), ops) && rounds == Total(old(AsTree()), ops)
      decreases |ops|
    {
      if ops == [] {
        return 0;
      }
      ghost var t := AsTree();
      rounds := PerformFirst(ops);
      ghost var more := PerformAll(ops[1..]);
      FirstNodes(ops);
      rounds := rounds + more;
      AfterFirst(t, ops);
    }

    method PerformFirst(ops: seq<Operation>) returns (ghost rounds: nat)
      requires Valid() && ops != []
      modifies this, f.Keys, AllNodes(ops)
      ensures Valid() && f.Keys <= old(f.Keys) + AllNodes(ops) && AllNodes(ops[1..]) <= AllNodes(ops)
      ensures AsTree() == Outcome(old(AsTree()), ops[0]) && rounds == Cost(old(AsTree()), ops[0])
    {
      FirstNodes(ops);
      rounds := Perform(ops[0]);
    }

    // From the empty tree on, `m` operations of which `n` insert take at most `m * (4 + 6 * lg (n + 1))` rounds, with
    // the logarithm rounded up
    static method Serve(ops: seq<Operation>, ghost e: nat) returns (h: Head, ghost rounds: nat)
      requires Puts(ops) + 1 <= Pow2(e)
      modifies AllNodes(ops)
      ensures h.Valid() && h.AsTree() == OutcomeAll(Leaf, ops)
      ensures rounds == Total(Leaf, ops) && rounds <= (4 + 6 * e) * |ops|
    {
      h := new Head();
      rounds := h.PerformAll(ops);
      Amortised(ops, e);
    }
  }

  lemma AfterFirst(t: Tree, ops: seq<Operation>)
    requires ops != []
    ensures OutcomeAll(t, ops) == OutcomeAll(Outcome(t, ops[0]), ops[1..])
    ensures Total(t, ops) == Cost(t, ops[0]) + Total(Outcome(t, ops[0]), ops[1..])
  {
  }

  ghost function AllNodes(ops: seq<Operation>): set<Node> {
    set i, n | 0 <= i < |ops| && n in ops[i].Nodes() :: n
  }

  lemma FirstNodes(ops: seq<Operation>)
    requires ops != []
    ensures AllNodes(ops) == ops[0].Nodes() + AllNodes(ops[1..])
  {
    forall n | n in AllNodes(ops)
      ensures n in ops[0].Nodes() + AllNodes(ops[1..])
    {
      var i :| 0 <= i < |ops| && n in ops[i].Nodes();
      assert i > 0 ==> ops[1..][i - 1] == ops[i];
    }
    forall n | n in AllNodes(ops[1..])
      ensures n in AllNodes(ops)
    {
      var i :| 0 <= i < |ops| - 1 && n in ops[1..][i].Nodes();
      assert ops[i + 1] == ops[1..][i];
    }
  }

  /** The node `x` with key `k`, and no other, is gone. */
  ghost predicate Lost(before: set<Node>, list: seq<Node>, x: Node, k: int, after: set<Node>, rest: seq<Node>) {
    x in before && x.key == k && after == before - {x} && PutIn(rest, x, list)
  }
}
