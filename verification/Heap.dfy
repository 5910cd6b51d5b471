// A binary min heap over linked nodes: nodes change places by relinking.
module Heap {
  import opened HeapShape
  import opened Lists

  // What a pointer to a link points to
  datatype Slot = Top | LeftOf(node: Node) | RightOf(node: Node)

  class MinHeap {
    var min: Node?
    var nelts: nat
    ghost var s: seq<Node>

    constructor ()
      ensures Valid() && s == [] && nelts == 0
    {
      min, nelts, s := null, 0, [];
    }

    ghost predicate Models()
      reads this, s
    {
      NoDup(s) && min == At(s, 1) && AllLinked(s)
    }

    ghost predicate Valid()
      reads this, s
    {
      Models() && nelts == |s| && MinOrder(s)
    }

    ghost function Nodes(): set<Node>
      reads this
    {
      set n | n in s
    }

    // ---- swapping a node with its kid ----

    /** The nodes whose links a swap changes are different ones. */
    ghost predicate Separate(parent: Node, child: Node, sibling: Node?, left: Node?, right: Node?, up: Node?)
      reads this, Some(up)
    {
      && parent != child && parent !in {sibling, left, right, up} && child !in {sibling, left, right, up}
      && (sibling != null ==> sibling !in {left, right, up})
      && (left != null ==> left !in {right, up}) && (right != null ==> right != up)
      && (up != null ==> (up.left == parent) != (up.right == parent))
    }

    method Relink(parent: Node, child: Node, ghost sibling: Node?, ghost left: Node?, ghost right: Node?,
        ghost up: Node?, ghost onLeft: bool)
      requires child.left == left && child.right == right && parent.parent == up
      requires parent.left == (if onLeft then child else sibling) && parent.right == (if onLeft then sibling else child)
      requires Separate(parent, child, sibling, left, right, up)
      modifies this`min, {parent, child}`left, {parent, child}`right, {parent, child}`parent
      modifies Some(sibling)`parent, Some(left)`parent, Some(right)`parent, Some(up)`left, Some(up)`right
      ensures child.left == (if onLeft then parent else sibling)
              && child.right == (if onLeft then sibling else parent) && child.parent == up
      ensures parent.left == left && parent.right == right && parent.parent == child
      ensures (sibling != null ==> sibling.parent == child) && (left != null ==> left.parent == parent)
              && (right != null ==> right.parent == parent)
      ensures up != null ==>
              min == old(min) &&
              if old(up.left) == parent then up.left == child && up.right == old(up.right)
              else up.left == old(up.left) && up.right == child
      ensures up == null ==> min == child
    {
      var other;
      var pl, pr, pp := parent.left, parent.right, parent.parent;
      parent.left, parent.right, parent.parent := child.left, child.right, child.parent;
      child.left, child.right, child.parent := pl, pr, pp;
      parent.parent := child;
      if child.left == child {
        child.left := parent;
        other := child.right;
      } else {
        child.right := parent;
        other := child.left;
      }
      if other != null {
        other.parent := child;
      }
      if parent.left != null {
        parent.left.parent := parent;
      }
      if parent.right != null {
        parent.right.parent := parent;
      }
      if child.parent == null {
        min := child;
      } else if child.parent.left == parent {
        child.parent.left := child;
      } else {
        child.parent.right := child;
      }
    }

    lemma SwapSite(p: int, c: int)
      requires Models() && 1 <= p && 2 <= c <= |s| && c / 2 == p
      ensures Separate(At(s, p), At(s, c), At(s, if c == 2 * p then c + 1 else c - 1), At(s, 2 * c), At(s, 2 * c + 1),
              At(s, p / 2))
    {
      assert Linked(s, p) && Linked(s, c);
      if p / 2 >= 1 {
        assert Linked(s, p / 2);
      }
    }

    method NodeSwap(parent: Node, child: Node, ghost p: int, ghost c: int)
      requires Models() && 1 <= p && 2 <= c <= |s| && c / 2 == p && s[p - 1] == parent && s[c - 1] == child
      modifies this`min, this`s, Nodes()
      ensures Models() && s == old(Swapped(s, p, c))
    {
      ghost var s0, t := s, Swapped(s, p, c);
      SwapSite(p, c);
      SwappedNodes(s0, p, c);
      assert Linked(s0, p) && Linked(s0, c);
      ghost var b := if c == 2 * p then c + 1 else c - 1;
      Relink(parent, child, At(s0, b), At(s0, 2 * c), At(s0, 2 * c + 1), At(s0, p / 2), c == 2 * p);
      forall q | 1 <= q <= |t|
        ensures Linked(t, q)
      {
        assert old(Linked(s0, q));
        SwapLinks(s0, p, c, q);
        if q != p && q != c {
          var n := s0[q - 1];
          assert t[q - 1] == n && n != parent && n != child;
          assert n.left == At(t, 2 * q) && n.right == At(t, 2 * q + 1);
          if q == b {} else if q / 2 == c {} else {}
        }
      }
      s := t;
    }

    // ---- slots ----

    function Read(slot: Slot): Node?
      reads this, if slot == Top then {} else {slot.node}
    {
      match slot
      case Top => min
      case LeftOf(n) => n.left
      case RightOf(n) => n.right
    }

    method Write(slot: Slot, n: Node?)
      modifies this`min, if slot.LeftOf? then {slot.node} else {}`left, if slot.RightOf? then {slot.node} else {}`right
      ensures Read(slot) == n
      ensures !slot.Top? ==> min == old(min)
    {
      match slot
      case Top => min := n;
      case LeftOf(m) => m.left := n;
      case RightOf(m) => m.right := n;
    }

    // The way from the first slot to slot `last` and to the one above it
    method Locate(last: nat) returns (parent: Slot, child: Slot)
      requires Models() && 1 <= last <= |s| + 1 && last < 0x1_0000_0000
      ensures child == SlotAt(s, last) && parent == if last == 1 then Top else SlotAt(s, last / 2)
    {
      var path, k := PathTo(last);
      ghost var p := 1;
      parent, child := Top, Top;
      while k > 0
        invariant 1 <= p <= last && Follow(p, path, k) == last && child == SlotAt(s, p)
        invariant parent == if p == 1 then Top else SlotAt(s, p / 2)
      {
        FollowDown(2 * p + path % 2, path / 2, k - 1);
        assert Linked(s, p);
        if p >= 2 {
          assert Linked(s, p / 2);
        }
        parent := child;
        var node := Read(child);
        if path % 2 == 1 {
          child := RightOf(node);
        } else {
          child := LeftOf(node);
        }
        p := 2 * p + path % 2;
        path := path / 2;
        k := k - 1;
      }
    }

    // The new node is linked into the first free slot
    method Fill(newnode: Node, parent: Slot, child: Slot)
      requires Models() && newnode !in s && newnode.left == null && newnode.right == null
      requires child == SlotAt(s, |s| + 1) && parent == if |s| == 0 then Top else SlotAt(s, (|s| + 1) / 2)
      modifies this`min, this`s, Nodes(), newnode
      ensures Models() && s == old(s) + [newnode]
    {
      ghost var s0, u := s, (|s| + 1) / 2;
      ghost var t := s0 + [newnode];
      NoDupJoin(s0, [newnode]);
      if u >= 1 {
        assert Linked(s0, u);
      }
      if u / 2 >= 1 {
        assert Linked(s0, u / 2);
      }
      newnode.parent := Read(parent);
      assert newnode.parent == At(s0, u);
      Write(child, newnode);
      forall q | 1 <= q <= |t|
        ensures Linked(t, q)
      {
        if q < |t| {
          assert old(Linked(s, q));
          AppendLinks(s0, newnode, q);
          if q == u {} else {}
        }
      }
      s := t;
    }

    method Attach(newnode: Node)
      requires Models() && newnode !in s && nelts == |s| && |s| + 1 < 0x1_0000_0000
      modifies this, Nodes(), newnode
      ensures Models() && s == old(s) + [newnode] && nelts == |s|
    {
      newnode.left, newnode.right, newnode.parent := null, null, null;
      assert AllLinked(s) by {
        forall p | 1 <= p <= |s|
          ensures Linked(s, p)
        {
          assert old(Linked(s, p));
        }
      }
      var parent, child := Locate(1 + nelts);
      Fill(newnode, parent, child);
      nelts := nelts + 1;
    }

    // Up towards the root while the node comes before its parent
    method SiftUp(node: Node, ghost at: int)
      requires Models() && Rising(s, at) && s[at - 1] == node
      modifies this`min, this`s, Nodes()
      ensures Models() && MinOrder(s) && |s| == |old(s)| && Nodes() == old(Nodes())
    {
      ghost var c := at;
      assert Linked(s, c);
      while node.parent != null && node.key < node.parent.key
        invariant Models() && Rising(s, c) && s[c - 1] == node && |s| == |old(s)| && Nodes() == old(Nodes())
            && Linked(s, c)
        decreases c
      {
        Rise(s, c);
        SwappedNodes(s, c / 2, c);
        NodeSwap(node.parent, node, c / 2, c);
        c := c / 2;
        assert Linked(s, c);
      }
      Risen(s, c);
    }

    method Insert(newnode: Node)
      requires Valid() && newnode !in s && nelts + 1 < 0x1_0000_0000
      modifies this, Nodes(), newnode
      ensures Valid() && Nodes() == old(Nodes()) + {newnode}
    {
      ghost var t := s;
      Attach(newnode);
      Attached(t, newnode);
      assert Nodes() == old(Nodes()) + {newnode};
      SiftUp(newnode, |s|);
    }

    // The first node is a least one
    lemma LeastFirst()
      requires Valid()
      ensures min == null <==> Nodes() == {}
      ensures min != null ==> min in Nodes() && forall n :: n in Nodes() ==> min.key <= n.key
    {
      if min == null {
        assert s == [];
      } else {
        assert min == s[0] && min in Nodes();
        forall n | n in s
          ensures min.key <= n.key
        {
          var i :| 0 <= i < |s| && s[i] == n;
          FirstLeast(s, i + 1);
        }
      }
    }

    method Min() returns (r: Node?)
      requires Valid()
      ensures r == min && (r == null <==> Nodes() == {})
      ensures r != null ==> r in Nodes() && forall n :: n in Nodes() ==> r.key <= n.key
    {
      LeastFirst();
      return min;
    }

    // ---- removal ----

    method UnlinkLast() returns (child: Node)
      requires Models() && nelts == |s| && 1 <= |s| < 0x1_0000_0000
      modifies this, Nodes()
      ensures Models() && nelts == |s| && s + [child] == old(s) && child !in s
    {
      ghost var n, t := |s|, s[..|s| - 1];
      ghost var u := n / 2;
      var _, max := Locate(nelts);
      if u >= 1 {
        assert Linked(s, u);
      }
      nelts := nelts - 1;
      child := Read(max);
      Write(max, null);
      forall q | 1 <= q <= |t|
        ensures Linked(t, q)
      {
        assert old(Linked(s, q));
        if q == u {} else {}
      }
      s := t;
    }

    // `child` takes over the links of `node`
    method Supplant(node: Node, child: Node, ghost left: Node?, ghost right: Node?, ghost up: Node?)
      requires node.left == left && node.right == right && node.parent == up
      requires node != child && node !in {left, right, up} && child !in {left, right, up}
      requires left != null ==> left !in {right, up}
      requires right != null ==> right != up
      requires up != null ==> (up.left == node) != (up.right == node)
      modifies this`min, child, Some(left)`parent, Some(right)`parent, Some(up)`left, Some(up)`right
      ensures child.left == left && child.right == right && child.parent == up
      ensures (left != null ==> left.parent == child) && (right != null ==> right.parent == child)
      ensures up != null ==>
              min == old(min) &&
              if old(up.left) == node then up.left == child && up.right == old(up.right)
              else up.left == old(up.left) && up.right == child
      ensures up == null ==> min == child
    {
      child.left := node.left;
      child.right := node.right;
      child.parent := node.parent;
      if child.left != null {
        child.left.parent := child;
      }
      if child.right != null {
        child.right.parent := child;
      }
      if node.parent == null {
        min := child;
      } else if node.parent.left == node {
        node.parent.left := child;
      } else {
        node.parent.right := child;
      }
    }

    method TakePlace(node: Node, child: Node, ghost q: int)
      requires Models() && 1 <= q <= |s| && s[q - 1] == node && child !in s
      modifies this`min, this`s, Nodes(), child
      ensures Models() && s == old(s)[q - 1 := child]
    {
      ghost var s0, t := s, s[q - 1 := child];
      assert Linked(s0, q);
      if q / 2 >= 1 {
        assert Linked(s0, q / 2);
      }
      Supplant(node, child, At(s0, 2 * q), At(s0, 2 * q + 1), At(s0, q / 2));
      forall p | 1 <= p <= |t|
        ensures Linked(t, p)
      {
        assert old(Linked(s0, p));
        if p == q {} else if p == q / 2 {} else if p == 2 * q {} else if p == 2 * q + 1 {} else {}
      }
      s := t;
    }

    // Down while a kid comes before the node; the smallest kid moves up
    method SiftDown(child: Node, ghost at: int) returns (ghost c: int)
      requires Models() && Sinking(s, at) && s[at - 1] == child
      modifies this`min, this`s, Nodes()
      ensures Models() && Rising(s, c) && s[c - 1] == child && |s| == |old(s)| && Nodes() == old(Nodes())
    {
      c := at;
      ghost var count, all := |s|, Nodes();
      while true
        invariant Models() && Sinking(s, c) && s[c - 1] == child && |s| == count && Nodes() == all
        decreases count - c
      {
        assert Linked(s, c);
        var smallest := child;
        ghost var m := c;
        if child.left != null && child.left.key < smallest.key {
          smallest := child.left;
          m := 2 * c;
        }
        if child.right != null && child.right.key < smallest.key {
          smallest := child.right;
          m := 2 * c + 1;
        }
        if smallest == child {
          Sunk(s, c);
          break;
        }
        Sink(s, c, m);
        SwappedNodes(s, c, m);
        NodeSwap(child, smallest, c, m);
        c := m;
      }
    }

    method Remove(node: Node?)
      requires Valid() && nelts < 0x1_0000_0000 && (nelts > 0 ==> node in s)
      modifies this, Nodes()
      ensures Valid() && Nodes() == old(Nodes()) - {node}
    {
      if nelts == 0 {
        return;
      }
      ghost var s0 := s;
      var child := UnlinkLast();
      Unlinked(s0, s, child);
      if child == node {
        assert child != min;
        min := if child == min then null else min;
        return;
      }
      ghost var q := PlaceOf(s, node);
      Replaced(s, q, child);
      TakePlace(node, child, q);
      ghost var c := SiftDown(child, q);
      SiftUp(child, c);
    }

    method Dequeue()
      requires Valid() && nelts < 0x1_0000_0000
      modifies this, Nodes()
      ensures Valid()
      ensures if old(min) == null then old(Nodes()) == {} == Nodes()
              else old(min) in old(Nodes()) && Nodes() == old(Nodes()) - {old(min)}
      ensures old(min) != null ==> forall n :: n in old(Nodes()) ==> old(min).key <= n.key
    {
      LeastFirst();
      assert nelts > 0 ==> s[0] in Nodes();
      Remove(min);
    }
  }

  /** The slot that holds, or will hold, the node at `p`. */
  ghost function SlotAt(s: seq<Node>, p: int): Slot
    requires 1 <= p && p / 2 <= |s|
  {
    if p == 1 then Top else if p % 2 == 0 then LeftOf(s[p / 2 - 1]) else RightOf(s[p / 2 - 1])
  }

  ghost function Some(n: Node?): set<Node> { if n == null then {} else {n} }
}
