// A splay tree taken apart on the way down: the tree of what lies before the key, the tree of what lies
// after it, and between them what is still to be searched.
module SplayParts {
  import opened Listings
  import opened SplayForest

  // For each flank the root of its tree and the node nearest to the key, whose kid towards the key is free
  datatype Parts = Parts(f: Forest, root: Node, leftTop: Node?, leftEdge: Node?, rightTop: Node?, rightEdge: Node?) {
    ghost function Top(d: Side): Node? { if d == Left then leftTop else rightTop }
    ghost function Edge(d: Side): Node? { if d == Left then leftEdge else rightEdge }
    ghost function SetFlank(d: Side, top: Node?, edge: Node?): Parts {
      if d == Left then this.(leftTop := top, leftEdge := edge) else this.(rightTop := top, rightEdge := edge)
    }

    ghost predicate Flank(d: Side, k: int) {
      if Top(d) == null then Edge(d) == null else FlankAt(d, k, Top(d), Edge(d))
    }

    ghost predicate FlankAt(d: Side, k: int, top: Node, edge: Node?) {
      && IsRoot(f, top) && edge != null && edge in f && edge in Sub(f, top) && Kid(f, edge, d.Opposite()) == null
      && (forall n :: n in Sub(f, top) ==> n == edge || Before(d, n.key, edge.key))
      && Before(d, edge.key, k)
      && (forall n :: n in Sub(f, root) ==> Before(d, edge.key, n.key))
    }

    ghost predicate Good(k: int) {
      && Shape(f) && IsRoot(f, root) && Flank(Left, k) && Flank(Right, k)
      && f.Keys == Sub(f, root) + Sub(f, leftTop) + Sub(f, rightTop)
    }

    // SPLAY_LINKLEFT and SPLAY_LINKRIGHT: the root goes to flank `d`, the search goes on in its kid towards the key
    ghost function Step(d: Side): Parts
      requires root in f && (Kid(f, root, d.Opposite()) != null) && (Edge(d) != null ==> Edge(d) in f)
    {
      var o := d.Opposite();
      var c := Cut(f, root, o);
      var s := this.(root := Kid(f, root, o));
      if Edge(d) == null then s.(f := c).SetFlank(d, root, root)
      else s.(f := Link(c, Edge(d), o, root)).SetFlank(d, Top(d), root)
    }

    ghost function Turn(d: Side): Parts
      requires root in f && Kid(f, root, d) != null && Kid(f, root, d) in f
    {
      this.(f := Rotate(f, root, d), root := Kid(f, root, d))
    }

    // One half of SPLAY_ASSEMBLE
    ghost function Join(d: Side): Parts
      requires root in f && (Edge(d) != null ==> Edge(d) in f)
    {
      var o, a := d.Opposite(), Kid(f, root, d);
      if Edge(d) == null || Top(d) == null then this else
      var c := Cut(f, root, d);
      var l := if a != null && a in f then Link(c, Edge(d), o, a) else c;
      this.(f := if Top(d) in l then Link(l, root, d, Top(d)) else l).SetFlank(d, null, null)
    }
  }

  // Only its own flank holds the edge
  lemma Owner(s: Parts, k: int, d: Side, n: Node)
    requires s.Good(k) && s.Edge(d) != null && n in s.f && s.Edge(d) in s.f[n].sub
    ensures n in Sub(s.f, s.Top(d))
  {
    var e := s.Edge(d);
    if n in Sub(s.f, s.root) {
      Nested(s.f, s.root, n);
    } else if n in Sub(s.f, s.Top(d.Opposite())) {
      Nested(s.f, s.Top(d.Opposite()), n);
    }
  }

  lemma TurnGood(s: Parts, k: int, d: Side)
    requires s.Good(k) && Kid(s.f, s.root, d) != null
    ensures Kid(s.f, s.root, d) in s.f && s.Turn(d).Good(k)
    ensures s.Turn(d).f.Keys == s.f.Keys && Sub(s.Turn(d).f, s.Turn(d).root) == Sub(s.f, s.root)
  {
    RotateShape(s.f, s.root, d);
    assert Ordered(s.f, s.root) && Ordered(s.f, Kid(s.f, s.root, d));
    if s.leftEdge != null {
      RotateKids(s.f, s.root, d, s.leftEdge, Right);
    }
    if s.rightEdge != null {
      RotateKids(s.f, s.root, d, s.rightEdge, Left);
    }
  }

  // What hanging the root, cut loose on its other side, on the edge of flank `d` relies on
  lemma LinkSite(s: Parts, k: int, d: Side)
    requires s.Good(k) && Kid(s.f, s.root, d.Opposite()) != null && s.Edge(d) != null
    ensures var c, e, o := Cut(s.f, s.root, d.Opposite()), s.Edge(d), d.Opposite();
            Shape(c) && e in c && IsRoot(c, s.root) && Kid(c, e, o) == null && e !in Sub(c, s.root)
    ensures var c, e, o := Cut(s.f, s.root, d.Opposite()), s.Edge(d), d.Opposite();
            forall n, m :: n in c && e in c[n].sub && m in Sub(c, s.root) ==> Before(o, m.key, n.key)
    ensures var c, e, o := Cut(s.f, s.root, d.Opposite()), s.Edge(d), d.Opposite();
            forall n :: n in c && e in c[n].sub ==> n == e || Before(o, e.key, n.key)
  {
    var c, e := Cut(s.f, s.root, d.Opposite()), s.Edge(d);
    CutShape(s.f, s.root, d.Opposite());
    assert Ordered(s.f, s.root);
    forall n | n in c && e in c[n].sub
      ensures n in Sub(s.f, s.Top(d))
    {
      Owner(s, k, d, n);
    }
  }

  lemma StepShape(s: Parts, k: int, d: Side)
    requires s.Good(k) && Kid(s.f, s.root, d.Opposite()) != null
    ensures Kid(s.f, s.root, d.Opposite()) in s.f
    ensures var t := s.Step(d);
            Shape(t.f) && t.f.Keys == s.f.Keys && IsRoot(t.f, t.root)
            && Sub(t.f, t.root) == Sub(s.f, t.root)
    ensures var t, o := s.Step(d), d.Opposite();
            s.Top(o) != null ==> IsRoot(t.f, s.Top(o)) && Sub(t.f, s.Top(o)) == Sub(s.f, s.Top(o))
  {
    CutShape(s.f, s.root, d.Opposite());
    assert Ordered(s.f, s.root);
    if s.Edge(d) != null {
      LinkSite(s, k, d);
      LinkShape(Cut(s.f, s.root, d.Opposite()), s.Edge(d), d.Opposite(), s.root);
    }
  }

  lemma StepKids(s: Parts, k: int, d: Side, n: Node, t: Side)
    requires s.Good(k) && Kid(s.f, s.root, d.Opposite()) != null && n in s.f
    ensures n in s.Step(d).f && Kid(s.Step(d).f, n, t) == if n == s.root && t == d.Opposite() then null
            else if n == s.Edge(d) && t == d.Opposite() then s.root else Kid(s.f, n, t)
  {
    assert Ordered(s.f, s.root);
  }

  // The cells after a step, but for the links that will be free
  lemma StepCell(s: Parts, k: int, d: Side, n: Node)
    requires s.Good(k) && Kid(s.f, s.root, d.Opposite()) != null && n in s.f
    ensures n in s.Step(d).f
    ensures var c, t := s.f[n], s.Step(d).f[n];
            if d == Left then
              t.left == c.left && (n != s.root ==> t.right == if n == s.leftEdge then s.root else c.right)
            else
              t.right == c.right && (n != s.root ==> t.left == if n == s.rightEdge then s.root else c.left)
  {
    StepKids(s, k, d, n, Left);
    StepKids(s, k, d, n, Right);
  }

  // The other flank is not touched
  lemma StepFarFlank(s: Parts, k: int, d: Side)
    requires s.Good(k) && Kid(s.f, s.root, d.Opposite()) != null
    ensures s.Step(d).Flank(d.Opposite(), k)
  {
    StepShape(s, k, d);
    assert Ordered(s.f, s.root);
    RootNoEdge(s, k);
    if s.Edge(d.Opposite()) != null {
      StepKids(s, k, d, s.Edge(d.Opposite()), d);
    }
  }

  // The root becomes the edge of its flank, which is empty
  lemma StepNewFlank(s: Parts, k: int, d: Side)
    requires s.Good(k) && Kid(s.f, s.root, d.Opposite()) != null && Before(d, s.root.key, k) && s.Edge(d) == null
    ensures var t := s.Step(d);
            t.Flank(d, k) && t.Top(d) != null
            && Sub(t.f, t.Top(d)) == {s.root} + Sub(s.f, Kid(s.f, s.root, d))
  {
    StepShape(s, k, d);
    assert Ordered(s.f, s.root);
    CutShape(s.f, s.root, d.Opposite());
  }

  // The forest after a step to a flank that is not empty
  lemma StepLinked(s: Parts, k: int, d: Side)
    requires s.Good(k) && Kid(s.f, s.root, d.Opposite()) != null && s.Edge(d) != null
    ensures var t := s.Step(d);
            IsRoot(t.f, s.Top(d))
            && Sub(t.f, s.Top(d)) == Sub(s.f, s.Top(d)) + {s.root} + Sub(s.f, Kid(s.f, s.root, d))
  {
    var o := d.Opposite();
    assert Ordered(s.f, s.root);
    CutShape(s.f, s.root, o);
    LinkSite(s, k, d);
    LinkShape(Cut(s.f, s.root, o), s.Edge(d), o, s.root);
  }

  // The root becomes the edge of its flank, below the old edge
  lemma StepNearFlank(s: Parts, k: int, d: Side)
    requires s.Good(k) && Kid(s.f, s.root, d.Opposite()) != null && Before(d, s.root.key, k) && s.Edge(d) != null
    ensures var t := s.Step(d);
            t.Flank(d, k) && t.Top(d) != null
            && Sub(t.f, t.Top(d)) == Sub(s.f, s.Top(d)) + {s.root} + Sub(s.f, Kid(s.f, s.root, d))
  {
    StepShape(s, k, d);
    StepLinked(s, k, d);
    assert Ordered(s.f, s.root);
    StepKids(s, k, d, s.root, d.Opposite());
  }

  lemma StepCovers(s: Parts, k: int, d: Side)
    requires s.Good(k) && Kid(s.f, s.root, d.Opposite()) != null && Before(d, s.root.key, k)
    ensures var t := s.Step(d); t.f.Keys == Sub(t.f, t.root) + Sub(t.f, t.Top(d)) + Sub(t.f, t.Top(d.Opposite()))
    ensures s.Step(d).Flank(d, k)
  {
    StepShape(s, k, d);
    if s.Edge(d) == null {
      StepNewFlank(s, k, d);
    } else {
      StepNearFlank(s, k, d);
    }
    assert Ordered(s.f, s.root);
  }

  lemma StepSmaller(s: Parts, k: int, d: Side)
    requires s.Good(k) && Kid(s.f, s.root, d.Opposite()) != null
    ensures Sub(s.Step(d).f, s.Step(d).root) < Sub(s.f, s.root)
  {
    StepShape(s, k, d);
    assert Ordered(s.f, s.root);
  }

  lemma StepGood(s: Parts, k: int, d: Side)
    requires s.Good(k) && Kid(s.f, s.root, d.Opposite()) != null && Before(d, s.root.key, k)
    ensures Kid(s.f, s.root, d.Opposite()) in s.f && s.Step(d).Good(k)
    ensures s.Step(d).f.Keys == s.f.Keys && Sub(s.Step(d).f, s.Step(d).root) < Sub(s.f, s.root)
  {
    StepShape(s, k, d);
    StepFarFlank(s, k, d);
    StepCovers(s, k, d);
    StepSmaller(s, k, d);
    if d == Left {} else {}
  }

  // What hanging the kid of the root on the edge of flank `d` relies on
  lemma JoinSite(s: Parts, k: int, d: Side)
    requires s.Good(k) && s.Edge(d) != null && Kid(s.f, s.root, d) != null
    ensures var c, a := Cut(s.f, s.root, d), Kid(s.f, s.root, d);
            Shape(c) && a in c && IsRoot(c, a) && s.Edge(d) in c && Kid(c, s.Edge(d), d.Opposite()) == null
            && s.Edge(d) !in Sub(c, a)
    ensures var c, e, o := Cut(s.f, s.root, d), s.Edge(d), d.Opposite();
            forall n, m :: n in c && e in c[n].sub && m in Sub(c, Kid(s.f, s.root, d)) ==> Before(o, m.key, n.key)
    ensures var c, e, o := Cut(s.f, s.root, d), s.Edge(d), d.Opposite();
            forall n :: n in c && e in c[n].sub ==> n == e || Before(o, e.key, n.key)
  {
    var c, e := Cut(s.f, s.root, d), s.Edge(d);
    CutShape(s.f, s.root, d);
    assert Ordered(s.f, s.root);
    forall n | n in c && e in c[n].sub
      ensures n in Sub(s.f, s.Top(d))
    {
      Owner(s, k, d, n);
    }
  }

  ghost function Loosened(s: Parts, d: Side): Forest
    requires s.root in s.f && s.Edge(d) in s.f
  {
    var a, c := Kid(s.f, s.root, d), Cut(s.f, s.root, d);
    if a != null && a in s.f then Link(c, s.Edge(d), d.Opposite(), a) else c
  }

  lemma LoosenedShape(s: Parts, k: int, d: Side)
    requires s.Good(k) && s.Edge(d) != null
    ensures var h := Loosened(s, d);
            Shape(h) && h.Keys == s.f.Keys && IsRoot(h, s.root) && IsRoot(h, s.Top(d))
    ensures var h, o := Loosened(s, d), d.Opposite();
            s.Top(o) != null ==> IsRoot(h, s.Top(o)) && Sub(h, s.Top(o)) == Sub(s.f, s.Top(o))
    ensures var h := Loosened(s, d);
            Sub(h, s.root) == {s.root} + Sub(s.f, Kid(s.f, s.root, d.Opposite()))
            && Sub(h, s.Top(d)) == Sub(s.f, s.Top(d)) + Sub(s.f, Kid(s.f, s.root, d))
    ensures Kid(Loosened(s, d), s.root, d) == null
  {
    CutShape(s.f, s.root, d);
    assert Ordered(s.f, s.root);
    if Kid(s.f, s.root, d) != null {
      JoinSite(s, k, d);
      LinkShape(Cut(s.f, s.root, d), s.Edge(d), d.Opposite(), Kid(s.f, s.root, d));
    }
  }

  // Hanging the flank on the root
  lemma JoinLink(s: Parts, k: int, d: Side)
    requires s.Good(k) && s.Edge(d) != null
    ensures var h := Loosened(s, d);
            Shape(h) && s.root in h && IsRoot(h, s.Top(d)) && Kid(h, s.root, d) == null
            && s.root !in Sub(h, s.Top(d))
    ensures var h := Loosened(s, d); forall n :: n in h && s.root in h[n].sub ==> n == s.root
    ensures var h := Loosened(s, d); forall m :: m in Sub(h, s.Top(d)) ==> Before(d, m.key, s.root.key)
  {
    LoosenedShape(s, k, d);
    var h := Loosened(s, d);
    assert Ordered(s.f, s.root);
    forall n | n in h && s.root in h[n].sub
      ensures n == s.root
    {
      RootOnTop(h, s.root, n);
    }
  }

  lemma JoinFar(s: Parts, k: int, d: Side)
    requires s.Good(k) && s.Top(d.Opposite()) != null
    ensures var t, o := s.Join(d), d.Opposite();
            IsRoot(t.f, s.Top(o)) && Sub(t.f, s.Top(o)) == Sub(s.f, s.Top(o))
  {
    if s.Edge(d) != null {
      LoosenedShape(s, k, d);
      JoinLink(s, k, d);
      assert Ordered(s.f, s.root);
      LinkShape(Loosened(s, d), s.root, d, s.Top(d));
    }
  }

  lemma JoinShape(s: Parts, k: int, d: Side)
    requires s.Good(k)
    ensures var t := s.Join(d);
            Shape(t.f) && t.f.Keys == s.f.Keys && IsRoot(t.f, s.root)
            && Sub(t.f, s.root) == Sub(s.f, s.root) + Sub(s.f, s.Top(d))
    ensures var t, o := s.Join(d), d.Opposite();
            s.Top(o) != null ==> IsRoot(t.f, s.Top(o)) && Sub(t.f, s.Top(o)) == Sub(s.f, s.Top(o))
  {
    if s.Top(d.Opposite()) != null {
      JoinFar(s, k, d);
    }
    if s.Edge(d) != null {
      LoosenedShape(s, k, d);
      JoinLink(s, k, d);
      assert Ordered(s.f, s.root);
      LinkShape(Loosened(s, d), s.root, d, s.Top(d));
    }
  }

  lemma JoinKids(s: Parts, k: int, d: Side, n: Node, t: Side)
    requires s.Good(k) && n in s.f
    ensures Kid(s.Join(d).f, n, t) == if s.Edge(d) == null then Kid(s.f, n, t)
            else if n == s.root && t == d then s.Top(d)
            else if n == s.Edge(d) && t == d.Opposite() then Kid(s.f, s.root, d) else Kid(s.f, n, t)
  {
    assert Ordered(s.f, s.root);
  }

  lemma JoinGood(s: Parts, k: int, d: Side)
    requires s.Good(k)
    ensures s.Join(d).Good(k) && s.Join(d).f.Keys == s.f.Keys
  {
    JoinShape(s, k, d);
    var e := s.Edge(d.Opposite());
    if e != null {
      JoinKids(s, k, d, e, d);
      assert Ordered(s.f, s.root);
    }
  }

  ghost function Assembled(s: Parts): Forest
    requires s.root in s.f && (s.leftEdge != null ==> s.leftEdge in s.f)
    requires s.rightEdge != null ==> s.rightEdge in s.Join(Left).f && s.root in s.Join(Left).f
  {
    if s.rightEdge == null then s.Join(Left).f else s.Join(Left).Join(Right).f
  }

  lemma AssembledGood(s: Parts, k: int)
    requires s.Good(k)
    ensures s.rightEdge != null ==> s.rightEdge in s.Join(Left).f && s.root in s.Join(Left).f
    ensures Shape(Assembled(s)) && IsRoot(Assembled(s), s.root)
            && Assembled(s)[s.root].sub == Assembled(s).Keys == s.f.Keys
  {
    JoinGood(s, k, Left);
    JoinGood(s.Join(Left), k, Right);
  }

  lemma AssembledKids(s: Parts, k: int, n: Node)
    requires s.Good(k) && n in s.f
    requires s.rightEdge != null ==> s.rightEdge in s.Join(Left).f && s.root in s.Join(Left).f
    ensures n in Assembled(s)
    ensures var h := Assembled(s);
            if n == s.root then
              && Kid(h, n, Left) == (if s.leftEdge == null then Kid(s.f, n, Left) else s.leftTop)
              && Kid(h, n, Right) == (if s.rightEdge == null then Kid(s.f, n, Right) else s.rightTop)
            else
              && Kid(h, n, Left) == (if n == s.rightEdge then Kid(s.f, s.root, Right) else Kid(s.f, n, Left))
              && Kid(h, n, Right) == (if n == s.leftEdge then Kid(s.f, s.root, Left) else Kid(s.f, n, Right))
  {
    JoinGood(s, k, Left);
    RootNoEdge(s, k);
    JoinKids(s, k, Left, n, Left);
    JoinKids(s, k, Left, n, Right);
    JoinKids(s, k, Left, s.root, Right);
    var s1 := s.Join(Left);
    JoinKids(s1, k, Right, n, Left);
    JoinKids(s1, k, Right, n, Right);
  }

  lemma RootNoEdge(s: Parts, k: int)
    requires s.Good(k)
    ensures s.root != s.leftEdge && s.root != s.rightEdge
  {
    assert Ordered(s.f, s.root);
  }

  // Where the way towards the key ends, nothing lies between the root and the key
  lemma Nearest(s: Parts, k: int, d: Side)
    requires s.Good(k) && Before(d, k, s.root.key) && Kid(s.f, s.root, d) == null
    ensures forall n :: n in s.f ==> Before(d, n.key, k) || n == s.root || Before(d, s.root.key, n.key)
  {
    assert Ordered(s.f, s.root);
  }

  // A key beyond all those of the tree
  lemma {:induction false} Beyond(all: set<Node>, d: Side) returns (k: int)
    ensures forall n :: n in all ==> Before(d, k, n.key)
    decreases all
  {
    k := 0;
    if all != {} {
      var x :| x in all;
      var k1 := Beyond(all - {x}, d);
      k := if Before(d, k1, x.key) then k1 else if d == Left then x.key - 1 else x.key + 1;
    }
  }
}
