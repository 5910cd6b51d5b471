// The forest a splay works on, read as trees: every step of the search is one of the function `Split`.
module SplayRefines {
  import opened Listings
  import opened SplayForest
  import opened SplayModel
  import opened SplayOrder
  import opened SplayParts

  ghost function ToTree(f: Forest, n: Node?): Tree
    requires Shape(f) && (n == null || n in f)
    decreases Sub(f, n)
  {
    if n == null then Leaf else
    assert Ordered(f, n);
    var l, r := f[n].left, f[n].right;
    assert n in Sub(f, n) && n !in Sub(f, l) && n !in Sub(f, r);
    Branch(ToTree(f, l), n, ToTree(f, r))
  }

  lemma ToTreeArm(f: Forest, n: Node, d: Side)
    requires Shape(f) && n in f
    ensures Kid(f, n, d) == null || Kid(f, n, d) in f
    ensures ToTree(f, n).Branch? && ToTree(f, n).node == n && ToTree(f, n).Arm(d) == ToTree(f, Kid(f, n, d))
  {
    assert Ordered(f, n);
  }

  lemma {:induction false} ToTreeSize(f: Forest, n: Node?)
    requires Shape(f) && (n == null || n in f)
    ensures ToTree(f, n).Size() == |Sub(f, n)|
    decreases Sub(f, n)
  {
    if n != null {
      assert Ordered(f, n);
      var l, r := f[n].left, f[n].right;
      assert n in Sub(f, n) && n !in Sub(f, l) && n !in Sub(f, r);
      assert Sub(f, l) !! Sub(f, r);
      ToTreeSize(f, l);
      ToTreeSize(f, r);
    }
  }

  // A subtree whose links have not changed
  lemma {:induction false} SameTree(f: Forest, h: Forest, n: Node?)
    requires Shape(f) && Shape(h) && (n == null || (n in f && n in h))
    requires forall m :: m in Sub(f, n) && m in f ==> m in h
    requires forall m, s :: m in Sub(f, n) && m in f ==> Kid(h, m, s) == Kid(f, m, s)
    ensures ToTree(f, n) == ToTree(h, n)
    decreases Sub(f, n)
  {
    if n != null {
      assert Ordered(f, n) && Ordered(h, n);
      var l, r := f[n].left, f[n].right;
      assert n in Sub(f, n) && n !in Sub(f, l) && n !in Sub(f, r);
      assert Kid(h, n, Left) == Kid(f, n, Left) && Kid(h, n, Right) == Kid(f, n, Right);
      assert (l == null || l in h) && (r == null || r in h) && Sub(f, l) <= Sub(f, n) && Sub(f, r) <= Sub(f, n);
      SameTree(f, h, l);
      SameTree(f, h, r);
    }
  }

  // `u` goes to the far end of `t` on side `o`
  function Hang(t: Tree, o: Side, u: Tree): Tree {
    if t.Leaf? then u else Grow(o, Hang(t.Arm(o), o, u), t.node, t.Arm(o.Opposite()))
  }

  lemma {:induction false} HangTwice(t: Tree, o: Side, u: Tree, v: Tree)
    ensures Hang(Hang(t, o, u), o, v) == Hang(t, o, Hang(u, o, v))
  {
    if t.Branch? {
      HangTwice(t.Arm(o), o, u, v);
    }
  }

  lemma {:induction false} HangLeaf(t: Tree, o: Side)
    ensures Hang(t, o, Leaf) == t
  {
    if t.Branch? {
      HangLeaf(t.Arm(o), o);
    }
  }

  // ---- linking at the end of a spine ----

  lemma {:induction false} LinkTree(f: Forest, p: Node, o: Side, x: Node, n: Node)
    requires Shape(f) && p in f && x in f && n in f && p in Sub(f, n) && Kid(f, p, o) == null && p !in Sub(f, x)
    requires Shape(Link(f, p, o, x)) && Link(f, p, o, x).Keys == f.Keys
    requires forall m :: m in Sub(f, n) ==> m == p || Before(o.Opposite(), m.key, p.key)
    ensures ToTree(Link(f, p, o, x), n) == Hang(ToTree(f, n), o, ToTree(f, x))
    decreases Sub(f, n)
  {
    var h := Link(f, p, o, x);
    assert Ordered(f, n);
    var a, b := Kid(f, n, o), Kid(f, n, o.Opposite());
    ToTreeArm(f, n, o);
    ToTreeArm(f, n, o.Opposite());
    ToTreeArm(h, n, o);
    ToTreeArm(h, n, o.Opposite());
    forall m, s | m in f
      ensures Kid(h, m, s) == if m == p && s == o then x else Kid(f, m, s)
    {
      LinkKids(f, p, o, x, m, s);
    }
    assert n in Sub(f, n) && p !in Sub(f, b);
    SameTree(f, h, b);
    if n == p {
      SameTree(f, h, x);
    } else {
      assert p in Sub(f, a);
      LinkTree(f, p, o, x, a);
    }
  }

  // ---- the parts of a splay as trees ----

  ghost function Core(s: Parts): Tree
    requires Shape(s.f) && s.root in s.f
  {
    ToTree(s.f, s.root)
  }

  ghost function Flank(s: Parts, d: Side): Tree
    requires Shape(s.f) && (s.Top(d) == null || s.Top(d) in s.f)
  {
    ToTree(s.f, s.Top(d))
  }

  // The three trees have no node in common, and the edge lies in its own
  lemma Asunder(s: Parts, k: int, d: Side)
    requires s.Good(k)
    ensures s.root in Sub(s.f, s.root) && Sub(s.f, s.root) !! Sub(s.f, s.Top(d))
    ensures Sub(s.f, s.Top(d)) !! Sub(s.f, s.Top(d.Opposite()))
    ensures s.Edge(d) != null ==> s.Edge(d) in Sub(s.f, s.Top(d))
  {
    assert Ordered(s.f, s.root);
  }

  // Subtrees without the root and the edge are not touched by a step
  lemma StepSame(s: Parts, k: int, d: Side, n: Node?)
    requires s.Good(k) && Kid(s.f, s.root, d.Opposite()) != null && Before(d, s.root.key, k)
    requires n == null || n in s.f
    requires s.root !in Sub(s.f, n) && (s.Edge(d) == null || s.Edge(d) !in Sub(s.f, n))
    ensures s.Step(d).Good(k) && (n == null || n in s.Step(d).f) && ToTree(s.Step(d).f, n) == ToTree(s.f, n)
  {
    StepGood(s, k, d);
    forall m, t | m in Sub(s.f, n) && m in s.f
      ensures Kid(s.Step(d).f, m, t) == Kid(s.f, m, t)
    {
      StepKids(s, k, d, m, t);
    }
    SameTree(s.f, s.Step(d).f, n);
  }

  lemma CutSame(f: Forest, x: Node, d: Side, n: Node?)
    requires Shape(f) && IsRoot(f, x) && (n == null || n in f) && x !in Sub(f, n)
    ensures Shape(Cut(f, x, d)) && Sub(Cut(f, x, d), n) == Sub(f, n)
    ensures (n == null || n in Cut(f, x, d)) && ToTree(Cut(f, x, d), n) == ToTree(f, n)
  {
    CutShape(f, x, d);
    assert n != null ==> Ordered(f, n);
    SameTree(f, Cut(f, x, d), n);
  }

  lemma CutTree(f: Forest, x: Node, d: Side)
    requires Shape(f) && IsRoot(f, x)
    ensures Shape(Cut(f, x, d)) && ToTree(Cut(f, x, d), x) == Grow(d, Leaf, x, ToTree(f, x).Arm(d.Opposite()))
  {
    CutShape(f, x, d);
    var o := d.Opposite();
    assert Ordered(f, x);
    ToTreeArm(f, x, o);
    ToTreeArm(Cut(f, x, d), x, d);
    ToTreeArm(Cut(f, x, d), x, o);
    CutSame(f, x, d, Kid(f, x, o));
  }

  // The root is linked to the edge of flank `d`
  lemma StepHung(s: Parts, k: int, d: Side)
    requires s.Good(k) && Kid(s.f, s.root, d.Opposite()) != null && Before(d, s.root.key, k) && s.Edge(d) != null
    ensures s.Step(d).Good(k) && Shape(Cut(s.f, s.root, d.Opposite()))
    ensures Flank(s.Step(d), d) == Hang(Flank(s, d), d.Opposite(), ToTree(Cut(s.f, s.root, d.Opposite()), s.root))
  {
    var o := d.Opposite();
    StepGood(s, k, d);
    CutShape(s.f, s.root, o);
    Asunder(s, k, d);
    LinkSite(s, k, d);
    CutSame(s.f, s.root, o, s.Top(d));
    LinkTree(Cut(s.f, s.root, o), s.Edge(d), o, s.root, s.Top(d));
  }

  // The root is linked to flank `d`
  lemma StepNear(s: Parts, k: int, d: Side)
    requires s.Good(k) && Kid(s.f, s.root, d.Opposite()) != null && Before(d, s.root.key, k)
    ensures s.Step(d).Good(k)
    ensures Flank(s.Step(d), d) ==
            Hang(Flank(s, d), d.Opposite(), Grow(d.Opposite(), Leaf, s.root, Core(s).Arm(d)))
  {
    StepGood(s, k, d);
    CutTree(s.f, s.root, d.Opposite());
    if s.Edge(d) != null {
      StepHung(s, k, d);
    }
  }

  lemma StepTrees(s: Parts, k: int, d: Side)
    requires s.Good(k) && Kid(s.f, s.root, d.Opposite()) != null && Before(d, s.root.key, k)
    ensures s.Step(d).Good(k) && Core(s.Step(d)) == Core(s).Arm(d.Opposite())
    ensures Flank(s.Step(d), d.Opposite()) == Flank(s, d.Opposite())
  {
    var o := d.Opposite();
    StepGood(s, k, d);
    Asunder(s, k, d);
    Asunder(s, k, o);
    assert Ordered(s.f, s.root);
    ToTreeArm(s.f, s.root, o);
    StepSame(s, k, d, Kid(s.f, s.root, o));
    StepSame(s, k, d, s.Top(o));
  }

  lemma TurnSame(s: Parts, k: int, d: Side, n: Node?)
    requires s.Good(k) && Kid(s.f, s.root, d) != null && (n == null || n in s.f)
            && Sub(s.f, n) !! {s.root, Kid(s.f, s.root, d)}
    ensures Kid(s.f, s.root, d) in s.f && s.Turn(d).Good(k) && (n == null || n in s.Turn(d).f)
            && ToTree(s.Turn(d).f, n) == ToTree(s.f, n)
  {
    TurnGood(s, k, d);
    forall m, t | m in Sub(s.f, n) && m in s.f
      ensures Kid(s.Turn(d).f, m, t) == Kid(s.f, m, t)
    {
      RotateKids(s.f, s.root, d, m, t);
    }
    SameTree(s.f, s.Turn(d).f, n);
  }

  // The old root after the turn
  lemma TurnLower(s: Parts, k: int, d: Side)
    requires s.Good(k) && Kid(s.f, s.root, d) != null
    ensures Kid(s.f, s.root, d) in s.f && s.Turn(d).Good(k) && s.root in s.Turn(d).f
    ensures var t, o := Core(s), d.Opposite();
            t.Arm(d).Branch? && ToTree(s.Turn(d).f, s.root) == Grow(d, t.Arm(d).Arm(o), s.root, t.Arm(o))
  {
    TurnGood(s, k, d);
    var x, y, o, h := s.root, Kid(s.f, s.root, d), d.Opposite(), s.Turn(d).f;
    assert Ordered(s.f, x) && Ordered(s.f, y);
    ToTreeArm(s.f, x, d);
    ToTreeArm(s.f, x, o);
    ToTreeArm(s.f, y, o);
    RotateKids(s.f, x, d, x, d);
    RotateKids(s.f, x, d, x, o);
    ToTreeArm(h, x, d);
    ToTreeArm(h, x, o);
    TurnSame(s, k, d, Kid(s.f, y, o));
    TurnSame(s, k, d, Kid(s.f, x, o));
  }

  lemma TurnCore(s: Parts, k: int, d: Side)
    requires s.Good(k) && Kid(s.f, s.root, d) != null
    ensures Kid(s.f, s.root, d) in s.f && s.Turn(d).Good(k)
    ensures var t, c, o := Core(s), Core(s).Arm(d), d.Opposite();
            c.Branch? && Core(s.Turn(d)) == Grow(d, c.Arm(d), c.node, Grow(d, c.Arm(o), s.root, t.Arm(o)))
  {
    TurnGood(s, k, d);
    TurnLower(s, k, d);
    var x, y, o, h := s.root, Kid(s.f, s.root, d), d.Opposite(), s.Turn(d).f;
    assert Ordered(s.f, x) && Ordered(s.f, y);
    ToTreeArm(s.f, x, d);
    ToTreeArm(s.f, y, d);
    RotateKids(s.f, x, d, y, d);
    RotateKids(s.f, x, d, y, o);
    ToTreeArm(h, y, d);
    ToTreeArm(h, y, o);
    TurnSame(s, k, d, Kid(s.f, y, d));
  }

  lemma TurnFlanks(s: Parts, k: int, d: Side, e: Side)
    requires s.Good(k) && Kid(s.f, s.root, d) != null
    ensures Kid(s.f, s.root, d) in s.f && s.Turn(d).Good(k) && Flank(s.Turn(d), e) == Flank(s, e)
  {
    Asunder(s, k, e);
    assert Ordered(s.f, s.root) && Ordered(s.f, Kid(s.f, s.root, d));
    TurnSame(s, k, d, s.Top(e));
  }

  // ---- putting the parts together ----

  // The root has handed its subtree on side `d` to the edge of the flank
  lemma LoosenedTrees(s: Parts, k: int, d: Side)
    requires s.Good(k) && s.Edge(d) != null
    ensures var h := Loosened(s, d); Shape(h) && s.root in h && s.Top(d) in h
    ensures ToTree(Loosened(s, d), s.root) == Grow(d, Leaf, s.root, Core(s).Arm(d.Opposite()))
    ensures ToTree(Loosened(s, d), s.Top(d)) == Hang(Flank(s, d), d.Opposite(), Core(s).Arm(d))
  {
    var a, c, h, o := Kid(s.f, s.root, d), Cut(s.f, s.root, d), Loosened(s, d), d.Opposite();
    LoosenedShape(s, k, d);
    Asunder(s, k, d);
    CutTree(s.f, s.root, d);
    CutSame(s.f, s.root, d, s.Top(d));
    ToTreeArm(s.f, s.root, d);
    assert Ordered(s.f, s.root);
    if a == null {
      HangLeaf(Flank(s, d), o);
    } else {
      JoinSite(s, k, d);
      CutSame(s.f, s.root, d, a);
      LinkTree(c, s.Edge(d), o, a, s.Top(d));
      forall m, t | m in Sub(c, s.root) && m in c
        ensures Kid(h, m, t) == Kid(c, m, t)
      {
        LinkKids(c, s.Edge(d), o, a, m, t);
      }
      CutShape(s.f, s.root, d);
      SameTree(c, h, s.root);
    }
  }

  lemma JoinCore(s: Parts, k: int, d: Side)
    requires s.Good(k)
    ensures s.Join(d).Good(k)
    ensures var t, o := Core(s), d.Opposite();
            Core(s.Join(d)) == Grow(d, Hang(Flank(s, d), o, t.Arm(d)), s.root, t.Arm(o))
  {
    JoinGood(s, k, d);
    if s.Edge(d) != null {
      LoosenedShape(s, k, d);
      LoosenedTrees(s, k, d);
      JoinLink(s, k, d);
      assert Ordered(s.f, s.root);
      LinkTree(Loosened(s, d), s.root, d, s.Top(d), s.root);
    }
  }

  lemma JoinFlank(s: Parts, k: int, d: Side)
    requires s.Good(k)
    ensures s.Join(d).Good(k) && Flank(s.Join(d), d.Opposite()) == Flank(s, d.Opposite())
  {
    JoinGood(s, k, d);
    Asunder(s, k, d);
    Asunder(s, k, d.Opposite());
    var n := s.Top(d.Opposite());
    forall m, t | m in Sub(s.f, n) && m in s.f
      ensures Kid(s.Join(d).f, m, t) == Kid(s.f, m, t)
    {
      JoinKids(s, k, d, m, t);
    }
    SameTree(s.f, s.Join(d).f, n);
  }

  // The halves of a split of the middle tree, with the flanks around them
  ghost function Around(s: Parts, h: Halves): Halves
    requires Shape(s.f) && (s.leftTop == null || s.leftTop in s.f) && (s.rightTop == null || s.rightTop in s.f)
  {
    Halves(Hang(Flank(s, Left), Right, h.left), h.node, Hang(Flank(s, Right), Left, h.right))
  }

  lemma AssembledTree(s: Parts, k: int)
    requires s.Good(k)
    ensures s.rightEdge != null ==> s.rightEdge in s.Join(Left).f && s.root in s.Join(Left).f
    ensures Shape(Assembled(s)) && s.root in Assembled(s)
    ensures ToTree(Assembled(s), s.root) == Close(Around(s, Open(Core(s))))
  {
    AssembledGood(s, k);
    JoinCore(s, k, Left);
    JoinFlank(s, k, Left);
    if s.rightEdge != null {
      JoinCore(s.Join(Left), k, Right);
    }
  }

  // ---- the search follows the function ----

  // What is linked to a flank belongs to the split all the same
  lemma StepAround(s: Parts, k: int, d: Side, h: Halves)
    requires s.Good(k) && Kid(s.f, s.root, d.Opposite()) != null && Before(d, s.root.key, k)
    ensures s.Step(d).Good(k)
    ensures Around(s, h.Set(d, Grow(d.Opposite(), h.Half(d), s.root, Core(s).Arm(d)))) == Around(s.Step(d), h)
  {
    StepNear(s, k, d);
    StepTrees(s, k, d);
    HangTwice(Flank(s, d), d.Opposite(), Grow(d.Opposite(), Leaf, s.root, Core(s).Arm(d)), h.Half(d));
  }

  /** One turn of the loop leads from `s` to `t`; after the last one the middle tree is split as it is. */
  ghost predicate Searched(s: Parts, t: Parts, k: int, stop: bool) {
    && s.Good(k) && t.Good(k)
    && Around(s, Split(Core(s), k)) == Around(t, if stop then Open(Core(t)) else Split(Core(t), k))
    && Rounds(Core(s), k) == 1 + if stop then 0 else Rounds(Core(t), k)
  }

  /** So far the search for `k` in `t` has taken so many rounds, and it will split `t` as the function does. */
  ghost predicate Diving(t: Tree, s: Parts, k: int, rounds: nat) {
    && s.Good(k) && t.Branch?
    && Around(s, Split(Core(s), k)) == Split(t, k) && rounds + Rounds(Core(s), k) == Rounds(t, k)
  }

  ghost predicate Arrived(t: Tree, s: Parts, k: int, rounds: nat) {
    s.Good(k) && t.Branch? && Around(s, Open(Core(s))) == Split(t, k) && rounds == Rounds(t, k)
  }

  lemma DivingOn(t: Tree, s: Parts, u: Parts, k: int, rounds: nat, stop: bool)
    requires Diving(t, s, k, rounds) && Searched(s, u, k, stop)
    ensures if stop then Arrived(t, u, k, rounds + 1) else Diving(t, u, k, rounds + 1)
  {
  }

  lemma DivingFrom(f: Forest, x: Node, k: int)
    requires Parts(f, x, null, null, null, null).Good(k)
    ensures Diving(ToTree(f, x), Parts(f, x, null, null, null, null), k, 0)
  {
    AroundNothing(f, x, Split(ToTree(f, x), k));
  }

  lemma DivingDone(t: Tree, s: Parts, k: int, rounds: nat)
    requires Diving(t, s, k, rounds) && s.root.key == k
    ensures Arrived(t, s, k, rounds)
  {
  }

  // The search ends where there is no way on
  lemma SearchedEnd(s: Parts, k: int)
    requires s.Good(k) && s.root.key != k && Kid(s.f, s.root, Toward(k, s.root)) == null
    ensures Searched(s, s, k, true)
  {
    ToTreeArm(s.f, s.root, Toward(k, s.root));
  }

  // A node is linked to its flank and the search goes on below it
  lemma SearchedSingle(s: Parts, k: int)
    requires s.Good(k) && s.root.key != k
    requires var c := Kid(s.f, s.root, Toward(k, s.root)); c != null && !Before(Toward(k, s.root), k, c.key)
    ensures var o := Toward(k, s.root).Opposite();
            (s.Edge(o) != null ==> s.Edge(o) in s.f) && Searched(s, s.Step(o), k, false)
  {
    var d := Toward(k, s.root);
    ToTreeArm(s.f, s.root, d);
    StepGood(s, k, d.Opposite());
    StepTrees(s, k, d.Opposite());
    StepAround(s, k, d.Opposite(), Split(Core(s).Arm(d), k));
  }

  // After a rotation there may be no way on
  lemma SearchedPair(s: Parts, k: int)
    requires s.Good(k) && s.root.key != k
    requires var c := Kid(s.f, s.root, Toward(k, s.root)); c != null && Before(Toward(k, s.root), k, c.key)
    ensures var d := Toward(k, s.root); Kid(s.f, s.root, d) in s.f && s.Turn(d).Good(k)
    ensures var d := Toward(k, s.root);
            var u := s.Turn(d);
            if Kid(u.f, u.root, d) == null then Searched(s, u, k, true)
            else u.Step(d.Opposite()).Good(k) && Searched(s, u.Step(d.Opposite()), k, false)
  {
    var d := Toward(k, s.root);
    ToTreeArm(s.f, s.root, d);
    TurnGood(s, k, d);
    TurnCore(s, k, d);
    TurnFlanks(s, k, d, Left);
    TurnFlanks(s, k, d, Right);
    var u := s.Turn(d);
    ToTreeArm(u.f, u.root, d);
    if Kid(u.f, u.root, d) != null {
      StepGood(u, k, d.Opposite());
      StepTrees(u, k, d.Opposite());
      StepAround(u, k, d.Opposite(), Split(Core(u).Arm(d), k));
    }
  }

  lemma AroundNothing(f: Forest, x: Node, h: Halves)
    requires Shape(f) && x in f
    ensures Around(Parts(f, x, null, null, null, null), h) == h
  {
  }

  // ---- insertion and removal ----

  lemma OnlyNode(f: Forest, e: Node)
    requires f == map[e := Cell(null, null, {e})]
    ensures Shape(f) && IsRoot(f, e) && f[e].sub == f.Keys && ToTree(f, e) == Branch(Leaf, e, Leaf)
  {
    assert Ordered(f, e);
    ToTreeArm(f, e, Left);
    ToTreeArm(f, e, Right);
  }

  lemma CrownedTree(f: Forest, x: Node, d: Side, e: Node)
    requires Shape(f) && IsRoot(f, x) && f[x].sub == f.Keys && e !in f && Before(d, e.key, x.key)
    requires forall n :: n in f ==> Before(d, n.key, e.key) || n == x || Before(d, x.key, n.key)
    ensures Shape(Crowned(f, x, d, e)) && e in Crowned(f, x, d, e)
    ensures ToTree(f, x).Branch? && ToTree(Crowned(f, x, d, e), e) == Crowning(ToTree(f, x), d, e)
  {
    var h, o := Crowned(f, x, d, e), d.Opposite();
    CrownedShape(f, x, d, e);
    assert Ordered(f, x);
    ToTreeArm(f, x, d);
    ToTreeArm(f, x, o);
    forall m, s | m in h
      ensures Kid(h, m, s) == if m == e then (if s == d then Kid(f, x, d) else x)
                              else if m == x && s == d then null else Kid(f, m, s)
    {
      CrownedKids(f, x, d, e, m, s);
      if m != e {
        CutKids(f, x, d, m, s);
      }
    }
    ToTreeArm(h, e, d);
    ToTreeArm(h, e, o);
    ToTreeArm(h, x, d);
    ToTreeArm(h, x, o);
    SameTree(f, h, Kid(f, x, d));
    SameTree(f, h, Kid(f, x, o));
  }

  lemma RestrictedTree(f: Forest, x: Node)
    requires Shape(f) && x in f
    ensures var h := Restricted(f, f[x].sub); Shape(h) && x in h && ToTree(h, x) == ToTree(f, x)
  {
    RestrictedShape(f, x);
    SameTree(f, Restricted(f, f[x].sub), x);
  }

  lemma BeheadedTree(f: Forest, x: Node, g: Forest, r: Node)
    requires Shape(f) && IsRoot(f, x) && f[x].sub == f.Keys && f[x].left != null
    requires Shape(g) && IsRoot(g, r) && g[r].sub == g.Keys == Sub(f, f[x].left)
    requires forall n :: n in g ==> n.key <= r.key
    ensures Shape(Beheaded(f, x, g, r)) && r in Beheaded(f, x, g, r) && ToTree(f, x).Branch? && ToTree(g, r).Branch?
    ensures ToTree(Beheaded(f, x, g, r), r) == Branch(ToTree(g, r).left, r, ToTree(f, x).right)
  {
    var h, m, b := Beheaded(f, x, g, r), Merged(f, x, g), f[x].right;
    BeheadedShape(f, x, g, r);
    MergedShape(f, x, g, r);
    assert Ordered(f, x) && Ordered(g, r);
    forall n, s | n in h
      ensures Kid(h, n, s) == if n == r && s == Right then b else if n in g then Kid(g, n, s) else Kid(f, n, s)
    {
      if b != null {
        LinkKids(m, r, Right, b, n, s);
      }
    }
    ToTreeArm(f, x, Right);
    ToTreeArm(g, r, Left);
    ToTreeArm(h, r, Left);
    ToTreeArm(h, r, Right);
    SameTree(g, h, g[r].left);
    SameTree(f, h, b);
  }
}
