// What splaying costs in the long run: the rounds of the search are paid from the sizes of the subtrees.
module SplayCost {
  import opened Listings
  import opened Powers
  import opened SplayForest
  import opened SplayModel

  // ---- sizes and weights ----

  lemma {:induction false} Heavy(t: Tree)
    ensures t.Weight() >= 1 && (t.Branch? ==> t.Size() >= 1)
  {
    if t.Branch? {
      Heavy(t.left);
      Heavy(t.right);
      Times(1, t.left.Weight(), 1, t.right.Weight());
      Times(1, t.Size(), 1, t.left.Weight() * t.right.Weight());
    }
  }

  lemma Times(a: nat, b: nat, c: nat, d: nat)
    requires a <= b && c <= d
    ensures a * c <= b * d
  {
    assert a * c <= b * c;
    assert b * c <= b * d;
  }

  lemma Swap(a: nat, b: nat)
    ensures a * b == b * a
  {
  }

  lemma GrowWeight(d: Side, a: Tree, n: Node, b: Tree)
    ensures Grow(d, a, n, b).Size() == a.Size() + 1 + b.Size()
    ensures Grow(d, a, n, b).Weight() == Grow(d, a, n, b).Size() * (a.Weight() * b.Weight())
  {
    Swap(a.Weight(), b.Weight());
  }

  lemma ArmsWeight(t: Tree, d: Side)
    requires t.Branch?
    ensures t.Size() == t.Arm(d).Size() + 1 + t.Arm(d.Opposite()).Size()
    ensures t.Weight() == t.Size() * (t.Arm(d).Weight() * t.Arm(d.Opposite()).Weight())
  {
    GrowWeight(d, t.Arm(d), t.node, t.Arm(d.Opposite()));
  }

  lemma {:induction false} SplitSize(t: Tree, k: int)
    requires t.Branch?
    ensures Split(t, k).left.Size() + 1 + Split(t, k).right.Size() == t.Size()
    decreases t.Size()
  {
    if !Ends(t, k) {
      var d := Toward(k, t.node);
      var u := Ready(t, k);
      TurnedSize(t, k);
      ArmsWeight(u, d);
      if u.Arm(d).Branch? {
        SplitSize(u.Arm(d), k);
      }
    }
  }

  function Yield(h: Halves): nat { h.left.Weight() * h.right.Weight() }

  // ---- one round ----

  // The factors a round takes from the weight of the tree and gives to the half that gets the node: the weight is
  // `size * m * y` times that of the tree the search goes on in, the yield `gain * q * y` times the yield of that
  datatype Factors = Factors(m: nat, q: nat, y: nat)

  predicate GoesOn(t: Tree, k: int)
    requires t.Branch?
  {
    !Ends(t, k) && Ready(t, k).Arm(Toward(k, t.node)).Branch?
  }

  function Below(t: Tree, k: int): Tree
    requires t.Branch? && GoesOn(t, k)
  {
    Ready(t, k).Arm(Toward(k, t.node))
  }

  function Gain(t: Tree, k: int): nat
    requires t.Branch? && GoesOn(t, k)
  {
    Split(t, k).Half(Toward(k, t.node).Opposite()).Size()
  }

  lemma HalvesYield(h: Halves, d: Side)
    ensures Yield(h) == h.Half(d).Weight() * h.Half(d.Opposite()).Weight()
  {
    Swap(h.left.Weight(), h.right.Weight());
  }

  // What linking the root to its flank does to the yield
  lemma LinkedYield(t: Tree, k: int)
    requires t.Branch? && GoesOn(t, k)
    ensures Below(t, k).Size() < t.Size() && Rounds(t, k) == 1 + Rounds(Below(t, k), k)
    ensures var far := Ready(t, k).Arm(Toward(k, t.node).Opposite());
            Yield(Split(t, k)) == Gain(t, k) * far.Weight() * Yield(Split(Below(t, k), k))
    ensures var d := Toward(k, t.node); Split(t, k).Half(d) == Split(Below(t, k), k).Half(d)
  {
    var d := Toward(k, t.node);
    var u, h := Ready(t, k), Split(Below(t, k), k);
    TurnedSize(t, k);
    ArmsWeight(u, d);
    GrowWeight(d, h.Half(d.Opposite()), u.node, u.Arm(d.Opposite()));
    HalvesYield(h, d);
    HalvesYield(Split(t, k), d);
    Rearranged(Gain(t, k), h.Half(d.Opposite()).Weight(), u.Arm(d.Opposite()).Weight(), h.Half(d).Weight());
  }

  lemma Rearranged(r: nat, a: nat, b: nat, c: nat)
    ensures c * (r * (a * b)) == r * b * (c * a)
  {
    assert c * (r * (a * b)) == (c * r) * (a * b);
    assert (c * r) * (a * b) == (r * b) * (c * a);
  }

  // What the round takes from the weight of the tree
  lemma RoundFactors(t: Tree, k: int) returns (f: Factors)
    requires t.Branch? && GoesOn(t, k)
    ensures t.Weight() == t.Size() * f.m * (f.y * Below(t, k).Weight())
    ensures Ready(t, k).Arm(Toward(k, t.node).Opposite()).Weight() == f.q * f.y
    ensures if Straight(t, k) then f.q + Below(t, k).Size() <= t.Size() && Below(t, k).Size() <= f.m && f.q <= t.Size()
            else f.m == f.q == 1 && Below(t, k).Size() <= t.Size()
  {
    var d := Toward(k, t.node);
    var o := d.Opposite();
    ArmsWeight(t, d);
    if Straight(t, k) {
      var c := t.Arm(d);
      ArmsWeight(c, d);
      GrowWeight(d, c.Arm(o), t.node, t.Arm(o));
      var a, b, v := c.Arm(o).Weight(), t.Arm(o).Weight(), c.Arm(d).Weight();
      f := Factors(c.Size(), c.Arm(o).Size() + 1 + t.Arm(o).Size(), a * b);
      ThreeFactors(t.Size(), c.Size(), v, a, b);
    } else {
      f := Factors(1, 1, t.Arm(o).Weight());
      Swap(Below(t, k).Weight(), t.Arm(o).Weight());
    }
  }

  lemma ThreeFactors(s: nat, m: nat, v: nat, a: nat, b: nat)
    ensures s * (m * (v * a) * b) == s * m * ((a * b) * v)
  {
    assert m * (v * a) * b == m * ((v * a) * b);
    assert (v * a) * b == (a * b) * v;
    assert s * (m * ((a * b) * v)) == s * m * ((a * b) * v);
  }

  // ---- the arithmetic of paying ----

  lemma Halved(a: nat, b: nat, s: nat)
    requires a + b <= s
    ensures 4 * (a * b) <= s * s
  {
    var e := if a <= b then b - a else a - b;
    assert (a + b) * (a + b) == 4 * (a * b) + e * e;
    Times(a + b, s, a + b, s);
  }

  // A pair of rotated nodes: the next tree and the turned one share the old tree
  lemma PaidByPair(r: nat, q: nat, w: nat, m: nat, s: nat)
    requires r <= s && q + w <= s && w <= m
    ensures 4 * (r * q) * (w * w) <= (s * m) * (s * s)
  {
    Halved(q, w, s);
    Times(4 * (q * w), s * s, r * w, s * m) by {
      Times(r, s, w, m);
    }
    Crosswise(r, q, w);
    Swap(s * m, s * s);
  }

  lemma Crosswise(r: nat, q: nat, w: nat)
    ensures 4 * (r * q) * (w * w) == 4 * (q * w) * (r * w)
  {
    assert (r * q) * (w * w) == (q * w) * (r * w);
  }

  // Two nodes linked to different flanks share the old tree
  lemma PaidByFlanks(r: nat, r': nat, q: nat, w: nat, n: nat, m: nat, s: nat)
    requires r + r' <= s && q * w <= n * m && w <= s
    ensures 4 * (r * r' * q) * (w * w) <= (s * (n * m)) * (s * s)
  {
    Halved(r, r', s);
    Times(q * w, n * m, w, s);
    Times(4 * (r * r'), s * s, q * w * w, (n * m) * s);
    Grouped(r * r', q, w, s, n * m);
  }

  lemma Grouped(a: nat, q: nat, w: nat, s: nat, b: nat)
    ensures 4 * (a * q) * (w * w) == 4 * a * (q * w * w) && (s * b) * (s * s) == (s * s) * (b * s)
  {
    assert (a * q) * (w * w) == a * (q * w * w);
    assert (s * b) * (s * s) == s * s * (s * b);
  }

  // The two cases: what is paid below is paid above
  lemma PairPays(p: nat, z: nat, g: nat, w: nat, r: nat, q: nat, y: nat, s: nat, m: nat, far: nat, found: nat,
      whole: nat)
    requires p * z <= 4 * (g * (w * w)) && r <= s && q + w <= s && w <= m
    requires far == q * y && found == r * far * z && whole == s * m * (y * g)
    ensures 2 * p * found <= 4 * (whole * (s * s))
  {
    PaidByPair(r, q, w, m, s);
    PayOne(p, z, g, w * w, r, q, y, s, m);
  }

  lemma FlanksPay(p: nat, z: nat, g: nat, w: nat, r: nat, y: nat, r': nat, q: nat, y': nat, n: nat, m: nat, s: nat,
      far: nat, mid: nat, found: nat, whole: nat, whole': nat)
    requires p * z <= 4 * (g * (w * w)) && r + r' <= s && w <= s
    requires (q == m == 1 && w <= n) || (q <= n && w <= m)
    requires far == q * y' && mid == r' * far * z && found == r * y * mid
    requires whole' == n * m * (y' * g) && whole == s * (y * whole')
    ensures 4 * p * found <= 4 * (whole * (s * s))
  {
    if q <= n && w <= m {
      Times(q, n, w, m);
    }
    PaidByFlanks(r, r', q, w, n, m, s);
    PayTwo(p, z, g, w * w, r, y, r', q, y', n, m, s);
  }

  // The same products in another order
  lemma Reorder(a: nat, b: nat, c: nat, d: nat)
    ensures a * b * (c * d) == a * d * (c * b) && a * (b * (c * d)) == (a * b) * (c * d)
  {
    assert a * b * (c * d) == a * (b * (c * d));
    assert b * (c * d) == d * (c * b);
    assert a * (d * (c * b)) == a * d * (c * b);
  }

  lemma OneLeft(p: nat, z: nat, r: nat, q: nat, y: nat)
    ensures 2 * p * (r * (q * y) * z) == 2 * (r * (q * y)) * (p * z)
  {
    Reorder(p, r * (q * y), 1, z);
  }

  lemma OneRight(g: nat, w: nat, r: nat, q: nat, y: nat)
    ensures 2 * (r * (q * y)) * (4 * (g * w)) == 2 * ((y * g) * (4 * (r * q) * w))
  {
    assert r * (q * y) == (r * q) * y;
    Reorder(r * q, y, g, w);
    assert (r * q) * w * (g * y) == (y * g) * ((r * q) * w);
  }

  lemma PayOne(p: nat, z: nat, g: nat, w: nat, r: nat, q: nat, y: nat, s: nat, m: nat)
    requires p * z <= 4 * (g * w) && 4 * (r * q) * w <= (s * m) * (s * s)
    ensures 2 * p * (r * (q * y) * z) <= 4 * ((s * m * (y * g)) * (s * s))
  {
    var c := 2 * (r * (q * y));
    OneLeft(p, z, r, q, y);
    Times(c, c, p * z, 4 * (g * w));
    OneRight(g, w, r, q, y);
    Times(y * g, y * g, 4 * (r * q) * w, (s * m) * (s * s));
    Reorder(s * m, s * s, y * g, 1);
  }

  lemma TwoLeft(p: nat, z: nat, r: nat, y: nat, r': nat, q: nat, y': nat)
    ensures 4 * p * (r * y * (r' * (q * y') * z)) == 4 * (r * r' * q) * (y * y') * (p * z)
  {
    var a, b := r * y, r' * (q * y');
    assert a * (b * z) == (a * b) * z;
    assert b == (r' * q) * y';
    Reorder(r, y, r' * q, y');
    assert r * y * ((r' * q) * y') == (r * (r' * q)) * (y * y');
    assert r * (r' * q) == r * r' * q;
    Reorder(p, (r * r' * q) * (y * y'), 1, z);
  }

  lemma TwoRight(c: nat, e: nat, g: nat, w: nat)
    ensures c * e * (4 * (g * w)) == 4 * ((e * g) * (c * w))
  {
    Reorder(c, e, g, w);
    assert c * w * (g * e) == (e * g) * (c * w);
  }

  lemma TwoWeights(s: nat, y: nat, n: nat, m: nat, y': nat, g: nat)
    ensures s * (y * (n * m * (y' * g))) == (s * (n * m)) * (y * y' * g)
  {
    Reorder(y, n * m, y', g);
    assert y * (n * m * (y' * g)) == (n * m) * (y * y' * g);
  }

  lemma PayTwo(p: nat, z: nat, g: nat, w: nat, r: nat, y: nat, r': nat, q: nat, y': nat, n: nat, m: nat, s: nat)
    requires p * z <= 4 * (g * w) && 4 * (r * r' * q) * w <= (s * (n * m)) * (s * s)
    ensures 4 * p * (r * y * (r' * (q * y') * z)) <= 4 * ((s * (y * (n * m * (y' * g)))) * (s * s))
  {
    var c, e := 4 * (r * r' * q), y * y';
    TwoLeft(p, z, r, y, r', q, y');
    Times(c * e, c * e, p * z, 4 * (g * w));
    TwoRight(c, e, g, w);
    Times(e * g, e * g, c * w, (s * (n * m)) * (s * s));
    TwoWeights(s, y, n, m, y', g);
    Reorder(s * (n * m), s * s, e * g, 1);
  }

  // ---- a whole search ----

  ghost predicate Paid(t: Tree, k: int)
    requires t.Branch?
  {
    Pow2(Rounds(t, k)) * Yield(Split(t, k)) <= 4 * (t.Weight() * (t.Size() * t.Size()))
  }

  lemma TurnedYield(t: Tree, k: int)
    requires t.Branch? && !Ends(t, k) && Straight(t, k) && Turned(t, k).Arm(Toward(k, t.node)).Leaf?
    ensures Yield(Open(Turned(t, k))) <= t.Weight()
  {
    var d := Toward(k, t.node);
    var c, o := t.Arm(d), d.Opposite();
    HalvesYield(Open(Turned(t, k)), d);
    ArmsWeight(t, d);
    ArmsWeight(c, d);
    GrowWeight(d, c.Arm(o), t.node, t.Arm(o));
    TurnedPays(c.Arm(o).Size() + 1 + t.Arm(o).Size(), c.Arm(o).Weight(), t.Arm(o).Weight(), t.Size(), c.Size());
  }

  lemma TurnedPays(q: nat, a: nat, b: nat, s: nat, m: nat)
    requires q <= s && 1 <= m
    ensures 1 * (q * (a * b)) <= s * (m * (1 * a) * b)
  {
    ThreeFactors(s, m, 1, a, b);
    Times(s, s, 1, m);
    Times(q, s * m, a * b, a * b);
  }

  lemma LastRound(t: Tree, k: int)
    requires t.Branch? && !GoesOn(t, k)
    ensures Rounds(t, k) <= 1 && Yield(Split(t, k)) <= t.Weight()
  {
    var d := Toward(k, t.node);
    if Ends(t, k) || !Straight(t, k) {
      Heavy(t);
      Times(1, t.Size(), Yield(Open(t)), Yield(Open(t)));
    } else {
      TurnedYield(t, k);
    }
  }

  // Rounds paid for by one rotated pair
  lemma PairPaid(t: Tree, k: int)
    requires t.Branch? && GoesOn(t, k) && Straight(t, k) && Paid(Below(t, k), k)
    ensures Paid(t, k)
  {
    var v, r := Below(t, k), Gain(t, k);
    var f := RoundFactors(t, k);
    LinkedYield(t, k);
    SplitSize(t, k);
    assert Pow2(Rounds(t, k)) == 2 * Pow2(Rounds(v, k));
    PairPays(Pow2(Rounds(v, k)), Yield(Split(v, k)), v.Weight(), v.Size(), r, f.q, f.y, t.Size(), f.m,
             Ready(t, k).Arm(Toward(k, t.node).Opposite()).Weight(), Yield(Split(t, k)), t.Weight());
  }

  // A node linked by itself is followed by one that goes to the other flank
  lemma OtherWay(t: Tree, k: int)
    requires t.Branch? && GoesOn(t, k) && !Straight(t, k) && !Ends(Below(t, k), k)
    ensures Toward(k, Below(t, k).node) == Toward(k, t.node).Opposite()
  {
  }

  lemma SingleYield(t: Tree, k: int)
    requires t.Branch? && GoesOn(t, k) && !Straight(t, k)
    ensures var y := t.Arm(Toward(k, t.node).Opposite()).Weight();
            t.Weight() == t.Size() * (y * Below(t, k).Weight())
            && Yield(Split(t, k)) == Gain(t, k) * y * Yield(Split(Below(t, k), k)) && Gain(t, k) <= t.Size()
  {
    var d := Toward(k, t.node);
    ArmsWeight(t, d);
    Swap(t.Arm(d).Weight(), t.Arm(d.Opposite()).Weight());
    LinkedYield(t, k);
    SplitSize(t, k);
  }

  // Rounds paid for by two nodes on different flanks
  lemma FlanksPaid(t: Tree, k: int)
    requires t.Branch? && GoesOn(t, k) && !Straight(t, k) && GoesOn(Below(t, k), k) && Paid(Below(Below(t, k), k), k)
    ensures Paid(t, k)
  {
    var v, w := Below(t, k), Below(Below(t, k), k);
    var y := t.Arm(Toward(k, t.node).Opposite()).Weight();
    var r, r' := Gain(t, k), Gain(v, k);
    OtherWay(t, k);
    SingleYield(t, k);
    LinkedYield(t, k);
    LinkedYield(v, k);
    SplitSize(t, k);
    var f := RoundFactors(v, k);
    assert Pow2(Rounds(t, k)) == 4 * Pow2(Rounds(w, k));
    FlanksPay(Pow2(Rounds(w, k)), Yield(Split(w, k)), w.Weight(), w.Size(), r, y, r', f.q, f.y, v.Size(), f.m, t.Size(),
              Ready(v, k).Arm(Toward(k, v.node).Opposite()).Weight(), Yield(Split(v, k)), Yield(Split(t, k)),
              t.Weight(), v.Weight());
  }

  lemma PayEnd(p: nat, z: nat, g: nat, s: nat)
    requires p <= 4 && z <= g && 1 <= s
    ensures p * z <= 4 * (g * (s * s))
  {
    Times(1, s, 1, s);
    Times(g, g, 1, s * s);
    Times(p, 4, z, g * (s * s));
  }

  lemma SingleEnd(r: nat, y: nat, z: nat, g: nat, s: nat)
    requires r <= s && z <= g
    ensures r * y * z <= s * (y * g)
  {
    Times(y, y, z, g);
    Times(r, s, y * z, y * g);
    assert r * y * z == r * (y * z);
  }

  // At most two rounds at the end are not paid for
  lemma EndPaid(t: Tree, k: int)
    requires t.Branch? && (GoesOn(t, k) ==> !Straight(t, k) && !GoesOn(Below(t, k), k))
    ensures Paid(t, k)
  {
    Heavy(t);
    if GoesOn(t, k) {
      var v := Below(t, k);
      LinkedYield(t, k);
      SingleYield(t, k);
      LastRound(v, k);
      SingleEnd(Gain(t, k), t.Arm(Toward(k, t.node).Opposite()).Weight(), Yield(Split(v, k)), v.Weight(), t.Size());
    } else {
      LastRound(t, k);
    }
    assert Pow2(2) == 4;
    Pow2Grows(Rounds(t, k), 2);
    PayEnd(Pow2(Rounds(t, k)), Yield(Split(t, k)), t.Weight(), t.Size());
  }

  // However deep the search goes, its rounds are paid from the weight of the tree
  lemma {:induction false} SearchPaid(t: Tree, k: int)
    requires t.Branch?
    ensures Paid(t, k)
    decreases t.Size()
  {
    if GoesOn(t, k) && Straight(t, k) {
      LinkedYield(t, k);
      SearchPaid(Below(t, k), k);
      PairPaid(t, k);
    } else if GoesOn(t, k) && GoesOn(Below(t, k), k) {
      LinkedYield(t, k);
      LinkedYield(Below(t, k), k);
      SearchPaid(Below(Below(t, k), k), k);
      FlanksPaid(t, k);
    } else {
      EndPaid(t, k);
    }
  }

  function Cube(n: nat): nat { n * (n * n) }

  lemma NewRootPaid(p: nat, z: nat, w: nat, n: nat)
    requires p * z <= 4 * (w * (n * n))
    ensures p * (n * z) <= 4 * Cube(n) * w
  {
    Times(n, n, p * z, 4 * (w * (n * n)));
    assert p * (n * z) == n * (p * z);
    assert n * (4 * (w * (n * n))) == 4 * (n * (n * n)) * w;
  }

  // The amortised cost of a splay: two to the number of rounds, times the weight afterwards
  lemma SplayPaid(t: Tree, k: int)
    requires t.Branch?
    ensures Splayed(t, k).Size() == t.Size()
    ensures Pow2(Rounds(t, k)) * Splayed(t, k).Weight() <= 4 * Cube(t.Size()) * t.Weight()
  {
    SplitSize(t, k);
    SearchPaid(t, k);
    NewRootPaid(Pow2(Rounds(t, k)), Yield(Split(t, k)), t.Weight(), t.Size());
  }

  // ---- whole operations ----

  // What an operation on a tree that ever has at most `n` nodes may cost, as a factor
  function Price(n: nat): nat { 16 * (Cube(n) * Cube(n)) }

  /** The rounds of an operation and the weight it leaves are covered by the weight it found. */
  ghost predicate Covered(before: Tree, after: Tree, rounds: nat, n: nat) {
    Affords(before.Weight(), after.Weight(), rounds, Price(n))
  }

  ghost predicate Affords(before: nat, after: nat, rounds: nat, price: nat) {
    Pow2(rounds) * after <= price * before
  }

  lemma CubeGrows(a: nat, b: nat)
    requires a <= b
    ensures Cube(a) <= Cube(b)
  {
    Times(a, b, a, b);
    Times(a, b, a * a, b * b);
  }

  lemma CubeAbove(n: nat)
    requires 1 <= n
    ensures n <= Cube(n)
  {
    Times(1, n, 1, n);
    Times(n, n, 1, n * n);
  }

  lemma PriceAbove(c: nat, n: nat)
    requires 1 <= n && c <= 16 * Cube(n)
    ensures c <= Price(n)
  {
    CubeAbove(n);
    Times(Cube(n), Cube(n), 1, Cube(n));
  }

  lemma CoveredMore(before: Tree, after: Tree, rounds: nat, n: nat, m: nat)
    requires Covered(before, after, rounds, n) && n <= m
    ensures Affords(before.Weight(), after.Weight(), rounds, Price(m))
  {
    CubeGrows(n, m);
    Times(Cube(n), Cube(m), Cube(n), Cube(m));
    Times(Price(n), Price(m), before.Weight(), before.Weight());
  }

  lemma NothingCovered(t: Tree, n: nat)
    requires 1 <= n
    ensures Covered(t, t, 0, n)
  {
    CubeAbove(n);
    PriceAbove(1, n);
    Times(1, Price(n), t.Weight(), t.Weight());
  }

  lemma PlantCovered(e: Node)
    ensures Covered(Leaf, Branch(Leaf, e, Leaf), 0, 1)
  {
    assert Leaf.Size() == 0 && Leaf.Weight() == 1;
    assert Branch(Leaf, e, Leaf).Size() == 1 && Branch(Leaf, e, Leaf).Weight() == 1 * (1 * 1);
    assert Cube(1) == 1;
  }

  lemma SplayCovered(t: Tree, k: int, n: nat)
    requires t.Branch? && t.Size() <= n
    ensures Covered(t, Splayed(t, k), Rounds(t, k), n)
  {
    Heavy(t);
    SplayPaid(t, k);
    CubeGrows(t.Size(), n);
    PriceAbove(4 * Cube(t.Size()), n);
    Times(4 * Cube(t.Size()), Price(n), t.Weight(), t.Weight());
  }

  lemma CrowningWeight(t: Tree, d: Side, e: Node)
    requires t.Branch?
    ensures Crowning(t, d, e).Size() == t.Size() + 1
    ensures Crowning(t, d, e).Weight() <= (t.Size() + 1) * t.Weight()
  {
    var a, b := t.Arm(d), t.Arm(d.Opposite());
    ArmsWeight(t, d);
    GrowWeight(d, Leaf, t.node, b);
    GrowWeight(d, a, e, Grow(d, Leaf, t.node, b));
    CrowningFactors(a.Weight(), b.Weight(), b.Size() + 1, t.Size());
  }

  lemma CrowningFactors(a: nat, b: nat, q: nat, s: nat)
    requires q <= s
    ensures (s + 1) * (a * (q * (1 * b))) <= (s + 1) * (s * (a * b))
  {
    assert a * (q * (1 * b)) == q * (a * b);
    Times(q, s, a * b, a * b);
    Times(s + 1, s + 1, a * (q * (1 * b)), s * (a * b));
  }

  lemma Chained(p: nat, w: nat, c: nat, u: nat, b: nat, x: nat, t: nat)
    requires w <= c * u && p * u <= b * t && c * b <= x
    ensures p * w <= x * t
  {
    Times(p, p, w, c * u);
    Times(c, c, p * u, b * t);
    Times(c * b, x, t, t);
    assert p * (c * u) == c * (p * u);
    assert c * (b * t) == c * b * t;
  }

  // Two prices of which the second is paid for a smaller tree
  lemma TwoPrices(a: nat, b: nat, n: nat)
    requires a <= 4 * Cube(n) && b <= 4 * Cube(n)
    ensures a * b <= Price(n)
  {
    Times(a, 4 * Cube(n), b, 4 * Cube(n));
    assert 4 * Cube(n) * (4 * Cube(n)) == 16 * (Cube(n) * Cube(n));
  }

  lemma InsertCovered(t: Tree, k: int, d: Side, e: Node, n: nat)
    requires t.Branch? && t.Size() < n
    ensures Splayed(t, k).Branch? && Covered(t, Crowning(Splayed(t, k), d, e), Rounds(t, k), n)
  {
    var u := Splayed(t, k);
    SplayPaid(t, k);
    CrowningWeight(u, d, e);
    CubeGrows(t.Size(), n);
    CubeAbove(n);
    TwoPrices(t.Size() + 1, 4 * Cube(t.Size()), n);
    Chained(Pow2(Rounds(t, k)), Crowning(u, d, e).Weight(), t.Size() + 1, u.Weight(), 4 * Cube(t.Size()), Price(n),
            t.Weight());
  }

  // ---- removal: the root goes, and its left subtree is splayed in turn ----

  lemma RootGone(t: Tree)
    requires t.Branch?
    ensures t.left.Weight() * t.right.Weight() <= t.Weight() && t.right.Weight() <= t.Weight()
  {
    Heavy(t);
    Heavy(t.left);
    Smaller(t.Size(), t.left.Weight(), t.right.Weight());
  }

  lemma Smaller(s: nat, a: nat, b: nat)
    requires 1 <= s && 1 <= a
    ensures a * b <= s * (a * b) && b <= s * (a * b)
  {
    Times(1, s, a * b, a * b);
    Times(1, a, b, b);
  }

  lemma ShiftCovered(t: Tree, k: int, n: nat)
    requires t.Branch? && t.Size() <= n
    ensures Splayed(t, k).Branch? && Covered(t, Splayed(t, k).right, Rounds(t, k), n)
  {
    Heavy(t);
    SplayPaid(t, k);
    RootGone(Splayed(t, k));
    CubeGrows(t.Size(), n);
    PriceAbove(4 * Cube(t.Size()), n);
    Chained(Pow2(Rounds(t, k)), Splayed(t, k).right.Weight(), 1, Splayed(t, k).Weight(), 4 * Cube(t.Size()), Price(n),
            t.Weight());
  }

  lemma BeheadingWeight(t: Tree, k: int)
    requires t.Branch? && t.left.Branch?
    ensures Pow2(Rounds(t.left, k)) * Beheading(t, k).Weight() <= 4 * Cube(t.Size()) * t.Weight()
  {
    var l := Splayed(t.left, k);
    SplayPaid(t.left, k);
    SplitSize(t.left, k);
    RootGone(l);
    Heavy(l.right);
    Heavy(t.left);
    Times(l.left.Weight(), l.left.Weight(), 1, l.right.Weight());
    var y := t.right.Weight();
    CubeGrows(t.left.Size(), t.Size());
    BeheadingFactors(Pow2(Rounds(t.left, k)), l.left.Weight(), y, l.Weight(), Cube(t.left.Size()), t.left.Weight(),
                     Beheading(t, k).Size(), t.Size(), Cube(t.Size()));
  }

  lemma Inward(p: nat, q: nat, a: nat, y: nat)
    ensures p * (q * (a * y)) == q * (p * a * y)
  {
    assert p * a * y == p * (a * y);
    Reorder(p, q, 1, a * y);
  }

  lemma BeheadingFactors(p: nat, a: nat, y: nat, w: nat, c: nat, g: nat, q: nat, s: nat, c': nat)
    requires a <= w && p * w <= 4 * c * g && q <= s && c <= c'
    ensures p * (q * (a * y)) <= 4 * c' * (s * (g * y))
  {
    Times(p, p, a, w);
    Times(4 * c, 4 * c', g, g);
    Times(p * a, 4 * c' * g, y, y);
    Times(q, s, p * a * y, 4 * c' * g * y);
    Inward(p, q, a, y);
    Inward(4 * c', s, g, y);
  }

  lemma RemoveCovered(t: Tree, k: int, n: nat)
    requires t.Branch? && t.Size() <= n && Splayed(t, k).left.Branch?
    ensures var u := Splayed(t, k); Covered(t, Beheading(u, k), Rounds(t, k) + Rounds(u.left, k), n)
  {
    var u := Splayed(t, k);
    SplayPaid(t, k);
    BeheadingWeight(u, k);
    CubeGrows(t.Size(), n);
    TwoPrices(4 * Cube(t.Size()), 4 * Cube(t.Size()), n);
    Pow2Sum(Rounds(t, k), Rounds(u.left, k));
    ChainedTwice(Pow2(Rounds(t, k)), Pow2(Rounds(u.left, k)), Beheading(u, k).Weight(), 4 * Cube(t.Size()), u.Weight(),
                 Price(n), t.Weight());
  }

  lemma Assoc(a: nat, b: nat, c: nat)
    ensures a * b * c == a * (b * c)
  {
  }

  lemma ChainedTwice(p: nat, q: nat, w: nat, c: nat, u: nat, x: nat, t: nat)
    requires q * w <= c * u && p * u <= c * t && c * c <= x
    ensures p * q * w <= x * t
  {
    Chained(p, q * w, c, u, c, x, t);
    Assoc(p, q, w);
  }

  lemma DroppedCovered(t: Tree, k: int, n: nat)
    requires t.Branch? && t.Size() <= n
    ensures var u := Splayed(t, k); Covered(t, Dropped(u, k), Rounds(t, k) + DropRounds(u, k), n)
  {
    if Splayed(t, k).left.Leaf? {
      ShiftCovered(t, k, n);
    } else {
      RemoveCovered(t, k, n);
    }
  }

  // ---- sequences of operations ----

  function Power(b: nat, m: nat): nat { if m == 0 then 1 else b * Power(b, m - 1) }

  lemma DroppedSize(t: Tree, k: int)
    requires t.Branch?
    ensures Dropped(t, k).Size() < t.Size()
  {
    if t.left.Branch? {
      SplitSize(t.left, k);
    }
  }

  // What the operation does to the size
  lemma OutcomeSize(t: Tree, op: Operation)
    ensures Outcome(t, op).Size() <= t.Size() + op.Grows()
  {
    if t.Branch? {
      var u := Splayed(t, op.Key());
      SplitSize(t, op.Key());
      match op
      case Put(n) => CrowningWeight(u, Toward(n.key, u.node), n);
      case Take(n) => DroppedSize(u, n.key);
      case Seek(_) =>
    }
  }

  // The amortised cost of one operation
  lemma OneCovered(t: Tree, op: Operation, n: nat)
    requires t.Size() + op.Grows() <= n && 1 <= n
    ensures Covered(t, Outcome(t, op), Cost(t, op), n)
  {
    if t.Leaf? {
      if op.Put? {
        PlantCovered(op.node);
        CoveredMore(t, Outcome(t, op), 0, 1, n);
      } else {
        NothingCovered(t, n);
      }
    } else {
      var u := Splayed(t, op.Key());
      SplayCovered(t, op.Key(), n);
      match op
      case Put(e) =>
        InsertCovered(t, e.key, Toward(e.key, u.node), e, n);
      case Take(e) =>
        DroppedCovered(t, e.key, n);
      case Seek(_) =>
    }
  }

  // The costs add up while the weights cancel out
  lemma {:induction false} AllCovered(t: Tree, ops: seq<Operation>, n: nat)
    requires t.Size() + Puts(ops) <= n && 1 <= n
    ensures Pow2(Total(t, ops)) * OutcomeAll(t, ops).Weight() <= Power(Price(n), |ops|) * t.Weight()
    decreases |ops|
  {
    if ops != [] {
      var u, r, more := Outcome(t, ops[0]), Cost(t, ops[0]), Total(Outcome(t, ops[0]), ops[1..]);
      OutcomeSize(t, ops[0]);
      OneCovered(t, ops[0], n);
      AllCovered(u, ops[1..], n);
      Pow2Sum(r, more);
      TwoCosts(Pow2(r), Pow2(more), OutcomeAll(t, ops).Weight(), u.Weight(), t.Weight(), Price(n),
               Power(Price(n), |ops| - 1));
    }
  }

  lemma TwoCosts(p: nat, q: nat, w: nat, u: nat, t: nat, b: nat, c: nat)
    requires p * u <= b * t && q * w <= c * u
    ensures p * q * w <= b * c * t
  {
    Swap(b, c);
    Chained(p, q * w, c, u, b, b * c, t);
    Assoc(p, q, w);
  }

  lemma {:induction false} PowerOfTwo(b: nat, e: nat, m: nat)
    requires b <= Pow2(e)
    ensures Power(b, m) <= Pow2(e * m)
  {
    if m > 0 {
      PowerOfTwo(b, e, m - 1);
      Times(b, Pow2(e), Power(b, m - 1), Pow2(e * (m - 1)));
      Pow2Sum(e, e * (m - 1));
      assert e * m == e + e * (m - 1);
    }
  }

  lemma PriceInTwos(n: nat, e: nat)
    requires n <= Pow2(e)
    ensures Price(n) <= Pow2(4 + 6 * e)
  {
    var p := Pow2(e);
    CubeGrows(n, p);
    Times(Cube(n), Cube(p), Cube(n), Cube(p));
    Pow2Sum(e, e);
    Pow2Sum(e, e + e);
    assert Cube(p) == Pow2(e + (e + e));
    Pow2Sum(3 * e, 3 * e);
    assert e + (e + e) == 3 * e;
    Pow2Sum(4, 6 * e);
    assert Pow2(4) == 16;
  }

  lemma Longer(a: nat, b: nat)
    requires a < b
    ensures Pow2(a) < Pow2(b)
  {
    Pow2Grows(a + 1, b);
    assert Pow2(a + 1) == 2 * Pow2(a);
  }

  lemma Shorter(a: nat, b: nat)
    requires Pow2(a) <= Pow2(b)
    ensures a <= b
  {
    if b < a {
      Longer(b, a);
    }
  }

  // Operations from the empty tree on, `n` of them insertions, cost on average a number of rounds logarithmic in `n`
  lemma Amortised(ops: seq<Operation>, e: nat)
    requires Puts(ops) + 1 <= Pow2(e)
    ensures Total(Leaf, ops) <= (4 + 6 * e) * |ops|
  {
    var n, last := Puts(ops) + 1, OutcomeAll(Leaf, ops);
    Heavy(last);
    AllCovered(Leaf, ops, n);
    PriceInTwos(n, e);
    PowerOfTwo(Price(n), 4 + 6 * e, |ops|);
    Lighter(Pow2(Total(Leaf, ops)), last.Weight(), Power(Price(n), |ops|), Pow2((4 + 6 * e) * |ops|));
    Shorter(Total(Leaf, ops), (4 + 6 * e) * |ops|);
  }

  lemma Lighter(p: nat, w: nat, x: nat, y: nat)
    requires p * w <= x * 1 && 1 <= w && x <= y
    ensures p <= y
  {
    Times(p, p, 1, w);
  }
}
