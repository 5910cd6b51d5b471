// A complete binary tree as the sequence of its rows: slot `p` has its kids in the slots `2p` and `2p + 1`.
module HeapShape {
  import opened Lists
  import opened Powers

  class Node {
    const key: int
    var left: Node?
    var right: Node?
    var parent: Node?

    constructor (key: int)
      ensures this.key == key
    {
      this.key := key;
      left, right, parent := null, null, null;
    }
  }

  function At(s: seq<Node>, p: int): Node? {
    if 1 <= p <= |s| then s[p - 1] else null
  }

  ghost predicate Linked(s: seq<Node>, p: int)
    requires 1 <= p <= |s|
    reads s[p - 1]
  {
    s[p - 1].left == At(s, 2 * p) && s[p - 1].right == At(s, 2 * p + 1) && s[p - 1].parent == At(s, p / 2)
  }

  ghost predicate AllLinked(s: seq<Node>)
    reads s
  {
    forall p {:trigger Linked(s, p)} :: 1 <= p <= |s| ==> Linked(s, p)
  }

  ghost function Swapped(s: seq<Node>, p: int, c: int): seq<Node>
    requires 1 <= p <= |s| && 1 <= c <= |s|
  {
    s[p - 1 := s[c - 1]][c - 1 := s[p - 1]]
  }

  // What the neighbours of slot `q` are after a swap of slot `p` and its kid `c`
  lemma SwapLinks(s: seq<Node>, p: int, c: int, q: int)
    requires 1 <= p <= |s| && 2 <= c <= |s| && c / 2 == p && 1 <= q <= |s|
    ensures At(Swapped(s, p, c), 2 * q) ==
            if 2 * q == c then s[p - 1] else if 2 * q == p then s[c - 1] else At(s, 2 * q)
    ensures At(Swapped(s, p, c), 2 * q + 1) ==
            if 2 * q + 1 == c then s[p - 1] else if 2 * q + 1 == p then s[c - 1] else At(s, 2 * q + 1)
    ensures At(Swapped(s, p, c), q / 2) ==
            if q / 2 == c then s[p - 1] else if q / 2 == p then s[c - 1] else At(s, q / 2)
    ensures (2 * q == c || 2 * q + 1 == c <==> q == p) && (q / 2 == c <==> q == 2 * c || q == 2 * c + 1)
    ensures q / 2 == p <==> q == c || q == if c == 2 * p then c + 1 else c - 1
    ensures 2 * q == p || 2 * q + 1 == p <==> q == p / 2
  {
  }

  // What the neighbours of slot `q` are after a node is put into the first free slot
  lemma AppendLinks(s: seq<Node>, n: Node, q: int)
    requires 1 <= q <= |s|
    ensures var t := s + [n]; At(t, q) == s[q - 1] && At(t, q / 2) == At(s, q / 2)
    ensures At(s + [n], 2 * q) == if 2 * q == |s| + 1 then n else At(s, 2 * q)
    ensures At(s + [n], 2 * q + 1) == if 2 * q + 1 == |s| + 1 then n else At(s, 2 * q + 1)
  {
  }

  // ---- the way to a slot ----

  // Where the bits of `path`, lowest first, lead from slot `p`
  ghost function Follow(p: nat, path: nat, k: nat): nat
    decreases k
  {
    if k == 0 then p else Follow(2 * p + path % 2, path / 2, k - 1)
  }

  lemma {:induction false} FollowDown(p: nat, path: nat, k: nat)
    ensures p <= Follow(p, path, k)
    decreases k
  {
    if k > 0 {
      FollowDown(2 * p + path % 2, path / 2, k - 1);
    }
  }

  // The path to slot `last`: one step for each row below the first
  method PathTo(last: nat) returns (path: nat, k: nat)
    requires 1 <= last < 0x1_0000_0000
    ensures Follow(1, path, k) == last && k == Log2(last) && Pow2(k) <= last && path < 0x1_0000_0000
  {
    path, k := 0, 0;
    var n := last;
    while n >= 2
      invariant n >= 1 && Follow(n, path, k) == last && path < Pow2(k) && k + Log2(n) == Log2(last)
    {
      path := path * 2 + n % 2;
      k := k + 1;
      n := n / 2;
    }
    Log2Bound(last);
  }

  // ---- the order ----

  ghost predicate Keeps(s: seq<Node>, p: int)
    requires 2 <= p <= |s|
  {
    s[p / 2 - 1].key <= s[p - 1].key
  }

  ghost predicate MinOrder(s: seq<Node>) {
    forall p {:trigger Keeps(s, p)} :: 2 <= p <= |s| ==> Keeps(s, p)
  }

  // The kids of slot `c` do not come before its parent
  ghost predicate Grand(s: seq<Node>, c: int)
    requires 1 <= c <= |s|
  {
    c >= 2 ==> forall p {:trigger Keeps(s, p)} :: 2 <= p <= |s| && p / 2 == c ==> s[c / 2 - 1].key <= s[p - 1].key
  }

  // In order but for slot `c`, which may come before its parent
  ghost predicate Rising(s: seq<Node>, c: int) {
    && 1 <= c <= |s| && Grand(s, c)
    && forall p {:trigger Keeps(s, p)} :: 2 <= p <= |s| && p != c ==> Keeps(s, p)
  }

  // In order but for slot `c`, which may come before its parent or after its kids
  ghost predicate Sinking(s: seq<Node>, c: int) {
    && 1 <= c <= |s| && Grand(s, c)
    && forall p {:trigger Keeps(s, p)} :: 2 <= p <= |s| && p != c && p / 2 != c ==> Keeps(s, p)
  }

  lemma Risen(s: seq<Node>, c: int)
    requires Rising(s, c) && (c == 1 || Keeps(s, c))
    ensures MinOrder(s)
  {
  }

  lemma Rise(s: seq<Node>, c: int)
    requires Rising(s, c) && c >= 2 && !Keeps(s, c)
    ensures Rising(Swapped(s, c / 2, c), c / 2)
  {
    var t, u := Swapped(s, c / 2, c), c / 2;
    assert u >= 2 ==> Keeps(s, u);
    forall p | 2 <= p <= |t| && p != u
      ensures Keeps(t, p) && (p / 2 == u && u >= 2 ==> t[u / 2 - 1].key <= t[p - 1].key)
    {
      assert p != c ==> Keeps(s, p);
      if p == c {} else if p / 2 == c {} else if p / 2 == u {} else {}
    }
  }

  lemma Sink(s: seq<Node>, c: int, m: int)
    requires Sinking(s, c) && 2 <= m <= |s| && m / 2 == c && s[m - 1].key < s[c - 1].key
    requires forall p {:trigger Keeps(s, p)} :: 2 <= p <= |s| && p / 2 == c ==> s[m - 1].key <= s[p - 1].key
    ensures Sinking(Swapped(s, c, m), m)
  {
    var t := Swapped(s, c, m);
    assert Keeps(s, m) || !Keeps(s, m);
    forall p | 2 <= p <= |t| && p != m && p / 2 != m
      ensures Keeps(t, p)
    {
      assert Keeps(s, p) || p == c || p / 2 == c;
      if p == c {} else if p / 2 == c {} else {}
    }
    forall p | 2 <= p <= |t| && p / 2 == m
      ensures t[m / 2 - 1].key <= t[p - 1].key
    {
      assert Keeps(s, p);
    }
  }

  lemma Sunk(s: seq<Node>, c: int)
    requires Sinking(s, c) && (2 * c <= |s| ==> Keeps(s, 2 * c)) && (2 * c + 1 <= |s| ==> Keeps(s, 2 * c + 1))
    ensures Rising(s, c)
  {
    forall p | 2 <= p <= |s| && p != c
      ensures Keeps(s, p)
    {
      assert p / 2 == c ==> p == 2 * c || p == 2 * c + 1;
    }
  }

  // The first slot holds a least node
  lemma {:induction false} FirstLeast(s: seq<Node>, p: int)
    requires MinOrder(s) && 1 <= p <= |s|
    ensures s[0].key <= s[p - 1].key
    decreases p
  {
    if p >= 2 {
      assert Keeps(s, p);
      FirstLeast(s, p / 2);
    }
  }

  lemma SwappedNodes(s: seq<Node>, p: int, c: int)
    requires 1 <= p <= |s| && 1 <= c <= |s|
    ensures (set n | n in Swapped(s, p, c)) == (set n | n in s)
    ensures NoDup(s) ==> NoDup(Swapped(s, p, c))
  {
    var t := Swapped(s, p, c);
    forall n | n in s
      ensures n in t
    {
      var i :| 0 <= i < |s| && s[i] == n;
      assert t[i] == n || t[p - 1] == n || t[c - 1] == n;
    }
  }

  // A new last node is in order but for its parent
  lemma Attached(s: seq<Node>, n: Node)
    requires MinOrder(s)
    ensures Rising(s + [n], |s| + 1)
  {
    var t := s + [n];
    forall p | 2 <= p <= |s|
      ensures Keeps(t, p)
    {
      assert Keeps(s, p);
    }
  }

  lemma Unlinked(s: seq<Node>, t: seq<Node>, n: Node)
    requires s == t + [n] && MinOrder(s)
    ensures MinOrder(t) && (set m | m in s) == (set m | m in t) + {n}
  {
    forall p | 2 <= p <= |t|
      ensures Keeps(t, p)
    {
      assert Keeps(s, p);
    }
  }

  lemma PlaceOf(s: seq<Node>, n: Node) returns (q: int)
    requires n in s
    ensures 1 <= q <= |s| && s[q - 1] == n
  {
    var i :| 0 <= i < |s| && s[i] == n;
    q := i + 1;
  }

  // Any node in the place of another leaves the rest in order
  lemma Replaced(s: seq<Node>, q: int, n: Node)
    requires MinOrder(s) && NoDup(s) && 1 <= q <= |s| && n !in s
    ensures var t := s[q - 1 := n]; Sinking(t, q) && (set m | m in t) == (set m | m in s) - {s[q - 1]} + {n}
  {
    var t := s[q - 1 := n];
    forall p | 2 <= p <= |t|
      ensures p != q && p / 2 != q ==> Keeps(t, p)
      ensures p / 2 == q && q >= 2 ==> t[q / 2 - 1].key <= t[p - 1].key
    {
      assert Keeps(s, p) && (q >= 2 ==> Keeps(s, q));
    }
    forall m
      ensures m in t <==> (m in s && m != s[q - 1]) || m == n
    {
      if m in s && m != s[q - 1] {
        var i :| 0 <= i < |s| && s[i] == m;
        assert t[i] == m;
      }
      assert t[q - 1] == n;
    }
  }
}
