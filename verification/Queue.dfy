// Circular lists threaded through their elements, and the sequences they stand for.
module Queue {
  import opened Lists

  class Link {
    var next: Link?
    var prev: Link?

    constructor ()
    {
      next, prev := null, null;
    }
  }

  ghost function After(r: seq<Link>, i: int): Link
    requires 0 <= i < |r|
  {
    if i + 1 < |r| then r[i + 1] else r[0]
  }

  ghost function Ahead(r: seq<Link>, i: int): Link
    requires 0 <= i < |r|
  {
    if i > 0 then r[i - 1] else r[|r| - 1]
  }

  ghost predicate Tied(r: seq<Link>, i: int)
    requires 0 <= i < |r|
    reads r[i]
  {
    r[i].next == After(r, i) && r[i].prev == Ahead(r, i)
  }

  /** The list with the head `h` holds the elements `s`, in this order. */
  ghost predicate Ring(h: Link, s: seq<Link>)
    reads [h] + s
  {
    h !in s && NoDup(s) && forall i {:trigger Tied([h] + s, i)} :: 0 <= i <= |s| ==> Tied([h] + s, i)
  }

  ghost predicate Disjoint(s: seq<Link>, u: seq<Link>) {
    forall i, j :: 0 <= i < |s| && 0 <= j < |u| ==> s[i] != u[j]
  }

  // The elements of a distinct sequence, cut or joined
  lemma DistinctJoin(s: seq<Link>, u: seq<Link>)
    requires NoDup(s) && NoDup(u) && Disjoint(s, u)
    ensures NoDup(s + u)
  {
  }

  lemma DistinctCut(s: seq<Link>, k: int)
    requires NoDup(s) && 0 <= k <= |s|
    ensures NoDup(s[..k]) && NoDup(s[k..]) && Disjoint(s[..k], s[k..])
  {
  }

  // The head and the elements together
  lemma DistinctRing(h: Link, s: seq<Link>)
    requires h !in s && NoDup(s)
    ensures NoDup([h] + s)
  {
    assert forall i :: 0 <= i < |s| ==> s[i] in s;
  }

  lemma NotIn(q: Link, s: seq<Link>)
    requires q !in s
    ensures Disjoint(s, [q]) && Disjoint([q], s)
  {
    assert forall i :: 0 <= i < |s| ==> s[i] in s;
  }

  method Init(q: Link)
    modifies q
    ensures Ring(q, [])
  {
    q.next := q;
    q.prev := q;
  }

  predicate IsEmpty(h: Link)
    reads h
  {
    h.next == h
  }

  method Head(h: Link, ghost s: seq<Link>) returns (q: Link)
    requires Ring(h, s) && s != []
    ensures q == s[0]
  {
    assert Tied([h] + s, 0);
    q := h.next;
  }

  lemma EmptyRing(h: Link, s: seq<Link>)
    requires Ring(h, s)
    ensures IsEmpty(h) <==> s == []
  {
    assert Tied([h] + s, 0);
  }

  method InsertTail(h: Link, q: Link, ghost s: seq<Link>)
    requires Ring(h, s) && q != h && q !in s
    modifies h`prev, Ahead([h] + s, 0)`next, q
    ensures Ring(h, s + [q])
  {
    ghost var r, t := [h] + s, [h] + (s + [q]);
    NotIn(q, s);
    DistinctRing(h, s);
    DistinctJoin(s, [q]);
    assert Tied(r, 0) && Tied(r, |s|);
    q.next := h;
    q.prev := h.prev;
    q.prev.next := q;
    h.prev := q;
    forall i | 0 <= i < |t|
      ensures Tied(t, i)
    {
      assert i <= |s| ==> old(Tied(r, i));
      if i == 0 {} else if i == |s| {} else if i == |s| + 1 {} else {}
    }
  }

  method InsertHead(h: Link, q: Link, ghost s: seq<Link>)
    requires Ring(h, s) && q != h && q !in s
    modifies h`next, After([h] + s, 0)`prev, q
    ensures Ring(h, [q] + s)
  {
    ghost var r, t := [h] + s, [h] + ([q] + s);
    NotIn(q, s);
    DistinctRing(h, s);
    DistinctJoin([q], s);
    assert Tied(r, 0) && Tied(r, |s|);
    q.next := h.next;
    q.prev := h;
    q.next.prev := q;
    h.next := q;
    forall i | 0 <= i < |t|
      ensures Tied(t, i)
    {
      assert i >= 1 ==> old(Tied(r, i - 1));
      if i == 0 {} else if i == 1 {} else if i == 2 {} else {}
    }
  }

  method Remove(q: Link, ghost h: Link, ghost s: seq<Link>, ghost k: int)
    requires Ring(h, s) && 0 <= k < |s| && s[k] == q
    modifies Ahead([h] + s, k + 1)`next, After([h] + s, k + 1)`prev
    ensures Ring(h, s[..k] + s[k + 1..])
  {
    ghost var r, t := [h] + s, [h] + (s[..k] + s[k + 1..]);
    DistinctRing(h, s);
    assert Tied(r, k + 1) && Tied(r, k) && (k + 2 < |r| ==> Tied(r, k + 2));
    q.prev.next := q.next;
    q.next.prev := q.prev;
    forall i | 0 <= i < |t|
      ensures Tied(t, i)
    {
      assert old(Tied(r, i)) && (i > k ==> old(Tied(r, i + 1)));
      if i == k {} else if i == k + 1 {} else if i < k {} else {}
    }
  }

  // QUEUE_ADD: the elements of `n` are appended to those of `h`
  method Add(h: Link, n: Link, ghost s: seq<Link>, ghost u: seq<Link>)
    requires Ring(h, s) && Ring(n, u) && n !in [h] + s && h !in u && Disjoint(s, u)
    modifies h, n, s, u
    ensures Ring(h, s + u)
  {
    ghost var r, w, t := [h] + s, [n] + u, [h] + (s + u);
    DistinctRing(h, s);
    DistinctRing(n, u);
    DistinctJoin(s, u);
    assert Tied(r, 0) && Tied(r, |s|) && Tied(w, 0) && Tied(w, |u|) && (|u| > 0 ==> Tied(w, 1));
    h.prev.next := n.next;
    n.next.prev := h.prev;
    h.prev := n.prev;
    h.prev.next := h;
    forall i | 0 <= i < |t|
      ensures Tied(t, i)
    {
      assert i <= |s| ==> old(Tied(r, i));
      assert i > |s| ==> old(Tied(w, i - |s|));
      if i == 0 {} else if i < |s| {} else if i == |s| {} else if i == |s| + 1 {} else {}
    }
  }

  // QUEUE_SPLIT: `n` takes over the elements from `q` on
  method Split(h: Link, q: Link, n: Link, ghost s: seq<Link>, ghost k: int)
    requires Ring(h, s) && n !in [h] + s && 0 <= k < |s| && s[k] == q
    modifies h, n, s
    ensures Ring(h, s[..k]) && Ring(n, s[k..])
  {
    ghost var r, t, w := [h] + s, [h] + s[..k], [n] + s[k..];
    DistinctRing(h, s);
    DistinctCut(s, k);
    NotIn(n, s);
    assert Tied(r, 0) && Tied(r, |s|) && Tied(r, k) && Tied(r, k + 1);
    n.prev := h.prev;
    n.prev.next := n;
    n.next := q;
    h.prev := q.prev;
    h.prev.next := h;
    q.prev := n;
    forall i | 0 <= i < |t|
      ensures Tied(t, i)
    {
      assert old(Tied(r, i));
      if i == 0 {} else if i == k {} else {}
    }
    forall i | 0 <= i < |w|
      ensures Tied(w, i)
    {
      assert i > 0 ==> old(Tied(r, i + k));
      if i == 0 {} else if i == 1 {} else if i == |w| - 1 {} else {}
    }
  }

  // QUEUE_MOVE: `n` takes over all elements
  method Move(h: Link, n: Link, ghost s: seq<Link>)
    requires Ring(h, s) && n !in [h] + s
    modifies h, n, s
    ensures Ring(h, []) && Ring(n, s)
  {
    EmptyRing(h, s);
    if IsEmpty(h) {
      Init(n);
    } else {
      var q := Head(h, s);
      Split(h, q, n, s, 0);
    }
  }
}
