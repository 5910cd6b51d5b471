// Lists of handles with some left out, and what a scan of the async handles has done so far.
module AsyncLines {
  import opened Lists
  import opened Queue

  /** `s` without the elements of `gone`. */
  ghost function Except(s: seq<Link>, gone: set<Link>): seq<Link> {
    if s == [] then [] else (if s[0] in gone then [] else [s[0]]) + Except(s[1..], gone)
  }

  lemma {:induction false} ExceptTwice(s: seq<Link>, a: set<Link>, b: set<Link>)
    ensures Except(Except(s, a), b) == Except(s, a + b)
  {
    if s != [] {
      ExceptTwice(s[1..], a, b);
      if s[0] in a {
        assert Except(s, a) == Except(s[1..], a);
      } else {
        assert Except(s, a)[1..] == Except(s[1..], a);
      }
    }
  }

  lemma {:induction false} ExceptNone(s: seq<Link>, a: set<Link>)
    requires forall i :: 0 <= i < |s| ==> s[i] !in a
    ensures Except(s, a) == s
  {
    if s != [] {
      ExceptNone(s[1..], a);
    }
  }

  lemma {:induction false} ExceptJoin(s: seq<Link>, u: seq<Link>, a: set<Link>)
    ensures Except(s + u, a) == Except(s, a) + Except(u, a)
  {
    if s == [] {
      assert s + u == u;
    } else {
      assert (s + u)[1..] == s[1..] + u;
      ExceptJoin(s[1..], u, a);
    }
  }

  lemma {:induction false} ExceptAround(a: seq<Link>, x: Link, b: seq<Link>)
    requires x !in a && x !in b
    ensures Except(a + ([x] + b), {x}) == a + b
  {
    var s := a + ([x] + b);
    if a == [] {
      assert s[1..] == b;
      ExceptNone(b, {x});
    } else {
      assert s[1..] == a[1..] + ([x] + b);
      ExceptAround(a[1..], x, b);
    }
  }

  lemma ExceptOne(s: seq<Link>, k: int)
    requires NoDup(s) && 0 <= k < |s|
    ensures Except(s, {s[k]}) == s[..k] + s[k + 1..]
  {
    var a, b := s[..k], s[k + 1..];
    assert s == a + ([s[k]] + b);
    ExceptAround(a, s[k], b);
  }

  lemma {:induction false} ExceptElements(s: seq<Link>, a: set<Link>)
    ensures Elements(Except(s, a)) == Elements(s) - a
    ensures NoDup(s) ==> NoDup(Except(s, a))
  {
    if s != [] {
      ExceptElements(s[1..], a);
      assert Elements(s) == {s[0]} + Elements(s[1..]);
      assert Elements(Except(s, a)) == (if s[0] in a then {} else {s[0]}) + Elements(Except(s[1..], a));
      if NoDup(s) {
        assert s[0] !in s[1..];
        assert s[0] !in Elements(Except(s[1..], a));
        NotIn(s[0], Except(s[1..], a));
        DistinctJoin([s[0]], Except(s[1..], a));
      }
    }
  }

  // Lists without a common node have no neighbours in common
  lemma RingsApart(h: Link, s: seq<Link>, i: int, d: Link, u: seq<Link>)
    requires 0 <= i <= |s| && {h} + Elements(s) !! {d} + Elements(u)
    ensures forall x :: x in [d] + u ==> x != After([h] + s, i) && x != Ahead([h] + s, i)
  {
    assert After([h] + s, i) in {h} + Elements(s) && Ahead([h] + s, i) in {h} + Elements(s);
    assert forall x :: x in [d] + u ==> x in {d} + Elements(u);
  }

  // One of two lists loses an element, the other does not change
  lemma TakenOut(s: seq<Link>, u: seq<Link>, h: Link)
    requires Elements(s) !! Elements(u)
    ensures Elements(Except(s, {h})) == Elements(s) - {h} && Elements(Except(u, {h})) == Elements(u) - {h}
    ensures if h in Elements(u) then Except(s, {h}) == s else Except(u, {h}) == u
  {
    ExceptElements(s, {h});
    ExceptElements(u, {h});
    if h in Elements(u) {
      ExceptNone(s, {h});
    } else {
      ExceptNone(u, {h});
    }
  }

  lemma HeadAndRest(s: seq<Link>)
    requires s != [] && NoDup(s)
    ensures Except(s, {s[0]}) == s[1..] && s[0] in Elements(s) && Elements(s[1..]) == Elements(s) - {s[0]}
  {
    ExceptOne(s, 0);
    assert s[..0] + s[1..] == s[1..];
    ExceptElements(s, {s[0]});
  }

  // The head of one list goes to the end of the other
  lemma MovedOver(s: seq<Link>, u: seq<Link>)
    requires NoDup(u) && u != [] && Elements(s) !! Elements(u)
    ensures var t := s + [u[0]]; Elements(t) == Elements(s) + {u[0]} && Elements(t) !! Elements(u[1..])
    ensures Elements(s + [u[0]]) + Elements(u[1..]) == Elements(s) + Elements(u)
  {
    HeadAndRest(u);
    assert Elements(s + [u[0]]) == Elements(s) + {u[0]};
  }

  lemma BackInLine(listed: seq<Link>, batch: seq<Link>, line: Line)
    requires InLine(listed, batch, line) && batch != []
    ensures InLine(listed + [batch[0]], batch[1..], line)
  {
    ExceptJoin(listed, [batch[0]], line.born);
    assert batch[0] in Elements(batch);
    assert Except([batch[0]], line.born) == [batch[0]];
    assert Except(listed, line.born) + batch == Except(listed, line.born) + [batch[0]] + batch[1..];
    assert Elements(batch[1..]) <= Elements(batch);
  }

  // What became of the handles listed at the start: `born` came later, `dead` were closed since
  datatype Line = Line(from: seq<Link>, born: set<Link>, dead: set<Link>)

  ghost predicate InLine(listed: seq<Link>, batch: seq<Link>, line: Line) {
    && Except(listed, line.born) + batch == Except(line.from, line.dead)
    && Elements(line.from) !! line.born && Elements(batch) !! line.born
  }

  lemma NewInLine(listed: seq<Link>, batch: seq<Link>, line: Line, h: Link)
    requires InLine(listed, batch, line) && h !in Elements(listed) + Elements(batch) + Elements(line.from)
    ensures InLine(listed + [h], batch, line.(born := line.born + {h}))
  {
    var born := line.born + {h};
    ExceptJoin(listed, [h], born);
    ExceptTwice(listed, {h}, line.born);
    ExceptNone(listed, {h});
    assert {h} + line.born == born;
  }

  lemma GoneFromLine(listed: seq<Link>, batch: seq<Link>, line: Line, h: Link)
    requires InLine(listed, batch, line)
    ensures InLine(Except(listed, {h}), Except(batch, {h}), line.(dead := line.dead + {h}))
  {
    ExceptTwice(listed, {h}, line.born);
    ExceptTwice(listed, line.born, {h});
    assert {h} + line.born == line.born + {h};
    ExceptJoin(Except(listed, line.born), batch, {h});
    ExceptTwice(line.from, line.dead, {h});
    ExceptElements(batch, {h});
  }

  lemma {:induction false} ExceptShort(s: seq<Link>, a: set<Link>)
    ensures |Except(s, a)| <= |s|
  {
    if s != [] {
      ExceptShort(s[1..], a);
    }
  }
}
