// Sequences without repetitions, taking an element out of one, and what comes before what.
module Lists {

  ghost function Elements<T>(s: seq<T>): set<T> { set n | n in s }

  ghost predicate NoDup<T>(s: seq<T>) {
    forall i, j :: 0 <= i < |s| && 0 <= j < |s| && s[i] == s[j] ==> i == j
  }

  function Without<T(==)>(s: seq<T>, x: T): seq<T> {
    if s == [] then [] else if s[0] == x then s[1..] else [s[0]] + Without(s[1..], x)
  }

  lemma {:induction false} WithoutCut<T>(s: seq<T>, x: T) returns (p: nat)
    requires x in s
    ensures p < |s| && s[p] == x && Without(s, x) == s[..p] + s[p + 1..]
  {
    if s[0] == x {
      p := 0;
    } else {
      p := WithoutCut(s[1..], x);
      p := p + 1;
    }
  }

  lemma {:induction false} WithoutNone<T>(s: seq<T>, x: T)
    requires x !in s
    ensures Without(s, x) == s
  {
    if s != [] {
      WithoutNone(s[1..], x);
    }
  }

  lemma WithoutIn<T>(s: seq<T>, x: T)
    requires NoDup(s)
    ensures NoDup(Without(s, x)) && |Without(s, x)| <= |s|
    ensures forall y :: y in Without(s, x) <==> y in s && y != x
  {
    if x in s {
      var p := WithoutCut(s, x);
    } else {
      WithoutNone(s, x);
    }
  }

  lemma NoDupParts<T>(s: seq<T>, u: seq<T>)
    requires NoDup(s + u)
    ensures NoDup(s) && NoDup(u) && forall x :: x in s ==> x !in u
  {
    forall i | 0 <= i < |s|
      ensures s[i] == (s + u)[i]
    {
    }
    forall i | 0 <= i < |u|
      ensures u[i] == (s + u)[|s| + i]
    {
    }
  }

  lemma NoDupJoin<T>(s: seq<T>, u: seq<T>)
    requires NoDup(s) && NoDup(u) && forall x :: x in s ==> x !in u
    ensures NoDup(s + u)
  {
    assert forall i :: 0 <= i < |s| ==> s[i] in s;
    assert forall i :: 0 <= i < |u| ==> u[i] in u;
  }

  // Every `x` comes before every `y`
  ghost predicate Precedes<T>(q: seq<T>, x: T, y: T) {
    forall p, r {:trigger q[p], q[r]} :: 0 <= p < |q| && 0 <= r < |q| && q[p] == x && q[r] == y ==> p < r
  }

  lemma PrecedesSnoc<T>(q: seq<T>, x: T, y: T, z: T)
    requires Precedes(q, x, y) && z != x
    ensures Precedes(q + [z], x, y)
  {
    var t := q + [z];
    forall p, r | 0 <= p < |t| && 0 <= r < |t| && t[p] == x && t[r] == y
      ensures p < r
    {
      assert p < |q| && q[p] == x;
      assert r < |q| ==> q[r] == y;
    }
  }

  lemma NotFirst<T>(q: seq<T>, x: T, y: T)
    requires Precedes(q, x, y) && x in q
    ensures q[0] != y
  {
    var p :| 0 <= p < |q| && q[p] == x;
    assert q[0] == y ==> p < 0;
  }

  lemma PrecedesRest<T>(q: seq<T>, x: T, y: T)
    requires q != [] && Precedes(q, x, y)
    ensures Precedes(q[1..], x, y)
  {
    var t := q[1..];
    forall p, r | 0 <= p < |t| && 0 <= r < |t| && t[p] == x && t[r] == y
      ensures p < r
    {
      assert q[p + 1] == x && q[r + 1] == y;
    }
  }

  lemma PrecedesInserted<T>(q: seq<T>, z: T, u: seq<T>, x: T, y: T)
    requires Precedes(q + u, x, y) && z != x && z != y
    ensures Precedes(q + [z] + u, x, y)
  {
    var v, t := q + u, q + [z] + u;
    forall p, r | 0 <= p < |t| && 0 <= r < |t| && t[p] == x && t[r] == y
      ensures p < r
    {
      var p', r' := if p < |q| then p else p - 1, if r < |q| then r else r - 1;
      assert v[p'] == x && v[r'] == y;
    }
  }

  lemma PrecedesCut<T>(q: seq<T>, k: nat, x: T, y: T)
    requires k < |q| && Precedes(q, x, y)
    ensures Precedes(q[..k] + q[k + 1..], x, y)
  {
    var t := q[..k] + q[k + 1..];
    forall p, r | 0 <= p < |t| && 0 <= r < |t| && t[p] == x && t[r] == y
      ensures p < r
    {
      var p', r' := if p < k then p else p + 1, if r < k then r else r + 1;
      assert q[p'] == x && q[r'] == y;
    }
  }

  lemma PrecedesWithout<T>(q: seq<T>, z: T, x: T, y: T)
    requires Precedes(q, x, y)
    ensures Precedes(Without(q, z), x, y)
  {
    if z in q {
      var k := WithoutCut(q, z);
      PrecedesCut(q, k, x, y);
    } else {
      WithoutNone(q, z);
    }
  }

  lemma PrecedesWithoutBoth<T>(q: seq<T>, u: seq<T>, z: T, x: T, y: T)
    requires Precedes(q + u, x, y)
    ensures Precedes(Without(q, z) + Without(u, z), x, y)
  {
    var v := Without(q, z) + u;
    assert Precedes(v, x, y) by {
      if z in q {
        var k := WithoutCut(q, z);
        PrecedesCut(q + u, k, x, y);
        assert (q + u)[..k] + (q + u)[k + 1..] == v;
      } else {
        WithoutNone(q, z);
      }
    }
    if z in u {
      var k := WithoutCut(u, z);
      var m := |v| - |u| + k;
      PrecedesCut(v, m, x, y);
      assert v[..m] + v[m + 1..] == Without(q, z) + Without(u, z);
    } else {
      WithoutNone(u, z);
    }
  }
}
