// Sequences of distinct items in ascending order of their keys: what the in-order walk of a search tree yields.
module Listings {
  import opened Lists

  datatype Side = Left | Right {
    function Opposite(): Side { if this == Left then Right else Left }
  }

  ghost predicate Ascending<T>(s: seq<T>, key: T -> int) {
    forall i, j :: 0 <= i < j < |s| ==> key(s[i]) < key(s[j])
  }

  // A set of items can be listed in key order in one way only
  lemma {:induction false} SortedOnce<T>(s: seq<T>, t: seq<T>, key: T -> int)
    requires Ascending(s, key) && Ascending(t, key) && Elements(s) == Elements(t)
    ensures s == t
  {
    assert t == [] || t[0] in Elements(t);
    if s != [] {
      assert s[0] in Elements(s);
      assert t[0] in Elements(t);
      assert s[0] in t && t[0] in s;
      assert s[0] == t[0];
      forall n
        ensures n in Elements(s[1..]) <==> n in Elements(t[1..])
      {
        assert n in Elements(s) <==> n == s[0] || n in Elements(s[1..]);
        assert n in Elements(t) <==> n == t[0] || n in Elements(t[1..]);
      }
      SortedOnce(s[1..], t[1..], key);
    }
  }

  // `t` is `s` with `e` put in somewhere
  ghost predicate PutIn<T>(s: seq<T>, e: T, t: seq<T>) {
    exists i :: PutInAt(s, e, t, i)
  }

  ghost predicate PutInAt<T>(s: seq<T>, e: T, t: seq<T>, i: int) {
    0 <= i <= |s| && t == s[..i] + [e] + s[i..]
  }

  lemma {:induction false} SlotOf<T>(s: seq<T>, e: T, key: T -> int) returns (i: nat)
    requires Ascending(s, key) && forall n :: n in s ==> key(n) != key(e)
    ensures i <= |s| && Ascending(s[..i] + [e] + s[i..], key)
  {
    i := 0;
    while i < |s| && key(s[i]) < key(e)
      invariant i <= |s| && forall j :: 0 <= j < i ==> key(s[j]) < key(e)
    {
      i := i + 1;
    }
    if i < |s| {
      assert s[i] in s;
    }
  }

  lemma Inserted<T>(s: seq<T>, i: nat, e: T)
    requires i <= |s|
    ensures Elements(s[..i] + [e] + s[i..]) == Elements(s) + {e}
  {
    assert s == s[..i] + s[i..];
  }

  // Two listings whose items differ in `e` list the others in the same order
  lemma OneMore<T>(s: seq<T>, t: seq<T>, e: T, key: T -> int)
    requires Ascending(s, key) && Ascending(t, key) && e !in s && Elements(t) == Elements(s) + {e}
    ensures PutIn(s, e, t)
  {
    forall n | n in s
      ensures key(n) != key(e)
    {
      assert n in Elements(s) && n in Elements(t) && e in Elements(t);
    }
    var i := SlotOf(s, e, key);
    Inserted(s, i, e);
    SortedOnce(s[..i] + [e] + s[i..], t, key);
    assert PutInAt(s, e, t, i);
  }

  // Joining two listings around an item that lies between them
  lemma Joined<T>(a: seq<T>, n: T, b: seq<T>, key: T -> int)
    requires Ascending(a, key) && Ascending(b, key)
    requires forall m :: m in Elements(a) ==> key(m) < key(n)
    requires forall m :: m in Elements(b) ==> key(n) < key(m)
    ensures Ascending(a + [n] + b, key) && Elements(a + [n] + b) == Elements(a) + {n} + Elements(b)
  {
    assert forall i :: 0 <= i < |a| ==> a[i] in Elements(a);
    assert forall i :: 0 <= i < |b| ==> b[i] in Elements(b);
  }
}
