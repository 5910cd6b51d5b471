// 32-bit unsigned words as numbers, their bits, and the power of two that follows a number.
module Words {
  import opened Powers

  const WRAP := 0x1_0000_0000

  ghost predicate Bit(n: nat, i: nat)
    decreases i
  {
    if i == 0 then n % 2 == 1 else Bit(n / 2, i - 1)
  }

  function Or(a: nat, b: nat): nat {
    if a == 0 && b == 0 then 0 else 2 * Or(a / 2, b / 2) + if a % 2 == 1 || b % 2 == 1 then 1 else 0
  }

  function Shr(n: nat, k: nat): nat
    decreases k
  {
    if k == 0 then n else Shr(n / 2, k - 1)
  }

  lemma {:induction false} ZeroBit(i: nat)
    ensures !Bit(0, i)
  {
    if i > 0 {
      ZeroBit(i - 1);
    }
  }

  lemma OrParts(a: nat, b: nat)
    requires a != 0 || b != 0
    ensures Or(a, b) / 2 == Or(a / 2, b / 2) && (Or(a, b) % 2 == 1 <==> a % 2 == 1 || b % 2 == 1)
  {
  }

  lemma {:induction false} OrBit(a: nat, b: nat, i: nat)
    ensures Bit(Or(a, b), i) <==> Bit(a, i) || Bit(b, i)
    decreases i
  {
    if a == 0 && b == 0 {
      ZeroBit(i);
    } else {
      OrParts(a, b);
      if i > 0 {
        OrBit(a / 2, b / 2, i - 1);
      }
    }
  }

  lemma {:induction false} ShrBit(n: nat, k: nat, i: nat)
    ensures Bit(Shr(n, k), i) <==> Bit(n, i + k)
    decreases k
  {
    if k > 0 {
      ShrBit(n / 2, k - 1, i);
    }
  }

  lemma {:induction false} HighBit(n: nat)
    requires n >= 1
    ensures Bit(n, Log2(n)) && Pow2(Log2(n)) <= n < 2 * Pow2(Log2(n))
  {
    if n >= 2 {
      HighBit(n / 2);
    }
  }

  lemma {:induction false} NoHigherBit(n: nat, i: nat)
    requires n == 0 || i > Log2(n)
    ensures !Bit(n, i)
    decreases i
  {
    if n < 2 {
      if i > 0 {
        ZeroBit(i - 1);
      } else {
        ZeroBit(i);
      }
    } else {
      NoHigherBit(n / 2, i - 1);
    }
  }

  // A number whose bits below `k` are the ones set
  lemma {:induction false} AllOnes(n: nat, k: nat)
    requires forall i: nat :: Bit(n, i) <==> i < k
    ensures n == Pow2(k) - 1
    decreases k
  {
    if k == 0 {
      if n > 0 {
        HighBit(n);
      }
    } else {
      assert Bit(n, 0);
      forall i: nat
        ensures Bit(n / 2, i) <==> i < k - 1
      {
        assert Bit(n, i + 1) <==> Bit(n / 2, i);
      }
      AllOnes(n / 2, k - 1);
    }
  }

  // Bit `i` of `r` is set when one of the `m` bits of `v` from there on is
  ghost predicate Smeared(v: nat, r: nat, m: nat) {
    forall i: nat {:trigger Bit(r, i)} :: Bit(r, i) <==> Among(v, i, m)
  }

  ghost predicate Among(v: nat, i: nat, m: nat) {
    exists j: nat {:trigger Bit(v, j)} :: i <= j < i + m && Bit(v, j)
  }

  lemma Smear(v: nat, r: nat, m: nat)
    requires Smeared(v, r, m)
    ensures Smeared(v, Or(r, Shr(r, m)), 2 * m)
  {
    forall i: nat
      ensures Bit(Or(r, Shr(r, m)), i) <==> Among(v, i, 2 * m)
    {
      OrBit(r, Shr(r, m), i);
      ShrBit(r, m, i);
      assert Bit(r, i) <==> Among(v, i, m);
      assert Bit(r, i + m) <==> Among(v, i + m, m);
    }
  }

  lemma SmearedAll(v: nat, r: nat)
    requires Smeared(v, r, 32) && v < WRAP
    ensures r == if v == 0 then 0 else 2 * Pow2(Log2(v)) - 1
  {
    if v == 0 {
      forall i: nat
        ensures !Bit(r, i)
      {
        forall j: nat
          ensures !Bit(v, j)
        {
          ZeroBit(j);
        }
      }
      AllOnes(r, 0);
    } else {
      var t := Log2(v);
      HighBit(v);
      Pow2Of32();
      if t >= 32 {
        Pow2Grows(32, t);
      }
      forall i: nat
        ensures Bit(r, i) <==> i < t + 1
      {
        forall j: nat | j > t
          ensures !Bit(v, j)
        {
          NoHigherBit(v, j);
        }
        assert i <= t ==> i <= t < i + 32;
        assert Bit(r, i) <==> Among(v, i, 32);
      }
      AllOnes(r, t + 1);
    }
  }

  ghost predicate IsPower(p: nat) {
    exists k: nat :: p == Pow2(k)
  }

  // The result is the least power of two that is not below the argument if that fits a word, and 0 if not
  method NextPowerOfTwo(val: nat) returns (r: nat)
    requires val < WRAP
    ensures r == 0 <==> val == 0 || val > 0x8000_0000
    ensures r != 0 ==> IsPower(r) && val <= r <= 0x8000_0000 && forall p: nat :: IsPower(p) && val <= p ==> r <= p
  {
    var v := (val + WRAP - 1) % WRAP;
    ghost var u := v;
    assert Smeared(u, v, 1);
    v := Or(v, Shr(v, 1));
    Smear(u, u, 1);
    ghost var v1 := v;
    v := Or(v, Shr(v, 2));
    Smear(u, v1, 2);
    ghost var v2 := v;
    v := Or(v, Shr(v, 4));
    Smear(u, v2, 4);
    ghost var v4 := v;
    v := Or(v, Shr(v, 8));
    Smear(u, v4, 8);
    ghost var v8 := v;
    v := Or(v, Shr(v, 16));
    Smear(u, v8, 16);
    SmearedAll(u, v);
    v := (v + 1) % WRAP;
    NextPower(val, u, v);
    return v;
  }

  // No power of two lies between a number and twice the one at its highest bit
  lemma LeastAbove(u: nat, p: nat)
    requires u >= 1 && IsPower(p) && u < p
    ensures 2 * Pow2(Log2(u)) <= p
  {
    HighBit(u);
    var k: nat :| p == Pow2(k);
    if k <= Log2(u) {
      Pow2Grows(k, Log2(u));
    } else {
      Pow2Grows(Log2(u) + 1, k);
    }
  }

  // The power above a word is a word, but for the words from 2^31 on
  lemma HighInWord(u: nat)
    requires 1 <= u < WRAP
    ensures if u < 0x8000_0000 then 2 * Pow2(Log2(u)) <= 0x8000_0000 else 2 * Pow2(Log2(u)) == WRAP
  {
    HighBit(u);
    Pow2Of32();
    var t := Log2(u);
    if t >= 32 {
      Pow2Grows(32, t);
    } else if t < 31 {
      Pow2Grows(t + 1, 31);
    }
  }

  lemma NextPower(val: nat, u: nat, r: nat)
    requires val < WRAP && u == (val + WRAP - 1) % WRAP
    requires r == if u == 0 then 1 else 2 * Pow2(Log2(u)) % WRAP
    ensures r == 0 <==> val == 0 || val > 0x8000_0000
    ensures r != 0 ==> IsPower(r) && val <= r <= 0x8000_0000 && forall p: nat :: IsPower(p) && val <= p ==> r <= p
  {
    assert u == if val == 0 then WRAP - 1 else val - 1;
    if u == 0 {
      assert r == Pow2(0);
    } else {
      HighInWord(u);
      HighBit(u);
      assert 2 * Pow2(Log2(u)) == Pow2(Log2(u) + 1);
      forall p: nat | IsPower(p) && u < p
        ensures 2 * Pow2(Log2(u)) <= p
      {
        LeastAbove(u, p);
      }
    }
  }
}
