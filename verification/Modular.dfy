/** Arithmetic of a cyclic index space `0 .. m-1`: what a residue says about the
    unbounded number behind it when that number is known up to less than one lap.

    `Mod` is the remainder, defined lap by lap so that no proof meets a product or a
    quotient of two variables; `ModIsRemainder` says that it is the operator `%`. */
module Modular {

  type pos = n: nat | n > 0 witness 1

  function Mod(a: nat, m: nat): (r: nat)
    requires m > 0
    ensures r < m && r <= a
  {
    if a < m then a else Mod(a - m, m)
  }

  lemma {:induction false} ModIsRemainder(a: nat, m: nat)
    requires m > 0
    ensures Mod(a, m) == a % m
  {
    if a >= m {
      ModIsRemainder(a - m, m);
      SameAfterLap(a, m);
    } else {
      Unique(a / m, a % m, 0, a, m);
    }
  }

  lemma {:induction false} SameAfterLap(a: nat, m: nat)
    requires 0 < m <= a
    ensures (a - m) % m == a % m
  {
    var q, r := (a - m) / m, (a - m) % m;
    assert a == (q + 1) * m + r;
    Unique(q + 1, r, a / m, a % m, m);
  }

  /** Division with remainder is unique. */
  lemma {:induction false} Unique(q: int, r: int, q': int, r': int, m: int)
    requires 0 < m && q * m + r == q' * m + r' && 0 <= r < m && 0 <= r' < m
    ensures r == r'
  {
    assert m * (q - q') == r' - r;
    SmallMultiple(m, q - q');
  }

  /** A multiple of `m` strictly between `-m` and `m` is zero. */
  lemma {:induction false} SmallMultiple(m: int, k: int)
    requires 0 < m && -m < m * k < m
    ensures k == 0
  {
  }

  /** Two numbers less than one lap apart with the same residue are equal. */
  lemma {:induction false} SameResidue(a: nat, b: nat, m: nat)
    requires 0 < m && Mod(a, m) == Mod(b, m) && a < b + m && b < a + m
    ensures a == b
  {
    if a >= m && b >= m {
      SameResidue(a - m, b - m, m);
    } else {
      assert Mod(a, m) == (if a >= m then a - m else a);
      assert Mod(b, m) == (if b >= m then b - m else b);
    }
  }

  /** Going `d` further, less than a lap, with the wrap at the end of the lap. */
  lemma {:induction false} Further(a: nat, d: nat, m: nat)
    requires d <= m && m > 0
    ensures Mod(a + d, m) == (if Mod(a, m) + d < m then Mod(a, m) + d else Mod(a, m) + d - m)
  {
    if a >= m {
      Further(a - m, d, m);
    } else if a + d >= m {
      assert Mod(a + d, m) == Mod(a + d - m, m);
    }
  }

  /** The distance between two counters less than one lap apart, read off their residues. */
  lemma {:induction false} Gap(lo: nat, hi: nat, m: nat)
    requires lo <= hi < lo + m
    ensures hi - lo == (if Mod(lo, m) <= Mod(hi, m) then Mod(hi, m) - Mod(lo, m)
                        else Mod(hi, m) - Mod(lo, m) + m)
  {
    Further(lo, hi - lo, m);
  }

  /** Counting one up. */
  lemma {:induction false} Successor(a: nat, m: nat)
    requires 0 < m
    ensures Mod(a + 1, m) == (if Mod(a, m) + 1 == m then 0 else Mod(a, m) + 1)
    ensures Mod(Mod(a, m) + 1, m) == Mod(a + 1, m)
  {
    Further(a, 1, m);
  }

  // Counting laps

  function Laps(a: nat, m: pos): nat {
    if a < m then 0 else 1 + Laps(a - m, m)
  }

  lemma {:induction false} LapsIsQuotient(a: nat, m: pos)
    ensures Laps(a, m) == a / m && Mod(a, m) == a % m
  {
    ModIsRemainder(a, m);
    if a >= m {
      LapsIsQuotient(a - m, m);
      NextLap(a, m);
    } else {
      NoLap(a, m);
    }
  }

  lemma {:induction false} NextLap(a: nat, m: pos)
    requires a >= m
    ensures a / m == (a - m) / m + 1
  {
    var q, r := (a - m) / m, (a - m) % m;
    assert a == (q + 1) * m + r;
    Unique(q + 1, r, a / m, a % m, m);
    assert m * (q + 1 - a / m) == 0;
    SmallMultiple(m, q + 1 - a / m);
  }

  lemma {:induction false} NoLap(a: nat, m: pos)
    requires a < m
    ensures a / m == 0
  {
  }

  lemma {:induction false} QuotientRemainder(a: nat, m: pos)
    ensures (a / m) * m + a % m == a
  {
  }
}
