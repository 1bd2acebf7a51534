/** Positions in a ring of `n` slots: where the k-th message (counting from 0) goes, and on which lap. */
module RingArith {

  /** Slot of message `k`; equal to `k % n` (see PosIsModulo), but free of non-linear arithmetic. */
  function Pos(k: nat, n: nat): (p: nat)
    requires 0 < n
    ensures p < n
    decreases k
  {
    if k < n then k else Pos(k - n, n)
  }

  /** True on the first, third, ... lap around the ring. */
  predicate OddLap(k: nat, n: nat)
    requires 0 < n
    decreases k
  {
    if k < n then true else !OddLap(k - n, n)
  }

  lemma {:induction false} PosIsModulo(k: nat, n: nat)
    requires 0 < n
    ensures Pos(k, n) == k % n
    ensures OddLap(k, n) <==> Even(k / n)
    decreases k
  {
    hide Even;
    if k < n {
      DivisionIsUnique(k, n, 0, k);
      assert Even(0) by {
        EvenZero();
      }
    } else {
      PosIsModulo(k - n, n);
      QuotientStep(k, n);
      EvenStep((k - n) / n);
    }
  }

  predicate Even(q: nat) {
    q % 2 == 0
  }

  lemma EvenZero()
    ensures Even(0)
  {
  }

  lemma EvenStep(q: nat)
    ensures Even(q + 1) == !Even(q)
  {
  }

  lemma QuotientStep(k: nat, n: nat)
    requires 0 < n <= k
    ensures k / n == (k - n) / n + 1
    ensures k % n == (k - n) % n
  {
    var q, r := (k - n) / n, (k - n) % n;
    assert k - n == n * q + r;
    assert k == n * (q + 1) + r by {
      assert n * (q + 1) == n * q + n;
    }
    DivisionIsUnique(k, n, q + 1, r);
  }

  lemma DivisionIsUnique(k: nat, n: nat, q: nat, r: nat)
    requires 0 < n && r < n && k == n * q + r
    ensures k / n == q && k % n == r
  {
    var q', r' := k / n, k % n;
    assert k == n * q' + r';
    if q < q' {
      ProductGap(n, q, q');
    } else if q' < q {
      ProductGap(n, q', q);
    }
  }

  lemma ProductGap(n: nat, a: nat, b: nat)
    requires a < b
    ensures n * a + n <= n * b
  {
    assert n * (b - a) == n + n * (b - a - 1);
    assert n * b == n * a + n * (b - a);
  }

  lemma FirstLap(k: nat, n: nat)
    requires k < n
    ensures Pos(k, n) == k && OddLap(k, n)
  {
  }

  lemma NextLap(k: nat, n: nat)
    requires 0 < n
    ensures Pos(k + n, n) == Pos(k, n) && OddLap(k + n, n) == !OddLap(k, n)
  {
  }

  /** Advancing a position by one: the increment-and-wrap of every ring in the repository. */
  lemma {:induction false} PosStep(k: nat, n: nat)
    requires 0 < n
    ensures Pos(k + 1, n) == if Pos(k, n) + 1 == n then 0 else Pos(k, n) + 1
    ensures OddLap(k + 1, n) == if Pos(k, n) + 1 == n then !OddLap(k, n) else OddLap(k, n)
    decreases k
  {
    if k < n {
      if k + 1 == n {
        assert Pos(0, n) == 0 && OddLap(0, n);
      }
    } else {
      PosStep(k - n, n);
      assert Pos(k + 1, n) == Pos(k + 1 - n, n);
    }
  }

  /** Two different messages share a slot only if they are at least a lap apart. */
  lemma {:induction false} PosInjective(i: nat, j: nat, n: nat)
    requires 0 < n && i < j < i + n
    ensures Pos(i, n) != Pos(j, n)
    decreases i
  {
    if i < n {
      if j >= n {
        assert j - n < i && Pos(j, n) == j - n;
      }
    } else {
      PosInjective(i - n, j - n, n);
    }
  }
}
