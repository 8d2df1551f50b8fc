/** The pseudo-random link generator of the pointer chase, `o -> (13*o + 7) mod 2^k`,
    and its full period: a single cycle through all 2^k lines, for every k. */
module FullPeriod {
  import opened BitMath
  import opened FiniteSets

  function Power(b: nat, e: nat): (p: nat)
  {
    if e == 0 then 1 else b * Power(b, e - 1)
  }

  /** One step modulo m. */
  function Step(o: nat, m: nat): (r: nat)
    requires m > 0
    ensures r < m
  {
    (13 * o + 7) % m
  }

  /** The line reached after n steps from line 0. */
  function Orbit(n: nat, m: nat): (r: nat)
    requires m > 0
    ensures r < m
  {
    if n == 0 then 0 else Step(Orbit(n - 1, m), m)
  }

  /** The same walk without reduction. */
  function X(n: nat): nat {
    if n == 0 then 0 else 13 * X(n - 1) + 7
  }

  lemma ModOfSum(a: int, b: int, m: nat)
    requires m > 0
    ensures (a + b) % m == a % m <==> b % m == 0
  {
    var q, r, s := a / m, a % m, b % m;
    assert a == m * q + r;
    assert b == m * (b / m) + s;
    assert a + b == m * (q + b / m) + (r + s);
    if r + s < m {
      ModUnique(a + b, q + b / m, m, r + s);
    } else {
      assert a + b == m * (q + b / m + 1) + (r + s - m);
      ModUnique(a + b, q + b / m + 1, m, r + s - m);
    }
  }

  lemma {:induction false} OrbitIsReducedX(n: nat, m: nat)
    requires m > 0
    ensures Orbit(n, m) == X(n) % m
  {
    if n == 0 {
      ModUnique(0, 0, m, 0);
    } else {
      OrbitIsReducedX(n - 1, m);
      var x := X(n - 1);
      assert x == m * (x / m) + x % m;
      assert 13 * x + 7 == (13 * (x % m) + 7) + m * (13 * (x / m));
      ModUnique(m * (13 * (x / m)), 13 * (x / m), m, 0);
      ModOfSum(13 * (x % m) + 7, m * (13 * (x / m)), m);
    }
  }

  /** i + d steps are i steps followed by d steps, scaled by 13^i. */
  lemma {:induction false} XSplit(i: nat, d: nat)
    ensures X(i + d) == X(i) + Power(13, i) * X(d)
    decreases i
  {
    if i != 0 {
      XSplit(i - 1, d);
      Thirteenfold(Power(13, i - 1), X(d));
    }
  }

  lemma Thirteenfold(p: nat, y: nat)
    ensures 13 * (p * y) == (13 * p) * y
  {
  }

  lemma TimesThirteen(p: nat)
    requires p % 4 == 1
    ensures (13 * p) % 4 == 1
  {
    assert 13 * p == 4 * (13 * (p / 4) + 3) + 1;
  }

  lemma {:induction false} PowerMod4(m: nat)
    ensures Power(13, m) % 4 == 1
  {
    if m != 0 {
      PowerMod4(m - 1);
      TimesThirteen(Power(13, m - 1));
    }
  }

  lemma StepParity(x: nat, n: nat)
    requires x % 2 == n % 2
    ensures (13 * x + 7) % 2 == (n + 1) % 2
  {
    var h := x / 2;
    if x % 2 == 0 {
      ModUnique(13 * x + 7, 13 * h + 3, 2, 1);
    } else {
      ModUnique(13 * x + 7, 13 * h + 10, 2, 0);
    }
  }

  lemma {:induction false} XParity(n: nat)
    ensures X(n) % 2 == n % 2
  {
    if n != 0 {
      XParity(n - 1);
      StepParity(X(n - 1), n - 1);
    }
  }

  lemma EvenMod(y: nat, m: nat)
    requires m > 0
    ensures (2 * y) % (2 * m) == 0 <==> y % m == 0
  {
    ModDouble(2 * y, m);
  }

  lemma OddNotDivisible(a: nat, k: nat)
    requires k > 0 && a % 2 == 1
    ensures a % Pow2(k) != 0
  {
    ModDouble(a, Pow2(k - 1));
  }

  lemma OddProduct(a: nat, b: nat)
    requires a % 2 == 1 && b % 2 == 1
    ensures (a * b) % 2 == 1
  {
    var h := b / 2;
    assert a * b == 2 * (a * h) + a by { assert b == 2 * h + 1; assert a * (2 * h + 1) == 2 * (a * h) + a; }
  }

  /** An odd factor never helps a power of two divide. */
  lemma {:induction false} OddFactor(a: nat, q: nat, k: nat)
    requires q % 2 == 1
    ensures (a * q) % Pow2(k) == 0 <==> a % Pow2(k) == 0
    decreases k
  {
    if k == 0 {
    } else if a % 2 == 1 {
      OddProduct(a, q);
      OddNotDivisible(a * q, k);
      OddNotDivisible(a, k);
    } else {
      var b := a / 2;
      OddFactor(b, q, k - 1);
      EvenMod(b, Pow2(k - 1));
      EvenMod(b * q, Pow2(k - 1));
      assert a * q == 2 * (b * q) by { assert a == 2 * b; }
    }
  }

  /** X(2m) = X(m) * (13^m + 1), and 13^m + 1 is twice an odd number. */
  lemma XDoubled(m: nat) returns (h: nat)
    ensures h % 2 == 1 && X(2 * m) == 2 * (X(m) * h)
  {
    PowerMod4(m);
    XSplit(m, m);
    h := Regroup(X(m), Power(13, m));
  }

  lemma Regroup(x: nat, p: nat) returns (h: nat)
    requires p % 4 == 1
    ensures h % 2 == 1 && x + p * x == 2 * (x * h)
  {
    h := 2 * (p / 4) + 1;
    assert p == 2 * h - 1;
    assert (2 * h - 1) * x == 2 * (x * h) - x;
  }

  /** The heart of the full-period theorem: 2^k divides the n-th term exactly when it divides n. */
  lemma {:induction false} XDivisible(n: nat, k: nat)
    ensures X(n) % Pow2(k) == 0 <==> n % Pow2(k) == 0
    decreases k
  {
    if k == 0 {
    } else if n % 2 == 1 {
      XParity(n);
      OddNotDivisible(X(n), k);
      OddNotDivisible(n, k);
    } else {
      var m := n / 2;
      var h := XDoubled(m);
      EvenMod(X(m) * h, Pow2(k - 1));
      OddFactor(X(m), h, k - 1);
      XDivisible(m, k - 1);
      EvenMod(m, Pow2(k - 1));
    }
  }

  lemma {:induction false} PowerOdd(i: nat)
    ensures Power(13, i) % 2 == 1
  {
    PowerMod4(i);
  }

  /** Two steps of the walk meet exactly when their numbers agree modulo 2^k:
      the first 2^k lines are pairwise distinct and the walk is back at 0 after exactly 2^k steps. */
  lemma FullPeriod(i: nat, j: nat, k: nat)
    ensures Orbit(i, Pow2(k)) == Orbit(j, Pow2(k)) <==> i % Pow2(k) == j % Pow2(k)
  {
    if i > j {
      FullPeriodOrdered(j, i, k);
    } else {
      FullPeriodOrdered(i, j, k);
    }
  }

  lemma FullPeriodOrdered(i: nat, j: nat, k: nat)
    requires i <= j
    ensures Orbit(i, Pow2(k)) == Orbit(j, Pow2(k)) <==> i % Pow2(k) == j % Pow2(k)
  {
    var m, d, p := Pow2(k), j - i, Power(13, i);
    OrbitIsReducedX(i, m);
    OrbitIsReducedX(j, m);
    XSplit(i, d);
    ModOfSum(X(i), p * X(d), m);
    PowerOdd(i);
    OddFactor(X(d), p, k);
    assert X(d) * p == p * X(d);
    XDivisible(d, k);
    ModOfSum(i, d, m);
  }

  /** Returning to line 0: after n steps exactly when 2^k divides n. */
  lemma ReturnsToZero(n: nat, k: nat)
    ensures Orbit(n, Pow2(k)) == 0 <==> n % Pow2(k) == 0
  {
    FullPeriod(n, 0, k);
    ModUnique(0, 0, Pow2(k), 0);
  }

  /** The lines visited during the first n steps. */
  ghost function Visited(n: nat, m: nat): set<nat>
    requires m > 0
  {
    set i | 0 <= i < n :: Orbit(i, m)
  }

  lemma {:induction false} VisitedSize(n: nat, k: nat)
    requires n <= Pow2(k)
    ensures |Visited(n, Pow2(k))| == n
  {
    var m := Pow2(k);
    if n != 0 {
      VisitedSize(n - 1, k);
      assert Visited(n, m) == Visited(n - 1, m) + {Orbit(n - 1, m)};
      forall i | 0 <= i < n - 1
        ensures Orbit(i, m) != Orbit(n - 1, m)
      {
        FullPeriod(i, n - 1, k);
        ModUnique(i, 0, m, i);
        ModUnique(n - 1, 0, m, n - 1);
      }
    }
  }

  /** Every line is on the cycle, at exactly one step of each period. */
  lemma EveryLineVisited(line: nat, k: nat) returns (t: nat)
    requires line < Pow2(k)
    ensures t < Pow2(k) && Orbit(t, Pow2(k)) == line
    ensures forall n: nat :: Orbit(n, Pow2(k)) == line <==> n % Pow2(k) == t
  {
    var m := Pow2(k);
    VisitedSize(m, k);
    SubsetOfSameSize(Visited(m, m), Below(m));
    assert line in Visited(m, m);
    t :| 0 <= t < m && Orbit(t, m) == line;
    ModUnique(t, 0, m, t);
    forall n: nat
      ensures Orbit(n, m) == line <==> n % m == t
    {
      FullPeriod(n, t, k);
    }
  }
}
