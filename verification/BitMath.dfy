/** Unsigned machine arithmetic: powers of two and the bitwise `&` of two naturals. */
module BitMath {

  function Pow2(k: nat): (p: nat)
    ensures p >= 1
  {
    if k == 0 then 1 else 2 * Pow2(k - 1)
  }

  /** The bitwise conjunction, bit by bit from the least significant end. */
  function BitAnd(a: nat, b: nat): nat {
    if a == 0 || b == 0 then 0
    else (if a % 2 == 1 && b % 2 == 1 then 1 else 0) + 2 * BitAnd(a / 2, b / 2)
  }

  /** The remainder is the only value in range that differs by a multiple. */
  lemma ModUnique(x: int, q: int, m: nat, r: int)
    requires 0 <= r < m && x == m * q + r
    ensures x % m == r
  {
    var d := x / m - q;
    assert m * d == r - x % m by { assert m * (x / m) == m * q + m * d; }
    assert d >= 1 ==> m * d >= m;
    assert d <= -1 ==> m * d + m <= 0;
  }

  /** Dividing by 2m: the lowest bit, then the rest divided by m. */
  lemma ModDouble(a: nat, m: nat)
    requires m > 0
    ensures a % (2 * m) == a % 2 + 2 * ((a / 2) % m)
  {
    var h := a / 2;
    assert h == m * (h / m) + h % m;
    assert (2 * m) * (h / m) == 2 * (m * (h / m));
    ModUnique(a, h / m, 2 * m, a % 2 + 2 * (h % m));
  }

  lemma OddMask(a: nat, c: nat)
    ensures BitAnd(a, 2 * c + 1) == a % 2 + 2 * BitAnd(a / 2, c)
  {
    assert (2 * c + 1) / 2 == c && (2 * c + 1) % 2 == 1;
  }

  lemma EvenMask(a: nat, c: nat)
    ensures BitAnd(a, 2 * c) == 2 * BitAnd(a / 2, c)
  {
    assert (2 * c) / 2 == c && (2 * c) % 2 == 0;
  }

  /** `x & (2^k - 1)` is the remainder of x by 2^k. */
  lemma {:induction false} MaskIsMod(a: nat, k: nat)
    ensures BitAnd(a, Pow2(k) - 1) == a % Pow2(k)
    decreases k
  {
    if k != 0 {
      MaskIsMod(a / 2, k - 1);
      MaskStep(a, Pow2(k - 1), Pow2(k - 1) - 1, (a / 2) % Pow2(k - 1));
    }
  }

  lemma MaskStep(a: nat, m: nat, c: nat, r: nat)
    requires c + 1 == m && r == (a / 2) % m && BitAnd(a / 2, c) == r
    ensures BitAnd(a, 2 * c + 1) == a % (2 * m)
  {
    OddMask(a, c);
    ModDouble(a, m);
  }

  /** `~(2^k - 1)` on w-bit words. */
  function ClearMask(k: nat, w: nat): nat
    requires k <= w
  {
    Pow2Monotone(k, w);
    Pow2(w) - Pow2(k)
  }

  /** `x & ~(2^k - 1)` on w-bit words clears the k low bits. */
  lemma {:induction false} AlignMask(x: nat, k: nat, w: nat)
    requires k <= w && x < Pow2(w)
    ensures BitAnd(x, ClearMask(k, w)) == x - x % Pow2(k)
    decreases k
  {
    if k == 0 {
      MaskIsMod(x, w);
      ModUnique(x, 0, Pow2(w), x);
    } else {
      var c := ClearMask(k - 1, w - 1);
      AlignMask(x / 2, k - 1, w - 1);
      EvenMask(x, c);
      ModDouble(x, Pow2(k - 1));
      assert ClearMask(k, w) == 2 * c;
    }
  }

  lemma Pow2Monotone(a: nat, b: nat)
    requires a <= b
    ensures Pow2(a) <= Pow2(b)
    decreases b
  {
    if a < b { Pow2Monotone(a, b - 1); }
  }

  lemma {:induction false} Pow2Add(a: nat, b: nat)
    ensures Pow2(a + b) == Pow2(a) * Pow2(b)
    decreases b
  {
    if b != 0 {
      Pow2Add(a, b - 1);
      assert Pow2(a) * (2 * Pow2(b - 1)) == 2 * (Pow2(a) * Pow2(b - 1));
    }
  }

  const WORD := 0x1_0000_0000_0000_0000 // of uint64_t, size_t and uintptr_t

  lemma WordIsPow2()
    ensures Pow2(64) == WORD
  {
    var sixteen, word: nat := 16, 64;
    assert Pow2(8) == 0x100;
    Pow2Add(8, 8);
    assert Pow2(sixteen) == 0x1_0000;
    Pow2Add(sixteen, sixteen);
    Pow2Add(2 * sixteen, 2 * sixteen);
    assert Pow2(word) == WORD;
  }
}
