/** Positions as 64-bit words: the mask `pos & buffer_mask_`, the power-of-two
    test of the constructor, and the sign of `(intptr_t)seq - (intptr_t)pos`. */
module PositionBits {

  /** Bitwise and. */
  function BitAnd(a: nat, b: nat): nat
    decreases a
  {
    if a == 0 || b == 0 then 0
    else 2 * BitAnd(a / 2, b / 2) + (if a % 2 == 1 && b % 2 == 1 then 1 else 0)
  }

  function Pow2(k: nat): (r: nat)
    ensures r >= 1
  {
    if k == 0 then 1 else 2 * Pow2(k - 1)
  }

  /** Masking with 2^k - 1 is the remainder by 2^k. */
  lemma {:induction false} MaskIsRemainder(pos: nat, k: nat)
    ensures BitAnd(pos, Pow2(k) - 1) == pos % Pow2(k)
    decreases pos
  {
    if pos == 0 || k == 0 {
      NoBits(pos, Pow2(k) - 1);
      RemainderUnique(pos, Pow2(k), pos, 0);
    } else {
      hide BitAnd;
      MaskIsRemainder(pos / 2, k - 1);
      OddMask(pos, Pow2(k) - 1, Pow2(k - 1) - 1);
      HalveRemainder(pos, Pow2(k - 1), Pow2(k));
    }
  }

  lemma NoBits(a: nat, b: nat)
    requires a == 0 || b == 0
    ensures BitAnd(a, b) == 0
  {
  }

  lemma OddMask(pos: nat, mask: nat, low: nat)
    requires pos > 0 && mask == 2 * low + 1
    ensures BitAnd(pos, mask) == 2 * BitAnd(pos / 2, low) + pos % 2
  {
    assert mask / 2 == low && mask % 2 == 1;
  }

  lemma HalveRemainder(pos: nat, half: nat, m: nat)
    requires half > 0 && m == 2 * half
    ensures pos % m == 2 * ((pos / 2) % half) + pos % 2
  {
    var q, r := pos / 2 / half, (pos / 2) % half;
    assert pos / 2 == half * q + r;
    assert m * q == 2 * (half * q);
    RemainderUnique(pos, m, q, 2 * r + pos % 2);
  }

  lemma RemainderUnique(a: nat, m: nat, q: nat, r: nat)
    requires m > 0 && r < m && a == m * q + r
    ensures a % m == r
  {
    var d := a / m - q;
    assert a == m * (a / m) + a % m;
    assert m * d == r - a % m;
    assert d >= 1 ==> m * d >= m;
    assert d <= -1 ==> m * d + m <= 0;
  }

  /** `n & (n - 1)` is zero for the powers of two and for nothing else. */
  lemma {:induction false} PowerOfTwoTest(n: nat) returns (k: nat)
    requires n > 0 && BitAnd(n, n - 1) == 0
    ensures n == Pow2(k)
  {
    if n == 1 {
      k := 0;
    } else {
      OddSharesBits(n);
      assert (n - 1) / 2 == n / 2 - 1;
      k := PowerOfTwoTest(n / 2);
      k := k + 1;
    }
  }

  lemma OddSharesBits(n: nat)
    requires n > 1
    ensures n % 2 == 1 ==> BitAnd(n, n - 1) > 0
  {
    if n % 2 == 1 {
      assert (n - 1) / 2 == n / 2;
      BitAndSelf(n / 2);
    }
  }

  lemma {:induction false} BitAndSelf(a: nat)
    ensures BitAnd(a, a) == a
  {
    if a > 0 { BitAndSelf(a / 2); }
  }

  lemma {:induction false} PowerOfTwoPasses(k: nat)
    ensures BitAnd(Pow2(k), Pow2(k) - 1) == 0
  {
    MaskIsRemainder(Pow2(k), k);
    RemainderUnique(Pow2(k), Pow2(k), 1, 0);
  }

  // ---------- 64-bit words ----------

  const WORD := 0x1_0000_0000_0000_0000

  /** The difference the code computes: both words as two's complement integers,
      subtracted with wrap-around. */
  function SignedDifference(a: nat, b: nat): int
  {
    var d := (a % WORD - b % WORD) % WORD;
    if d < WORD / 2 then d else d - WORD
  }

  /** The wrapped difference of two unbounded positions is their true difference
      exactly if they are less than half a lap of the word apart. */
  lemma WrappedDifference(a: nat, b: nat)
    ensures SignedDifference(a, b) == a - b <==> -(WORD / 2) <= a - b < WORD / 2
  {
    var q := a / WORD - b / WORD;
    var d := a % WORD - b % WORD;
    assert a - b == WORD * q + d;
  }

  /** Masking a wrapped position gives the cell of the unbounded position. */
  lemma MaskOfWrapped(pos: nat, k: nat)
    requires k <= 64
    ensures BitAnd(pos % WORD, Pow2(k) - 1) == pos % Pow2(k)
  {
    MaskIsRemainder(pos % WORD, k);
    Pow2Sum(k, 64 - k);
    Pow2Word();
    RemainderOfRemainder(pos, Pow2(k), Pow2(64 - k));
  }

  lemma RemainderOfRemainder(a: nat, n: nat, m: nat)
    requires n > 0 && m > 0
    ensures n * m > 0 && (a % (n * m)) % n == a % n
  {
    PositiveProduct(n, m);
    var w := n * m;
    var q, r := a / w, a % w;
    DivMod(a, w);
    DivMod(r, n);
    Regroup(a, n, m, q, r, r / n, r % n);
    RemainderUnique(a, n, m * q + r / n, r % n);
  }

  lemma PositiveProduct(n: nat, m: nat)
    requires n > 0 && m > 0
    ensures n * m >= n
  {
  }

  lemma DivMod(a: nat, n: nat)
    requires n > 0
    ensures a == n * (a / n) + a % n && a / n >= 0 && a % n < n
  {
  }

  lemma Regroup(a: nat, n: nat, m: nat, q: nat, r: nat, rq: nat, rr: nat)
    requires a == (n * m) * q + r && r == n * rq + rr
    ensures a == n * (m * q + rq) + rr
  {
    assert (n * m) * q == n * (m * q);
  }

  lemma {:induction false} Pow2Sum(a: nat, b: nat)
    ensures Pow2(a + b) == Pow2(a) * Pow2(b)
    decreases a
  {
    if a > 0 { Pow2Sum(a - 1, b); assert 2 * (Pow2(a - 1) * Pow2(b)) == (2 * Pow2(a - 1)) * Pow2(b); }
  }

  lemma Pow2Word()
    ensures Pow2(64) == WORD
  {
    assert Pow2(4) == 16;
    Pow2Sum(4, 4);
    assert Pow2(8) == 256;
    Pow2Sum(8, 8);
    assert Pow2(16) == 0x1_0000;
    Pow2Sum(16, 16);
    assert Pow2(32) == 0x1_0000_0000;
    Pow2Sum(32, 32);
  }
}
