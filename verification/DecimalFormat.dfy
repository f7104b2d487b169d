/** The decimal printer: digit counts by a logarithm trick, digits two at a time, signs. */
module DecimalFormat {
  import opened PositionBits

  // ---------- what is printed ----------

  function DigitChar(d: nat): (c: char)
    requires d < 10
  {
    (d + '0' as int) as char
  }

  /** The canonical decimal digits. */
  function Digits(n: nat): (s: string)
    ensures |s| > 0
  {
    if n < 10 then [DigitChar(n)] else Digits(n / 10) + [DigitChar(n % 10)]
  }

  function Value(s: string): nat
    requires forall i | 0 <= i < |s| :: '0' <= s[i] <= '9'
  {
    if s == [] then 0
    else
      assert '0' <= s[|s| - 1] <= '9';
      10 * Value(s[..|s| - 1]) + (s[|s| - 1] as int - '0' as int)
  }

  /** The digits read back give the number, and only 0 starts with a 0. */
  lemma {:induction false} DigitsRoundTrip(n: nat)
    ensures forall i | 0 <= i < |Digits(n)| :: '0' <= Digits(n)[i] <= '9'
    ensures Value(Digits(n)) == n
    ensures Digits(n)[0] == '0' ==> n == 0
  {
    var s := Digits(n);
    if n >= 10 {
      DigitsRoundTrip(n / 10);
      assert s[..|s| - 1] == Digits(n / 10);
    } else {
      assert s[..0] == [];
    }
  }

  function Pow10(k: nat): (p: nat)
    ensures p > 0
  {
    if k == 0 then 1 else 10 * Pow10(k - 1)
  }

  /** The number of digits is where the number lies between powers of 10. */
  lemma {:induction false} DigitsBetween(n: nat, k: nat)
    requires k > 0 && (Pow10(k - 1) <= n || k == 1) && n < Pow10(k)
    ensures |Digits(n)| == k
    decreases k
  {
    assert Pow10(1) == 10;
    if n < 10 {
      Pow10Grows(1, if k > 1 then k - 1 else 1);
    } else {
      DigitsBetween(n / 10, k - 1);
    }
  }

  lemma {:induction false} Pow10Grows(a: nat, b: nat)
    requires a <= b
    ensures Pow10(a) <= Pow10(b)
    decreases b
  {
    if a < b { Pow10Grows(a, b - 1); }
  }

  // ---------- counting digits ----------

  /** `64 - clz(n)` and `32 - clz(n)`: the position of the highest bit that is set. */
  function BitLength(n: nat): (b: nat)
    ensures n > 0 ==> b > 0 && Pow2(b - 1) <= n
    ensures n < Pow2(b)
  {
    if n == 0 then 0 else 1 + BitLength(n / 2)
  }

  /** `n | 1` */
  function OrOne(n: nat): nat {
    if n % 2 == 0 then n + 1 else n
  }

  const POWERS_OF_10_32: seq<nat> :=
    [0, 10, 100, 1000, 10000, 100000, 1000000, 10000000, 100000000, 1000000000]

  const POWERS_OF_10_64: seq<nat> :=
    [0, 10, 100, 1000, 10000, 100000, 1000000, 10000000, 100000000, 1000000000,
     10_000000000, 100_000000000, 1000_000000000, 10000_000000000, 100000_000000000,
     1000000_000000000, 10000000_000000000, 100000000_000000000, 1000000000_000000000,
     1000000000 * 1000000000 * 10]

  lemma PowersAreExact(t: nat)
    requires 0 < t < 20
    ensures POWERS_OF_10_64[t] == Pow10(t) && (t < 10 ==> POWERS_OF_10_32[t] == Pow10(t))
  {
    assert Pow10(1) == 10;
    assert Pow10(2) == 100;
    assert Pow10(3) == 1000;
    assert Pow10(4) == 10000;
    assert Pow10(5) == 100000;
    assert Pow10(6) == 1000000;
    assert Pow10(7) == 10000000;
    assert Pow10(8) == 100000000;
    assert Pow10(9) == 1000000000;
    assert Pow10(10) == 10000000000;
    assert Pow10(11) == 100000000000;
    assert Pow10(12) == 1000000000000;
    assert Pow10(13) == 10000000000000;
    assert Pow10(14) == 100000000000000;
    assert Pow10(15) == 1000000000000000;
    assert Pow10(16) == 10000000000000000;
    assert Pow10(17) == 100000000000000000;
    assert Pow10(18) == 1000000000000000000;
    assert Pow10(19) == 10000000000000000000;
  }

  lemma {:induction false} Pow2Grows(a: nat, b: nat)
    requires a <= b
    ensures Pow2(a) <= Pow2(b)
    decreases b
  {
    if a < b { Pow2Grows(a, b - 1); }
  }

  /** Numbers of lo to hi bits have t or t + 1 digits. */
  lemma BitsBetween(b: nat, lo: nat, hi: nat, t: nat)
    requires 0 < lo <= b <= hi && (t == 0 || Pow10(t - 1) <= Pow2(lo - 1)) && Pow2(hi) <= Pow10(t + 1)
    ensures (t == 0 || Pow10(t - 1) <= Pow2(b - 1)) && Pow2(b) <= Pow10(t + 1)
  {
    Pow2Grows(lo - 1, b - 1);
    Pow2Grows(b, hi);
  }

  predicate TrickWorks(b: nat) {
    var t := b * 1233 / 4096;
    t < 20 && (b <= 32 ==> t < 10) && (t == 0 || (b >= 2 && Pow10(t - 1) <= Pow2(b - 1))) && Pow2(b) <= Pow10(t + 1)
  }

  /** 1233 / 4096 is close enough to the logarithm of 2 for all 64 bit lengths. */
  lemma LogarithmTrick(b: nat)
    requires 1 <= b <= 64
    ensures TrickWorks(b)
  {
    hide TrickWorks;
    if b <= 19 { TrickTo19(b); } else if b <= 39 { TrickTo39(b); } else { TrickTo64(b); }
  }

  lemma TrickTo19(b: nat)
    requires 1 <= b <= 19
    ensures TrickWorks(b)
  {
    hide Pow2, Pow10;
    PowersOfTwo();
    PowersOfTen();
    if b <= 3 { BitsBetween(b, 1, 3, 0); }
    else if b <= 6 { BitsBetween(b, 4, 6, 1); }
    else if b <= 9 { BitsBetween(b, 7, 9, 2); }
    else if b <= 13 { BitsBetween(b, 10, 13, 3); }
    else if b <= 16 { BitsBetween(b, 14, 16, 4); }
    else if b <= 19 { BitsBetween(b, 17, 19, 5); }
  }

  lemma TrickTo39(b: nat)
    requires 20 <= b <= 39
    ensures TrickWorks(b)
  {
    hide Pow2, Pow10;
    PowersOfTwo();
    PowersOfTen();
    if b <= 23 { BitsBetween(b, 20, 23, 6); }
    else if b <= 26 { BitsBetween(b, 24, 26, 7); }
    else if b <= 29 { BitsBetween(b, 27, 29, 8); }
    else if b <= 33 { BitsBetween(b, 30, 33, 9); }
    else if b <= 36 { BitsBetween(b, 34, 36, 10); }
    else if b <= 39 { BitsBetween(b, 37, 39, 11); }
  }

  lemma TrickTo64(b: nat)
    requires 40 <= b <= 64
    ensures TrickWorks(b)
  {
    hide Pow2, Pow10;
    PowersOfTwo();
    PowersOfTen();
    if b <= 43 { BitsBetween(b, 40, 43, 12); }
    else if b <= 46 { BitsBetween(b, 44, 46, 13); }
    else if b <= 49 { BitsBetween(b, 47, 49, 14); }
    else if b <= 53 { BitsBetween(b, 50, 53, 15); }
    else if b <= 56 { BitsBetween(b, 54, 56, 16); }
    else if b <= 59 { BitsBetween(b, 57, 59, 17); }
    else if b <= 63 { BitsBetween(b, 60, 63, 18); }
    else if b <= 64 { BitsBetween(b, 64, 64, 19); }
  }

  lemma PowersOfTwo()
    ensures Pow2(0) == 1
    ensures Pow2(3) == 8
    ensures Pow2(6) == 64
    ensures Pow2(9) == 512
    ensures Pow2(13) == 8192
    ensures Pow2(16) == 65536
    ensures Pow2(19) == 524288
    ensures Pow2(23) == 8388608
    ensures Pow2(26) == 67108864
    ensures Pow2(29) == 536870912
    ensures Pow2(33) == 8589934592
    ensures Pow2(36) == 68719476736
    ensures Pow2(39) == 549755813888
    ensures Pow2(43) == 8796093022208
    ensures Pow2(46) == 70368744177664
    ensures Pow2(49) == 562949953421312
    ensures Pow2(53) == 9007199254740992
    ensures Pow2(56) == 72057594037927936
    ensures Pow2(59) == 576460752303423488
    ensures Pow2(63) == 9223372036854775808
    ensures Pow2(64) == 18446744073709551616
  {
  }

  lemma PowersOfTen()
    ensures Pow10(0) == 1
    ensures Pow10(1) == 10
    ensures Pow10(2) == 100
    ensures Pow10(3) == 1000
    ensures Pow10(4) == 10000
    ensures Pow10(5) == 100000
    ensures Pow10(6) == 1000000
    ensures Pow10(7) == 10000000
    ensures Pow10(8) == 100000000
    ensures Pow10(9) == 1000000000
    ensures Pow10(10) == 10000000000
    ensures Pow10(11) == 100000000000
    ensures Pow10(12) == 1000000000000
    ensures Pow10(13) == 10000000000000
    ensures Pow10(14) == 100000000000000
    ensures Pow10(15) == 1000000000000000
    ensures Pow10(16) == 10000000000000000
    ensures Pow10(17) == 100000000000000000
    ensures Pow10(18) == 1000000000000000000
    ensures Pow10(19) == 10000000000000000000
    ensures Pow10(20) == 100000000000000000000
  {
  }

  /** count_digits for 64-bit numbers. */
  function CountDigits64(n: nat): (r: nat)
    requires n < Pow2(64)
    ensures r == |Digits(n)|
  {
    CountIsExact(n, 64);
    var t := BitLength(OrOne(n)) * 1233 / 4096;
    t - (if n < POWERS_OF_10_64[t] then 1 else 0) + 1
  }

  /** count_digits for 32-bit numbers. */
  function CountDigits32(n: nat): (r: nat)
    requires n < Pow2(32)
    ensures r == |Digits(n)|
  {
    CountIsExact(n, 32);
    var t := BitLength(OrOne(n)) * 1233 / 4096;
    t - (if n < POWERS_OF_10_32[t] then 1 else 0) + 1
  }

  lemma CountIsExact(n: nat, width: nat)
    requires n < Pow2(width) && (width == 32 || width == 64)
    ensures var t := BitLength(OrOne(n)) * 1233 / 4096;
            && t < 20 && (width == 32 ==> t < 10)
            && (n < POWERS_OF_10_64[t] ==> t > 0)
            && (t < 10 ==> POWERS_OF_10_64[t] == POWERS_OF_10_32[t])
            && |Digits(n)| == t - (if n < POWERS_OF_10_64[t] then 1 else 0) + 1
  {
    hide Pow2, Pow10, BitLength, Digits;
    var b := BitLength(OrOne(n));
    OddBits(n, width);
    LogarithmTrick(b);
    var t := b * 1233 / 4096;
    if t > 0 {
      PowersAreExact(t);
      DigitsBetween(n, if n < Pow10(t) then t else t + 1);
    } else {
      DigitsBetween(n, 1);
    }
  }

  lemma OddBits(n: nat, width: nat)
    requires n < Pow2(width) && width > 0
    ensures 1 <= BitLength(OrOne(n)) <= width
    ensures n < Pow2(BitLength(OrOne(n))) && (BitLength(OrOne(n)) > 1 ==> Pow2(BitLength(OrOne(n)) - 1) <= n)
  {
    var b := BitLength(OrOne(n));
    assert OrOne(n) < Pow2(width) by { assert Pow2(width) == 2 * Pow2(width - 1); }
    if b > width { Pow2Grows(width, b - 1); }
    if b > 1 { assert Pow2(b - 1) == 2 * Pow2(b - 2); }
  }
}
