/** Printing decimal numbers into a buffer that grows. */
module DecimalWriter {
  import opened PositionBits
  import opened DecimalFormat

  /** count_digits where no count-leading-zeros instruction is at hand. */
  method CountDigitsInFours(number: nat) returns (count: nat)
    ensures count == |Digits(number)|
  {
    var n := number;
    count := 1;
    while true
      invariant |Digits(number)| == |Digits(n)| + count - 1
      decreases n
    {
      if n < 10 { return count; }
      if n < 100 { return count + 1; }
      FourDigits(n);
      if n < 1000 { return count + 2; }
      if n < 10000 { return count + 3; }
      n := n / 10000;
      count := count + 4;
    }
  }

  lemma FourDigits(n: nat)
    requires n >= 100
    ensures |Digits(n)| == if n < 1000 then 3 else if n < 10000 then 4 else |Digits(n / 10000)| + 4
  {
    var a, b, c := n / 10, n / 100, n / 1000;
    assert a / 10 == b && b / 10 == c && c / 10 == n / 10000;
    assert |Digits(n)| == |Digits(a)| + 1 && |Digits(a)| == |Digits(b)| + 1;
    if n >= 1000 { assert |Digits(b)| == |Digits(c)| + 1; }
  }

  /** The two digits of every number below 100, one after the other. */
  const DIGITS: seq<char> := seq(200,
                                 i requires 0 <= i < 200 => DigitChar(if i % 2 == 0 then i / 2 / 10 else i / 2 % 10))

  lemma DigitsTable(k: nat)
    requires k < 100
    ensures DIGITS[k * 2] == DigitChar(k / 10) && DIGITS[k * 2 + 1] == DigitChar(k % 10)
  {
    assert (k * 2) / 2 == k && (k * 2) % 2 == 0 && (k * 2 + 1) / 2 == k && (k * 2 + 1) % 2 == 1;
  }

  lemma TwoDigits(n: nat)
    requires n >= 10
    ensures n < 100 ==> Digits(n) == [DigitChar(n / 10), DigitChar(n % 10)]
    ensures n >= 100 ==> Digits(n) == Digits(n / 100) + [DigitChar(n % 100 / 10), DigitChar(n % 100 % 10)]
  {
    TailDigits(n);
    LastDigit(n);
    if n >= 100 {
      LastDigit(n / 10);
    } else {
      OneDigit(n / 10);
    }
  }

  lemma TailDigits(n: nat)
    ensures n / 10 % 10 == n % 100 / 10 && n % 10 == n % 100 % 10 && n / 10 / 10 == n / 100
  {
    var q, r := n / 100, n % 100;
    var a, b := r / 10, r % 10;
    assert n == 10 * (10 * q + a) + b;
    Quotient(n, 10 * q + a, b);
    Quotient(10 * q + a, q, a);
  }

  lemma Quotient(n: nat, q: nat, r: nat)
    requires n == 10 * q + r && r < 10
    ensures n / 10 == q && n % 10 == r
  {
  }

  lemma LastDigit(n: nat)
    requires n >= 10
    ensures Digits(n) == Digits(n / 10) + [DigitChar(n % 10)]
  {
  }

  lemma OneDigit(n: nat)
    requires n < 10
    ensures Digits(n) == [DigitChar(n)]
  {
  }

  /** The two digits of a number below 100, in the cells before pos. */
  method PutPair(buffer: array<char>, pos: nat, k: nat)
    requires k < 100 && 2 <= pos <= buffer.Length
    modifies buffer
    ensures buffer[..] == old(buffer[..pos - 2]) + [DigitChar(k / 10), DigitChar(k % 10)] + old(buffer[pos..])
  {
    DigitsTable(k);
    var index := k * 2;
    buffer[pos - 1] := DIGITS[index + 1];
    buffer[pos - 2] := DIGITS[index];
  }

  /** Cells written just before those already written. */
  lemma WrittenBefore(before: string, now: string, next: string, pos: nat, more: string, done: string, rest: string)
    requires |more| <= pos <= |before| && now == before[..pos] + done + rest
    requires next == now[..pos - |more|] + more + now[pos..]
    ensures next == before[..pos - |more|] + (more + done) + rest
  {
    assert now[..pos - |more|] == before[..pos - |more|];
    assert now[pos..] == done + rest;
  }

  /** Fills exactly the cells of the number's digits, from the last one back. */
  method FormatDecimal(buffer: array<char>, at: nat, number: nat, numDigits: nat)
    requires numDigits == |Digits(number)| && at + numDigits <= buffer.Length
    modifies buffer
    ensures buffer[..] == old(buffer[..at]) + Digits(number) + old(buffer[at + numDigits..])
  {
    hide Digits;
    ghost var before, done := buffer[..], "";
    ghost var rest := before[at + numDigits..];
    var value, pos := number, at + numDigits;
    assert Digits(number) == Digits(value) + done;
    assert buffer[..] == before[..pos] + done + rest;
    while value >= 100
      invariant at <= pos <= at + numDigits && pos - at == |Digits(value)|
      invariant Digits(number) == Digits(value) + done
      invariant buffer[..] == before[..pos] + done + rest
      decreases value
    {
      TwoDigits(value);
      ghost var pair := [DigitChar(value % 100 / 10), DigitChar(value % 100 % 10)];
      assert Digits(value) + done == Digits(value / 100) + (pair + done);
      ghost var now := buffer[..];
      PutPair(buffer, pos, value % 100);
      WrittenBefore(before, now, buffer[..], pos, pair, done, rest);
      value := value / 100;
      pos := pos - 2;
      done := pair + done;
    }
    ghost var now := buffer[..];
    if value < 10 {
      OneDigit(value);
      buffer[pos - 1] := DigitChar(value);
    } else {
      TwoDigits(value);
      PutPair(buffer, pos, value);
    }
    WrittenBefore(before, now, buffer[..], pos, Digits(value), done, rest);
  }

  /** The decimal text of an integer. */
  function Decimal(v: int): string {
    if v < 0 then "-" + Digits(-v) else Digits(v)
  }

  class Writer {
    var buffer: array<char>

    constructor ()
      ensures fresh(buffer) && buffer[..] == []
    {
      buffer := new char[0];
    }

    /** More cells at the end; the old ones keep their contents. */
    method GrowBuffer(n: nat) returns (size: nat)
      modifies this
      ensures fresh(buffer) && size == old(buffer.Length) && buffer.Length == size + n
      ensures buffer[..size] == old(buffer[..])
    {
      size := buffer.Length;
      var old' := buffer;
      var bigger := new char[size + n];
      forall i | 0 <= i < size { bigger[i] := old'[i]; }
      buffer := bigger;
    }

    /** An unsigned number of 32 or 64 bits after some cells for a prefix. */
    method WriteUnsignedDecimal(value: nat, width: nat, prefixSize: nat) returns (ptr: nat)
      requires (width == 32 || width == 64) && value < Pow2(width)
      modifies this
      ensures fresh(buffer) && ptr == old(buffer.Length)
      ensures buffer.Length == ptr + prefixSize + |Digits(value)|
      ensures buffer[..ptr] == old(buffer[..]) && buffer[ptr + prefixSize..] == Digits(value)
    {
      hide Digits, Pow2, BitLength;
      var numDigits := if width == 32 then CountDigits32(value) else CountDigits64(value);
      ptr := GrowBuffer(prefixSize + numDigits);
      ghost var before := buffer[..];
      FormatDecimal(buffer, ptr + prefixSize, value, numDigits);
      assert before[ptr + prefixSize + numDigits..] == [];
      assert before[..ptr + prefixSize][..ptr] == before[..ptr];
    }

    /** A signed or unsigned integer. Its magnitude is taken in unsigned arithmetic, which
        is right for the smallest value too. */
    method WriteDecimal(value: int, width: nat)
      requires (width == 32 || width == 64) && -(Pow2(width - 1) as int) <= value < Pow2(width)
      modifies this
      ensures fresh(buffer) && buffer[..] == old(buffer[..]) + Decimal(value)
    {
      hide Digits, Pow2;
      HalfWord(width);
      var absValue := AbsValue(value, Pow2(width));
      if value < 0 {
        var ptr := WriteUnsignedDecimal(absValue, width, 1);
        ghost var now := buffer[..];
        buffer[ptr] := '-';
        PutSign(now, buffer[..], ptr);
      } else {
        var ptr := WriteUnsignedDecimal(absValue, width, 0);
        Halves(buffer[..], ptr);
      }
    }
  }

  lemma PutSign(now: string, next: string, ptr: nat)
    requires ptr < |now| && next == now[ptr := '-']
    ensures next == now[..ptr] + ("-" + now[ptr + 1..])
  {
  }

  lemma Halves(s: string, k: nat)
    requires k <= |s|
    ensures s == s[..k] + s[k..]
  {
  }

  lemma HalfWord(width: nat)
    requires width > 0
    ensures Pow2(width) == 2 * Pow2(width - 1)
  {
  }

  /** The conversion to unsigned and `0 - abs_value` in unsigned arithmetic. */
  function AbsValue(value: int, word: nat): (a: nat)
    requires -(word as int) < value < word
    ensures a == if value < 0 then -value else value
  {
    if value < 0 then
      Magnitude(value, word);
      (0 - value % word) % word
    else
      SmallRemainder(value, word);
      value % word
  }

  /** The magnitude of a negative value, in unsigned arithmetic. */
  lemma Magnitude(value: int, word: int)
    requires word > 0 && -word < value < 0
    ensures (0 - value % word) % word == -value
  {
    RemainderIs(value, word, -1, value + word);
    RemainderIs(0 - (value + word), word, -1, -value);
  }

  lemma RemainderIs(a: int, m: int, q: int, r: int)
    requires 0 <= r < m && a == m * q + r
    ensures a % m == r
  {
    var d := a / m - q;
    assert m * d == m * (a / m) - m * q;
    assert d >= 1 ==> m * d >= m;
    assert d <= -1 ==> m * d <= -m;
  }

  lemma SmallRemainder(value: int, word: int)
    requires 0 <= value < word
    ensures value % word == value
  {
    RemainderIs(value, word, 0, value);
  }
}
