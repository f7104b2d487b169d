/** Number fields of replies: what `strtol` makes of them, and when that is the number written. */
module RespNumbers {
  import opened Resp
  import opened RespDecode

  /** The digits behind an optional minus. */
  function DigitsOf(s: seq<octet>): seq<octet> {
    if s != [] && s[0] == MINUS then s[1..] else s
  }

  /** An optional minus and at least one digit, nothing else. */
  predicate IsNumeral(s: seq<octet>) {
    DigitsOf(s) != [] && forall i | 0 <= i < |DigitsOf(s)| :: IsDigitOctet(DigitsOf(s)[i])
  }

  /** The number that is written. */
  function NumberOf(s: seq<octet>): int
    requires IsNumeral(s)
  {
    var v: int := DecimalValue(DigitsOf(s));
    if s[0] == MINUS then -v else v
  }

  predicate FitsLong(v: int) {
    LONG_MIN <= v <= LONG_MAX
  }

  predicate FitsInt(v: int) {
    -0x8000_0000 <= v < 0x8000_0000
  }

  function Saturated(v: int): int {
    if v < LONG_MIN then LONG_MIN else if v > LONG_MAX then LONG_MAX else v
  }

  /** The length of the longest numeral at the start; 0 if there is none. */
  function NumeralLength(s: seq<octet>): (n: nat)
    ensures n <= |s|
  {
    var k := DigitRun(DigitsOf(s));
    if k == 0 then 0 else |s| - |DigitsOf(s)| + k
  }

  lemma DigitRunIsLongest(s: seq<octet>, k: nat)
    requires k <= |s| && forall i | 0 <= i < k :: IsDigitOctet(s[i])
    ensures k <= DigitRun(s)
  {
    if k > 0 {
      forall i | 0 <= i < k - 1 ensures IsDigitOctet(s[1..][i]) { assert s[1..][i] == s[i + 1]; }
      DigitRunIsLongest(s[1..], k - 1);
    }
  }

  lemma DigitsOfPrefix(s: seq<octet>, n: nat)
    requires 0 < n <= |s|
    ensures DigitsOf(s[..n]) == if s[0] == MINUS then DigitsOf(s)[..n - 1] else DigitsOf(s)[..n]
  {
    assert s[..n][0] == s[0];
    if s[0] == MINUS { assert s[..n][1..] == s[1..][..n - 1]; }
  }

  /** `strtol` reads the longest numeral at the start, saturated to a long, and 0 if there
      is none. */
  lemma StrtolReadsPrefix(s: seq<octet>)
    ensures var n := NumeralLength(s);
            && (forall k | n < k <= |s| :: !IsNumeral(s[..k]))
            && (if n == 0 then Strtol(s) == 0 else IsNumeral(s[..n]) && Strtol(s) == Saturated(NumberOf(s[..n])))
  {
    hide DecimalValue, DigitRun, DigitsOf;
    var n, body := NumeralLength(s), DigitsOf(s);
    forall k | n < k <= |s| ensures !IsNumeral(s[..k]) {
      if IsNumeral(s[..k]) { LongerNumeral(s, k); }
    }
    NoDigits();
    SignOf(s);
    if n > 0 {
      DigitsOfPrefix(s, n);
    } else {
      assert body[..0] == [];
    }
  }

  lemma SignOf(s: seq<octet>)
    ensures if s != [] && s[0] == MINUS then DigitsOf(s) == s[1..] else DigitsOf(s) == s
  {
  }

  lemma NoDigits()
    ensures DecimalValue([]) == 0
  {
  }

  lemma LongerNumeral(s: seq<octet>, k: nat)
    requires 0 < k <= |s| && IsNumeral(s[..k])
    ensures k <= NumeralLength(s)
  {
    hide DigitRun;
    DigitsOfPrefix(s, k);
    var body := DigitsOf(s);
    var j := if s[0] == MINUS then k - 1 else k;
    forall i | 0 <= i < j ensures IsDigitOctet(body[i]) { assert body[..j][i] == body[i]; }
    DigitRunIsLongest(body, j);
  }

  /** A field is read to its end exactly if it is a numeral, and as the number written
      exactly if that fits a long. */
  lemma WholeField(s: seq<octet>)
    requires s != []
    ensures NumeralLength(s) == |s| <==> IsNumeral(s)
    ensures IsNumeral(s) ==> (Strtol(s) == NumberOf(s) <==> FitsLong(NumberOf(s)))
  {
    hide DigitRun, DigitsOf, Strtol;
    StrtolReadsPrefix(s);
    assert s[..|s|] == s;
    if IsNumeral(s) { LongerNumeral(s, |s|); }
  }

  lemma NarrowIsInt(v: int)
    ensures FitsInt(Narrow(v)) && (FitsInt(v) ==> Narrow(v) == v)
  {
  }

  // ---------- integer replies ----------

  function LineOf(c: octet, text: seq<octet>): seq<octet> {
    [c] + text + [CR, LF]
  }

  /** What a length or integer line may hold: digits and minus signs. */
  predicate IsField(text: seq<octet>) {
    text != [] && forall i | 0 <= i < |text| :: IsDigitOctet(text[i]) || text[i] == MINUS
  }

  lemma NumeralIsField(text: seq<octet>)
    requires IsNumeral(text)
    ensures IsField(text)
  {
    forall i | 0 <= i < |text| ensures IsDigitOctet(text[i]) || text[i] == MINUS {
      if text[0] == MINUS && i > 0 { assert text[i] == DigitsOf(text)[i - 1]; }
    }
  }

  lemma {:induction false} AcceptedRun(k: LineKind, text: seq<octet>, tail: seq<octet>)
    requires forall i | 0 <= i < |text| :: Accepts(k, text[i]) && text[i] != CR
    requires tail != [] && tail[0] == CR
    ensures LineRun(k, text + tail) == |text|
    decreases |text|
  {
    if text == [] {
      assert text + tail == tail;
    } else {
      assert (text + tail)[1..] == text[1..] + tail && (text + tail)[0] == text[0];
      AcceptedRun(k, text[1..], tail);
    }
  }

  /** A header line with a number field, up to what follows it. */
  lemma FieldLine(c: octet, text: seq<octet>, rest: seq<octet>)
    requires KindOf(c) in {[Number], [BulkLen], [ArrayLen]} && IsField(text)
    ensures Decode(LineOf(c, text) + rest) == Later(DecodeAfter(KindOf(c)[0], text, rest), |text| + 3)
  {
    hide LineRun, DecodeAfter;
    var k, input := KindOf(c)[0], LineOf(c, text) + rest;
    var tail := [CR, LF] + rest;
    assert input[1..] == text + tail && input[0] == c;
    AcceptedRun(k, text, tail);
    assert (text + tail)[..|text|] == text && (text + tail)[|text|..] == tail && tail[2..] == rest;
    LaterTwice(DecodeAfter(k, text, rest), 2, |text| + 1);
  }

  lemma LaterTwice(d: Decoded, i: nat, j: nat)
    ensures Later(Later(d, i), j) == Later(d, i + j)
  {
  }

  /** An integer reply is delivered as the number written if and only if that fits an int;
      otherwise as its low 32 bits, or those of the saturated long. */
  lemma IntegerReply(text: seq<octet>, rest: seq<octet>)
    requires IsNumeral(text)
    ensures var o := Run(Fresh, LineOf(58, text) + rest);
            && o == Reply(Int(Narrow(Saturated(NumberOf(text)))), |text| + 3)
            && (o == Reply(Int(NumberOf(text)), |text| + 3) <==> FitsInt(NumberOf(text)))
  {
    hide Run, Decode, IsNumeral, NumberOf, Narrow, Strtol, NumeralLength;
    NumeralIsField(text);
    FieldLine(58, text, rest);
    DecodeIsRun(LineOf(58, text) + rest);
    WholeField(text);
    StrtolReadsPrefix(text);
    assert text[..|text|] == text;
    NarrowIsInt(NumberOf(text));
    NarrowIsInt(Saturated(NumberOf(text)));
  }

  // ---------- length fields ----------

  /** A size that is a numeral and fits a long: -1 is nil, a smaller one an error, and any
      other is followed by a body of that size. */
  lemma BulkSize(text: seq<octet>, rest: seq<octet>)
    requires IsNumeral(text) && FitsLong(NumberOf(text))
    ensures var n := NumberOf(text);
            Agree(Run(Fresh, LineOf(36, text) + rest),
                  Later(if n == -1 then Got(Nil, 0) else if n < 0 then Bad(0) else DecodeBody(n, rest), |text| + 3))
  {
    hide Run, Decode, IsNumeral, NumberOf, Strtol;
    NumeralIsField(text);
    FieldLine(36, text, rest);
    DecodeIsRun(LineOf(36, text) + rest);
    WholeField(text);
  }

  /** The number of items likewise; -1 is not told from 0. */
  lemma ArraySize(text: seq<octet>, rest: seq<octet>)
    requires IsNumeral(text) && FitsLong(NumberOf(text))
    ensures var n := NumberOf(text);
            Agree(Run(Fresh, LineOf(42, text) + rest),
                  Later(if n < -1 then Bad(0) else DecodeItems(if n < 0 then 0 else n, [], rest), |text| + 3))
  {
    hide Run, Decode, IsNumeral, NumberOf, Strtol, DecodeItems;
    NumeralIsField(text);
    FieldLine(42, text, rest);
    DecodeIsRun(LineOf(42, text) + rest);
    WholeField(text);
  }

  // ---------- inputs ----------

  /** 2147483648, one more than an int holds. */
  const TWO_TO_31: seq<octet> := [50, 49, 52, 55, 52, 56, 51, 54, 52, 56]

  lemma IntegerOverflows()
    ensures Run(Fresh, LineOf(58, TWO_TO_31)) == Reply(Int(-2147483648), 13)
  {
    hide Run, Narrow;
    TwoTo31();
    IntegerReply(TWO_TO_31, []);
    assert LineOf(58, TWO_TO_31) + [] == LineOf(58, TWO_TO_31);
    assert Narrow(2147483648) == -2147483648 by { Narrowed(); }
  }

  lemma Narrowed()
    ensures Narrow(2147483648) == -2147483648
  {
  }

  lemma ValueMore(s: seq<octet>, c: octet, t: seq<octet>)
    requires t == s + [c] && forall i | 0 <= i < |t| :: IsDigitOctet(t[i])
    ensures (forall i | 0 <= i < |s| :: IsDigitOctet(s[i])) && DecimalValue(t) == 10 * DecimalValue(s) + (t[|s|] - 48)
  {
    assert t[..|s|] == s;
    forall i | 0 <= i < |s| ensures IsDigitOctet(s[i]) { assert t[i] == s[i]; }
  }

  lemma TwoTo31()
    ensures IsNumeral(TWO_TO_31) && NumberOf(TWO_TO_31) == 2147483648
  {
    hide DecimalValue;
    NoDigits();
    ValueMore([], 50, [50]);
    ValueMore([50], 49, [50, 49]);
    ValueMore([50, 49], 52, [50, 49, 52]);
    ValueMore([50, 49, 52], 55, [50, 49, 52, 55]);
    ValueMore([50, 49, 52, 55], 52, [50, 49, 52, 55, 52]);
    ValueMore([50, 49, 52, 55, 52], 56, [50, 49, 52, 55, 52, 56]);
    ValueMore([50, 49, 52, 55, 52, 56], 51, [50, 49, 52, 55, 52, 56, 51]);
    ValueMore([50, 49, 52, 55, 52, 56, 51], 54, [50, 49, 52, 55, 52, 56, 51, 54]);
    ValueMore([50, 49, 52, 55, 52, 56, 51, 54], 52, [50, 49, 52, 55, 52, 56, 51, 54, 52]);
    ValueMore([50, 49, 52, 55, 52, 56, 51, 54, 52], 56, [50, 49, 52, 55, 52, 56, 51, 54, 52, 56]);
  }

  lemma OddFields()
    ensures Strtol([MINUS]) == 0 && !IsNumeral([MINUS])
    ensures Strtol([49, MINUS, 50]) == 1 && !IsNumeral([49, MINUS, 50])
    ensures Strtol([MINUS, 49]) == -1 && Strtol([48]) == 0
  {
    assert [MINUS][1..] == [] && [49, MINUS, 50][..1] == [49] && [MINUS, 49][1..] == [49];
    assert [49][..0] == [] && [48][..0] == [] && [49][..1] == [49] && [48][..1] == [48];
    assert [49][1..] == [] && [48][1..] == [];
    assert !IsDigitOctet([49, MINUS, 50][1]);
  }

  /** `$-` has no number and is a size of 0; of `$1-2` only the 1 is read. */
  lemma SizeWithoutNumber()
    ensures Run(Fresh, LineOf(36, [MINUS]) + [CR, LF]) == Reply(Bytes([]), 6)
    ensures Run(Fresh, LineOf(36, [49, MINUS, 50]) + [97, CR, LF]) == Reply(Bytes([97]), 9)
  {
    hide Run, Strtol, LineOf, Decode;
    OddFields();
    assert [97, CR, LF][..1] == [97];
    FieldLine(36, [MINUS], [CR, LF]);
    FieldLine(36, [49, MINUS, 50], [97, CR, LF]);
    DecodeIsRun(LineOf(36, [MINUS]) + [CR, LF]);
    DecodeIsRun(LineOf(36, [49, MINUS, 50]) + [97, CR, LF]);
  }

  /** The null array is read as the empty one. */
  lemma NullArrayIsEmpty()
    ensures Run(Fresh, LineOf(42, [MINUS, 49])) == Reply(Array([]), 5)
    ensures Run(Fresh, LineOf(42, [48])) == Reply(Array([]), 4)
  {
    hide Run, Strtol, LineOf, Decode;
    OddFields();
    FieldLine(42, [MINUS, 49], []);
    FieldLine(42, [48], []);
    DecodeIsRun(LineOf(42, [MINUS, 49]));
    DecodeIsRun(LineOf(42, [48]));
    assert LineOf(42, [MINUS, 49]) + [] == LineOf(42, [MINUS, 49]) && LineOf(42, [48]) + [] == LineOf(42, [48]);
  }
}
