/** Chunk sizes: when the number that is read is the number that was written.

    The table of digit values lists 128 of its 256 entries; the others are 0. */
module HttpChunkSizes {
  import opened Bytes
  import opened HttpTables
  import opened HttpTurns
  import opened HttpMachine
  import opened HttpLengths

  predicate IsHexDigit(c: byte) {
    IsDigit(c) || 'a' <= c <= 'f' || 'A' <= c <= 'F'
  }

  function HexDigitValue(c: byte): (v: nat)
    requires IsHexDigit(c)
    ensures v < 16
  {
    if IsDigit(c) then c as int - '0' as int
    else if 'a' <= c <= 'f' then 10 + (c as int - 'a' as int) else 10 + (c as int - 'A' as int)
  }

  predicate IsHexNumber(s: seq<byte>) {
    forall i | 0 <= i < |s| :: IsHexDigit(s[i])
  }

  function Pow16(n: nat): nat {
    if n == 0 then 1 else 16 * Pow16(n - 1)
  }

  /** The number that hexadecimal digits write: each digit with its weight. */
  function HexNumber(s: seq<byte>): nat
    requires IsHexNumber(s)
  {
    if s == [] then 0 else HexDigitValue(s[0]) * Pow16(|s| - 1) + HexNumber(s[1..])
  }

  lemma {:induction false} HexIsWeighted(v: nat, s: seq<byte>)
    requires IsHex(s) && IsHexNumber(s)
    ensures Hex(v, s) == v * Pow16(|s|) + HexNumber(s)
    decreases |s|
  {
    hide Unhex, HexDigitValue;
    if s != [] {
      var d, w := HexDigitValue(s[0]), Pow16(|s| - 1);
      DigitOf(s[0]);
      HexIsWeighted(16 * v + d, s[1..]);
      Distribute(v, d, w);
    }
  }

  lemma DigitOf(c: byte)
    requires IsHexDigit(c)
    ensures Unhex(c) == HexDigitValue(c)
  {
  }

  lemma Distribute(v: nat, d: nat, w: nat)
    ensures (16 * v + d) * w == v * (16 * w) + d * w
  {
  }

  /** A size the parser takes is made of hexadecimal digits if and only if no byte is 128 or
      above, and then it is read as the number it writes. */
  lemma SizeIsNumber(s: seq<byte>)
    requires IsHex(s)
    ensures IsHexNumber(s) <==> forall i | 0 <= i < |s| :: s[i] as int < 128
    ensures IsHexNumber(s) ==> Hex(0, s) == HexNumber(s)
  {
    hide Hex, HexNumber, Pow16;
    forall i | 0 <= i < |s| ensures IsHexDigit(s[i]) <==> s[i] as int < 128 {
      assert Unhex(s[i]) >= 0;
    }
    if IsHexNumber(s) { HexIsWeighted(0, s); }
  }

  // ---------- an input ----------

  /** A chunk whose size has a byte 128 in front of its digit. */
  const ODD: Chunk := Chunk(['\U{80}', '1'], "", "x")

  /** The byte counts as a zero and the chunk is taken. */
  lemma ByteCountsAsZero(m: Machine)
    requires m.end == Running && AtChunk(m.f)
    ensures !IsHexNumber(ODD.size) && Encoded(ODD) == ['\U{80}', '1', CR, LF, 'x', CR, LF]
    ensures Run(m, Encoded(ODD))
            == Machine(m.f.(contentLength := 0), Emit(m.log, Text(BodyText, "x")), Running, m.read + 7)
  {
    hide Run, Emit;
    OddSize();
    assert !IsHexDigit(ODD.size[0]);
    ChunkArrives(m, ODD);
  }

  lemma OddSize()
    ensures GoodChunk(ODD)
  {
    assert ODD.size[1..] == ['1'] && ['1'][1..] == [];
  }
}
