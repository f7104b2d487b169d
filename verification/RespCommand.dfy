/** Commands as the client prints them, and the round trip through the reply parser. */
module RespCommand {
  import opened Resp
  import opened RespDecode
  import opened RespStream

  const CRLF: seq<octet> := [CR, LF]

  /** A size in decimal. */
  function Decimal(n: nat): (s: seq<octet>)
    ensures |s| > 0 && (forall i | 0 <= i < |s| :: IsDigitOctet(s[i]))
  {
    if n < 10 then [48 + n] else Decimal(n / 10) + [48 + n % 10]
  }

  function Header(c: octet, n: nat): seq<octet> {
    [c] + (Decimal(n) + CRLF)
  }

  function BulkString(item: seq<octet>): seq<octet> {
    Header(36, |item|) + (item + CRLF)
  }

  function BulkStrings(items: seq<seq<octet>>): seq<octet> {
    if items == [] then [] else BulkString(items[0]) + BulkStrings(items[1..])
  }

  /** An array of bulk strings. */
  function Command(items: seq<seq<octet>>): seq<octet> {
    Header(42, |items|) + BulkStrings(items)
  }

  lemma {:induction false} BulkStringsAppend(items: seq<seq<octet>>, item: seq<octet>)
    ensures BulkStrings(items + [item]) == BulkStrings(items) + BulkString(item)
    decreases |items|
  {
    if items == [] {
      assert [item][1..] == [];
    } else {
      assert (items + [item])[1..] == items[1..] + [item];
      BulkStringsAppend(items[1..], item);
    }
  }

  lemma PartsOfBulk(before: seq<octet>, size: seq<octet>, item: seq<octet>)
    ensures before + [36] + size + CRLF + item + CRLF == before + ([36] + (size + CRLF) + (item + CRLF))
  {
  }

  method MakeCommand(items: seq<seq<octet>>) returns (result: seq<octet>)
    ensures result == Command(items)
  {
    result := [];
    result := result + [42];
    result := result + Decimal(|items|);
    result := result + CRLF;
    assert result == Header(42, |items|);
    var k := 0;
    while k < |items|
      invariant k <= |items|
      invariant result == Header(42, |items|) + BulkStrings(items[..k])
    {
      ghost var before := result;
      result := result + [36];
      result := result + Decimal(|items[k]|);
      result := result + CRLF;
      result := result + items[k];
      result := result + CRLF;
      PartsOfBulk(before, Decimal(|items[k]|), items[k]);
      BulkStringsAppend(items[..k], items[k]);
      assert items[..k + 1] == items[..k] + [items[k]];
      k := k + 1;
    }
    assert items[..k] == items;
  }

  // ---------- numbers ----------

  lemma {:induction false} DigitRunAll(s: seq<octet>)
    requires forall i | 0 <= i < |s| :: IsDigitOctet(s[i])
    ensures DigitRun(s) == |s|
    decreases |s|
  {
    if s != [] { DigitRunAll(s[1..]); }
  }

  lemma {:induction false} DecimalValueOf(n: nat)
    ensures DecimalValue(Decimal(n)) == n
  {
    if n >= 10 {
      DecimalValueOf(n / 10);
      var s := Decimal(n);
      assert s[..|s| - 1] == Decimal(n / 10);
    } else {
      assert Decimal(n)[..0] == [];
    }
  }

  lemma StrtolOfDecimal(n: nat)
    requires n <= LONG_MAX
    ensures Strtol(Decimal(n)) == n
  {
    var s := Decimal(n);
    assert IsDigitOctet(s[0]);
    DigitRunAll(s);
    DecimalValueOf(n);
    assert s[..|s|] == s;
  }

  // ---------- decoding what was printed ----------

  lemma {:induction false} LineRunOfDigits(k: LineKind, digits: seq<octet>, rest: seq<octet>)
    requires k == BulkLen || k == ArrayLen
    requires (forall i | 0 <= i < |digits| :: IsDigitOctet(digits[i])) && rest != [] && rest[0] == CR
    ensures LineRun(k, digits + rest) == |digits|
    decreases |digits|
  {
    if digits == [] {
      assert digits + rest == rest;
    } else {
      assert IsDigitOctet(digits[0]);
      assert (digits + rest)[1..] == digits[1..] + rest;
      LineRunOfDigits(k, digits[1..], rest);
    }
  }

  lemma DecodeHeader(k: LineKind, c: octet, n: nat, rest: seq<octet>)
    requires (k == BulkLen && c == 36) || (k == ArrayLen && c == 42)
    ensures Decode(Header(c, n) + rest) == Later(DecodeAfter(k, Decimal(n), rest), |Header(c, n)|)
  {
    var input, digits, tail := Header(c, n) + rest, Decimal(n), CRLF + rest;
    assert input[1..] == digits + tail;
    LineRunOfDigits(k, digits, tail);
    assert (digits + tail)[..|digits|] == digits && (digits + tail)[|digits|..] == tail;
    assert tail[2..] == rest;
    assert KindOf(input[0]) == [k];
    assert Decode(input) == Later(DecodeLineEnd(k, digits, tail), |digits| + 1);
  }

  lemma DecodeBulkString(item: seq<octet>, rest: seq<octet>)
    requires |item| <= LONG_MAX
    ensures Decode(BulkString(item) + rest) == Got(Bytes(item), |BulkString(item)|)
  {
    var body := item + CRLF + rest;
    assert BulkString(item) + rest == Header(36, |item|) + body;
    DecodeHeader(BulkLen, 36, |item|, body);
    StrtolOfDecimal(|item|);
    assert body[..|item|] == item;
  }

  function AsValues(items: seq<seq<octet>>): (values: seq<Value>)
    ensures |values| == |items| && (forall i | 0 <= i < |items| :: values[i] == Bytes(items[i]))
  {
    if items == [] then [] else [Bytes(items[0])] + AsValues(items[1..])
  }

  lemma NoItems(done: seq<Value>, input: seq<octet>)
    ensures DecodeItems(0, done, input) == Got(Array(done), 0)
  {
  }

  lemma FirstItem(n: nat, done: seq<Value>, input: seq<octet>, v: Value, used: nat)
    requires n > 0 && Decode(input) == Got(v, used)
    ensures used <= |input|
    ensures DecodeItems(n, done, input) == Later(DecodeItems(n - 1, done + [v], input[used..]), used)
  {
    hide Decode;
  }

  lemma {:induction false} DecodeBulkStrings(items: seq<seq<octet>>, done: seq<Value>, rest: seq<octet>)
    requires forall i | 0 <= i < |items| :: |items[i]| <= LONG_MAX
    ensures DecodeItems(|items|, done, BulkStrings(items) + rest)
            == Got(Array(done + AsValues(items)), |BulkStrings(items)|)
    decreases |items|
  {
    hide Decode, DecodeItems, BulkString;
    if items == [] {
      NoItems(done, BulkStrings(items) + rest);
      assert done + [] == done;
    } else {
      var more := BulkStrings(items[1..]) + rest;
      assert BulkStrings(items) + rest == BulkString(items[0]) + more;
      DecodeBulkString(items[0], more);
      FirstItem(|items|, done, BulkString(items[0]) + more, Bytes(items[0]), |BulkString(items[0])|);
      assert (BulkString(items[0]) + more)[|BulkString(items[0])|..] == more;
      DecodeBulkStrings(items[1..], done + [Bytes(items[0])], rest);
      assert done + [Bytes(items[0])] + AsValues(items[1..]) == done + AsValues(items);
    }
  }

  /** Round trip: a printed command, followed by anything, reads back as the array of
      exactly its byte strings and takes exactly its own bytes. */
  lemma CommandRoundTrip(items: seq<seq<octet>>, rest: seq<octet>)
    requires |items| <= LONG_MAX && forall i | 0 <= i < |items| :: |items[i]| <= LONG_MAX
    ensures Decode(Command(items) + rest) == Got(Array(AsValues(items)), |Command(items)|)
  {
    var body := BulkStrings(items) + rest;
    assert Command(items) + rest == Header(42, |items|) + body;
    DecodeHeader(ArrayLen, 42, |items|, body);
    StrtolOfDecimal(|items|);
    DecodeBulkStrings(items, [], rest);
    assert [] + AsValues(items) == AsValues(items);
  }

  /** Under any division into reads a command completes once, at its last byte: no
      proper prefix completes or fails, and the whole leaves a fresh parser. */
  lemma CommandCompletesOnce(items: seq<seq<octet>>, chunks: seq<seq<octet>>, k: nat)
    requires |items| <= LONG_MAX && forall i | 0 <= i < |items| :: |items[i]| <= LONG_MAX
    requires Concat(chunks) == Command(items)
    ensures FeedAll(Fresh, chunks) == Feeding([Array(AsValues(items))], Pending(Fresh))
    ensures k < |Command(items)| ==> Run(Fresh, Command(items)[..k]).Pending?
  {
    var c := Command(items);
    assert c + [] == c;
    CommandRoundTrip(items, []);
    DecodeIsRun(c);
    ReadsDoNotMatter(Fresh, chunks);
    assert c[|c|..] == [];
    if k < |c| {
      assert c == c[..k] + c[k..];
      RunSplit(Fresh, c[..k], c[k..]);
    }
  }
}
