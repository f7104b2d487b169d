/** JSON string contents: escaping, and unescaping in place. */
module JsonText {
  import opened Bytes

  // ---------- escaping ----------

  function HexDigit(d: nat): byte
    requires d < 16
  {
    if d < 10 then (d + '0' as int) as char else (d - 10 + 'a' as int) as char
  }

  /** The one-letter escapes that are written. */
  function ShortEscape(c: byte): (e: seq<byte>)
    ensures |e| <= 1
  {
    if c == '"' then ['"'] else if c == '\\' then ['\\'] else if c == '\n' then ['n']
    else if c == '\U{08}' then ['b'] else if c == '\U{0c}' then ['f'] else if c == '\r' then ['r']
    else if c == '\t' then ['t'] else []
  }

  function EscapeChar(c: byte): (s: seq<byte>)
    ensures s != []
  {
    if ShortEscape(c) != [] then ['\\'] + ShortEscape(c)
    else if c as int < 0x20 then ['\\', 'u', '0', '0', HexDigit(c as int / 16), HexDigit(c as int % 16)]
    else [c]
  }

  function Escape(s: seq<byte>): seq<byte> {
    if s == [] then [] else EscapeChar(s[0]) + Escape(s[1..])
  }

  /** `escape`: a loop that appends. */
  method AppendEscaped(str: seq<byte>, ret: seq<byte>) returns (out: seq<byte>)
    ensures out == ret + Escape(str)
  {
    out := ret;
    assert str[0..] == str;
    for i := 0 to |str|
      invariant out + Escape(str[i..]) == ret + Escape(str)
    {
      assert str[i..][1..] == str[i + 1..];
      assert out + (EscapeChar(str[i]) + Escape(str[i + 1..])) == (out + EscapeChar(str[i])) + Escape(str[i + 1..]);
      out := out + EscapeChar(str[i]);
    }
  }

  // ---------- unescaping ----------

  predicate IsHex(c: byte) {
    '0' <= c <= '9' || 'a' <= c <= 'f' || 'A' <= c <= 'F'
  }

  function FromHex(c: byte): (v: nat)
    requires IsHex(c)
    ensures v < 16
  {
    if c >= 'a' then c as int - 'a' as int + 10 else if c >= 'A' then c as int - 'A' as int + 10
      else c as int - '0' as int
  }

  /** What a one-letter escape stands for. */
  function Meant(c: byte): (m: seq<byte>)
    ensures |m| <= 1
  {
    if c == '"' || c == '\\' || c == '/' then [c]
    else if c == 'b' then ['\U{08}'] else if c == 'f' then ['\U{0c}'] else if c == 'n' then ['\n']
    else if c == 'r' then ['\r'] else if c == 't' then ['\t'] else []
  }

  /** The length of the piece the text starts with: a plain byte, a one-letter escape or
      a hexadecimal one; 0 if it starts with none. */
  function PieceLen(s: seq<byte>): (n: nat)
    ensures n <= |s|
  {
    if s == [] || s[0] == '"' || s[0] == '\0' then 0
    else if s[0] != '\\' then 1
    else if |s| < 2 then 0
    else if s[1] == 'u' then
      if |s| >= 6 && IsHex(s[2]) && IsHex(s[3]) && IsHex(s[4]) && IsHex(s[5]) then 6 else 0
    else if Meant(s[1]) != [] then 2 else 0
  }

  /** The UTF-8 bytes of a 16-bit code: the `|` and `&` of the code on disjoint bits. */
  function Utf8(code: nat): (s: seq<byte>)
    requires code < 0x10000
    ensures 0 < |s| <= 3
  {
    if code >= 0x800 then
      [(0xE0 + code / 4096) as char, (0x80 + code / 64 % 64) as char, (0x80 + code % 64) as char]
    else if code >= 0x80 then [(0xC0 + code / 64) as char, (0x80 + code % 64) as char]
    else [code as char]
  }

  /** What the first piece stands for. */
  function PieceText(s: seq<byte>): (t: seq<byte>)
    requires PieceLen(s) > 0
    ensures 0 < |t| <= PieceLen(s)
  {
    if s[0] != '\\' then [s[0]]
    else if s[1] == 'u' then
      Utf8(FromHex(s[2]) * 4096 + FromHex(s[3]) * 256 + FromHex(s[4]) * 16 + FromHex(s[5]))
    else Meant(s[1])
  }

  predicate WellEscaped(s: seq<byte>)
    decreases |s|
  {
    s == [] || (PieceLen(s) > 0 && WellEscaped(s[PieceLen(s)..]))
  }

  function Unescape(s: seq<byte>): (t: seq<byte>)
    requires WellEscaped(s)
    ensures |t| <= |s|
    decreases |s|
  {
    if s == [] then [] else PieceText(s) + Unescape(s[PieceLen(s)..])
  }

  lemma EscapedPiece(c: byte, rest: seq<byte>)
    ensures PieceLen(EscapeChar(c) + rest) == |EscapeChar(c)| && PieceText(EscapeChar(c) + rest) == [c]
  {
    var e := EscapeChar(c);
    var s := e + rest;
    if ShortEscape(c) == [] && c as int < 0x20 {
      assert s[0] == '\\' && s[1] == 'u' && s[2] == '0' && s[3] == '0' && s[4] == e[4] && s[5] == e[5];
      assert FromHex(e[4]) == c as int / 16 && FromHex(e[5]) == c as int % 16;
    }
  }

  /** Unescaping undoes escaping, for every byte string. */
  lemma {:induction false} EscapeRoundTrip(s: seq<byte>)
    ensures WellEscaped(Escape(s)) && Unescape(Escape(s)) == s
    decreases |s|
  {
    hide EscapeChar, PieceLen, PieceText;
    if s != [] {
      EscapeRoundTrip(s[1..]);
      EscapedPiece(s[0], Escape(s[1..]));
      assert Escape(s)[|EscapeChar(s[0])|..] == Escape(s[1..]);
      assert [s[0]] + s[1..] == s;
    }
  }

  /** Text without a backslash stands for itself. */
  lemma {:induction false} PlainIsItself(s: seq<byte>)
    requires WellEscaped(s) && '\\' !in s
    ensures Unescape(s) == s
    decreases |s|
  {
    if s != [] {
      assert s[0] in s;
      PlainIsItself(s[1..]);
      assert [s[0]] + s[1..] == s;
    }
  }

  // ---------- unescaping in place ----------

  /** What the cells of a string value hold: escaped text if the cell before it is set. */
  predicate IsString(buf: seq<byte>, start: nat, end: nat) {
    0 < start <= end < |buf| && (buf[start - 1] != '\0' ==> WellEscaped(buf[start..end]))
  }

  function StringOf(buf: seq<byte>, start: nat, end: nat): seq<byte>
    requires IsString(buf, start, end)
  {
    if buf[start - 1] != '\0' then Unescape(buf[start..end]) else buf[start..end]
  }

  /** Half way: what was read up to head stands unescaped in the cells up to tail. */
  predicate Moving(was: seq<byte>, now: seq<byte>, start: nat, end: nat, head: nat, tail: nat) {
    && start <= tail <= head <= end < |was| == |now|
    && WellEscaped(was[start..end]) && WellEscaped(was[head..end])
    && now[head..] == was[head..] && now[..start] == was[..start]
    && Unescape(was[start..end]) == now[start..tail] + Unescape(was[head..end])
  }

  lemma MovingStarts(was: seq<byte>, start: nat, end: nat)
    requires start <= end < |was| && WellEscaped(was[start..end])
    ensures Moving(was, was, start, end, start, start)
  {
    hide WellEscaped, Unescape;
    assert was[start..start] + Unescape(was[start..end]) == Unescape(was[start..end]);
  }

  lemma MovingEnds(was: seq<byte>, now: seq<byte>, start: nat, end: nat, tail: nat)
    requires Moving(was, now, start, end, end, tail)
    ensures now[start..tail] == Unescape(was[start..end]) && now[..start] == was[..start] && now[end..] == was[end..]
  {
    assert was[end..end] == [];
  }

  lemma MovingReads(was: seq<byte>, now: seq<byte>, start: nat, end: nat, head: nat, tail: nat)
    requires Moving(was, now, start, end, head, tail) && head < end
    ensures now[head..end] == was[head..end] && WellEscaped(now[head..end]) && PieceLen(now[head..end]) > 0
    ensures tail + |PieceText(now[head..end])| <= |now|
  {
    hide PieceLen, PieceText;
    assert now[head..end] == now[head..][..end - head] == was[head..][..end - head] == was[head..end];
  }

  /** One piece moved to the front. */
  lemma PieceMoved(was: seq<byte>, now: seq<byte>, next: seq<byte>, start: nat, end: nat, head: nat, tail: nat,
                   t: seq<byte>, n: nat)
    requires Moving(was, now, start, end, head, tail) && head < end
    requires PieceLen(was[head..end]) == n > 0 && t == PieceText(was[head..end])
    requires tail + |t| <= |now| && next == now[..tail] + t + now[tail + |t|..]
    ensures Moving(was, next, start, end, head + n, tail + |t|)
  {
    hide PieceLen, PieceText;
    var rest := was[head..end];
    assert rest[n..] == was[head + n..end];
    assert next[start..tail + |t|] == now[start..tail] + t;
    assert now[start..tail] + (t + Unescape(rest[n..])) == (now[start..tail] + t) + Unescape(rest[n..]);
    forall i | head + n <= i < |was| ensures next[i] == was[i] {
      assert next[i] == now[i] && now[i] == now[head..][i - head] && was[i] == was[head..][i - head];
    }
  }
}
