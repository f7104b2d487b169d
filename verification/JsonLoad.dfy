/** Loading a JSON text: a parser that cuts strings out of its buffer in place, and lists
    that grow. */
module JsonLoad {
  import opened Bytes
  import opened JsonText

  /** A parsed value. Numbers and strings are cells of the buffer. */
  datatype RValue =
    | RNull | RFalse | RTrue | RNumber(start: nat, end: nat) | RString(start: nat, end: nat)
    | RList(items: seq<RValue>) | RObject(members: seq<RMember>)

  datatype RMember = RMember(keyStart: nat, keyEnd: nat, value: RValue)

  // ---------- emplace_back ----------

  /** The storage of a list: room for lsize + lremain elements. */
  class Growing<T(0)> {
    var l: array<T>
    var lsize: nat
    var lremain: nat

    ghost predicate Valid()
      reads this
    {
      lsize + lremain == l.Length && lremain < 0x10000
    }

    function Contents(): seq<T>
      requires Valid()
      reads this, l
    {
      l[..lsize]
    }

    constructor ()
      ensures Valid() && Contents() == [] && fresh(l)
    {
      l := new T[0];
      lsize, lremain := 0, 0;
    }

    method EmplaceBack(v: T)
      requires Valid()
      modifies this, l
      ensures Valid() && Contents() == old(Contents()) + [v] && (l == old(l) || fresh(l))
    {
      if lremain == 0 {
        var newSize := lsize + lsize;
        if newSize - lsize > 60000 { newSize := lsize + 60000; }
        if newSize < 4 { newSize := 4; }
        var p := new T[newSize];
        forall i | 0 <= i < lsize { p[i] := l[i]; }
        lremain := newSize - lsize;
        l := p;
      }
      l[lsize] := v;
      lsize := lsize + 1;
      lremain := lremain - 1;
    }
  }

  // ---------- unescaping in place ----------

  /** `*tail++ = ...` for the bytes of a piece. */
  method PutBytes(buf: array<byte>, at: nat, t: seq<byte>)
    requires at + |t| <= buf.Length
    modifies buf
    ensures buf[..] == old(buf[..at]) + t + old(buf[at + |t|..])
  {
    for i := 0 to |t|
      invariant buf[..] == old(buf[..at]) + t[..i] + old(buf[at + i..])
    {
      buf[at + i] := t[i];
    }
  }

  /** One piece of an escaped string, as the switch reads it. */
  method ReadPiece(buf: array<byte>, head: nat, end: nat) returns (t: seq<byte>, n: nat)
    requires head < end <= buf.Length && WellEscaped(buf[head..end])
    ensures n == PieceLen(buf[head..end]) > 0 && t == PieceText(buf[head..end])
  {
    hide PieceLen, PieceText, WellEscaped;
    ghost var s := buf[head..end];
    PieceIs(s);
    if buf[head] == '\\' {
      var c := buf[head + 1];
      assert s[1] == c;
      if c == 'u' {
        assert s[2] == buf[head + 2] && s[3] == buf[head + 3] && s[4] == buf[head + 4] && s[5] == buf[head + 5];
        var code := FromHex(buf[head + 2]) * 4096 + FromHex(buf[head + 3]) * 256
                    + FromHex(buf[head + 4]) * 16 + FromHex(buf[head + 5]);
        t, n := Utf8(code), 6;
      } else {
        t, n := Meant(c), 2;
      }
    } else {
      t, n := [buf[head]], 1;
    }
  }

  /** `unescape`: the string moves to the front of its cells; the write cursor never passes
      the read cursor, and a string that is unescaped already is left as it is. */
  method UnescapeInPlace(buf: array<byte>, start: nat, end: nat) returns (newEnd: nat)
    requires IsString(buf[..], start, end) && buf[end] == '\0'
    modifies buf
    ensures start <= newEnd <= end
    ensures buf[start - 1] == '\0' && buf[newEnd] == '\0'
    ensures buf[start..newEnd] == StringOf(old(buf[..]), start, end)
    ensures buf[..start - 1] == old(buf[..start - 1]) && buf[end..] == old(buf[end..])
    ensures old(buf[start - 1]) == '\0' ==> newEnd == end && buf[..] == old(buf[..])
  {
    hide PieceLen, PieceText, WellEscaped, Unescape;
    newEnd := end;
    if buf[start - 1] == '\0' { return; }
    ghost var was := buf[..];
    var tail := MovePieces(buf, start, end);
    newEnd := tail;
    buf[newEnd] := '\0';
    buf[start - 1] := '\0';
  }

  /** The loop over the pieces: tail is where the unescaped bytes end. */
  method MovePieces(buf: array<byte>, start: nat, end: nat) returns (tail: nat)
    requires start <= end < buf.Length && WellEscaped(buf[start..end])
    modifies buf
    ensures start <= tail <= end && buf[start..tail] == Unescape(old(buf[start..end]))
    ensures buf[..start] == old(buf[..start]) && buf[end..] == old(buf[end..])
  {
    hide PieceLen, PieceText, WellEscaped, Unescape, Moving;
    ghost var was := buf[..];
    var head := start;
    tail := start;
    MovingStarts(was, start, end);
    assert was[start..end] == buf[start..end];
    while head != end
      invariant start <= tail <= head <= end && Moving(was, buf[..], start, end, head, tail)
      decreases end - head
    {
      ghost var now := buf[..];
      MovingReads(was, now, start, end, head, tail);
      assert buf[head..end] == now[head..end];
      var t, n := ReadPiece(buf, head, end);
      PutBytes(buf, tail, t);
      PieceMoved(was, now, buf[..], start, end, head, tail, t, n);
      MovingBounds(was, buf[..], start, end, head + n, tail + |t|);
      head, tail := head + n, tail + |t|;
    }
    MovingEnds(was, buf[..], start, end, tail);
  }

  lemma MovingBounds(was: seq<byte>, now: seq<byte>, start: nat, end: nat, head: nat, tail: nat)
    requires Moving(was, now, start, end, head, tail)
    ensures start <= tail <= head <= end
  {
  }

  /** The first piece, by its first two bytes. */
  lemma PieceIs(s: seq<byte>)
    requires s != [] && WellEscaped(s)
    ensures PieceLen(s) > 0
    ensures s[0] != '\\' ==> PieceLen(s) == 1 && PieceText(s) == [s[0]]
    ensures s[0] == '\\' ==> |s| > 1
    ensures s[0] == '\\' && s[1] == 'u' ==>
              && |s| >= 6 && IsHex(s[2]) && IsHex(s[3]) && IsHex(s[4]) && IsHex(s[5]) && PieceLen(s) == 6
              && PieceText(s) == Utf8(FromHex(s[2]) * 4096 + FromHex(s[3]) * 256 + FromHex(s[4]) * 16 + FromHex(s[5]))
    ensures s[0] == '\\' && s[1] != 'u' ==> PieceLen(s) == 2 && PieceText(s) == Meant(s[1])
  {
  }
}
