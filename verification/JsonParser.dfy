/** The parser over its own buffer: quotes become flags and terminators, keys are
    unescaped where they stand, and the result is what the text denotes. */
module JsonParsing {
  import opened Options
  import opened Bytes
  import opened JsonText
  import opened JsonSyntax
  import opened JsonLoad
  import opened JsonCells

  /** The piece at a position, by the bytes the switch looks at. */
  lemma PieceCases(text: seq<byte>, pos: nat)
    requires Terminated(text) && pos < |text|
    ensures text[pos] == '"' || text[pos] == '\0' ==> PieceLen(text[pos..]) == 0
    ensures text[pos] != '"' && text[pos] != '\0' && text[pos] != '\\' ==> PieceLen(text[pos..]) == 1
    ensures text[pos] != '\0' ==> pos + 1 < |text|
    ensures text[pos] == '\\' && text[pos + 1] == 'u' ==>
              PieceLen(text[pos..]) == if pos + 5 < |text| && IsHex(text[pos + 2]) && IsHex(text[pos + 3])
                                          && IsHex(text[pos + 4]) && IsHex(text[pos + 5]) then 6 else 0
    ensures text[pos] == '\\' && text[pos + 1] != 'u' ==>
              PieceLen(text[pos..]) == if Meant(text[pos + 1]) != [] then 2 else 0
  {
  }

  /** Inside a string: the closing quote is the same from here, and a backslash was seen or not. */
  predicate InString(text: seq<byte>, start: nat, pos: nat, escaped: bool) {
    && Terminated(text) && start <= pos < |text| && StringEnd(text, start) == StringEnd(text, pos)
    && (escaped <==> '\\' in text[start..pos])
  }

  lemma NextPiece(text: seq<byte>, start: nat, pos: nat, escaped: bool)
    requires InString(text, start, pos, escaped) && text[pos] != '"'
    ensures var n := PieceLen(text[pos..]);
            if n == 0 then StringEnd(text, start) == |text|
            else InString(text, start, pos + n, escaped || text[pos] == '\\')
  {
    hide PieceLen;
    var n := PieceLen(text[pos..]);
    PieceInside(text, pos);
    if n > 0 {
      assert text[start..pos + n] == text[start..pos] + [text[pos]] + text[pos + 1..pos + n];
      if text[pos] != '\\' { PlainPiece(text[pos..]); assert text[pos + 1..pos + n] == []; }
    }
  }

  lemma PlainPiece(s: seq<byte>)
    requires s != [] && s[0] != '\\'
    ensures PieceLen(s) <= 1
  {
  }

  lemma StringOpens(text: seq<byte>, start: nat)
    requires Terminated(text) && start < |text|
    ensures InString(text, start, start, false)
  {
    assert text[start..start] == [];
  }

  /** The cells of a string that was just read. */
  lemma StringRead(text: seq<byte>, buf: seq<byte>, start: nat, end: nat, escaped: bool)
    requires InString(text, start, end, escaped) && text[end] == '"' && 0 < start && |buf| == |text|
    requires buf[start..end] == text[start..end] && buf[end] == '\0'
    requires buf[start - 1] == if escaped then '\U{01}' else '\0'
    ensures StringEnd(text, start) == end && WellEscaped(text[start..end])
    ensures IsString(buf, start, end) && StringOf(buf, start, end) == Unescape(text[start..end])
  {
    hide WellEscaped, Unescape, PieceLen;
    StringIsWellEscaped(text, start);
    if !escaped { PlainIsItself(text[start..end]); }
  }

  /** The opening quote becomes the flag, the closing one the terminator. */
  lemma CutString(text: seq<byte>, before: seq<byte>, start: nat, end: nat, escaped: bool)
    requires InString(text, start, end, escaped) && text[end] == '"' && 0 < start <= end < |before| == |text|
    requires before[start..] == text[start..]
    ensures var next := before[end := '\0'][start - 1 := if escaped then '\U{01}' else '\0'];
            && StringEnd(text, start) == end && WellEscaped(text[start..end])
            && IsString(next, start, end) && StringOf(next, start, end) == Unescape(text[start..end])
            && next[end] == '\0'
            && SameCells(before, next, 0, start - 1) && next[end + 1..] == text[end + 1..]
  {
    hide InString, StringEnd, WellEscaped, Unescape, IsString, StringOf;
    StringBounds(text, start, end, escaped);
    var next := before[end := '\0'][start - 1 := if escaped then '\U{01}' else '\0'];
    assert next[start..end] == before[start..end] == before[start..][..end - start] == text[start..end];
    assert before[end + 1..] == before[start..][end + 1 - start..] == text[start..][end + 1 - start..];
    StringRead(text, next, start, end, escaped);
  }

  lemma StringBounds(text: seq<byte>, start: nat, end: nat, escaped: bool)
    requires InString(text, start, end, escaped)
    ensures start <= end < |text|
  {
  }

  class Parser {
    const buf: array<byte>
    /** The text before parsing. */
    ghost const text: seq<byte>
    var data: nat

    /** Nothing at or after the cursor has been changed. */
    ghost predicate Ready()
      reads this, buf
    {
      Terminated(text) && buf.Length == |text| && data < |text| && buf[data..] == text[data..]
    }

    constructor (chars: array<byte>)
      requires Terminated(chars[..])
      ensures buf == chars && text == chars[..] && data == 0 && Ready()
    {
      buf := chars;
      text := chars[..];
      data := 0;
    }

    /** The cells behind the cursor of a value that was parsed from p0, or an error. */
    ghost predicate Delivered(p0: nat, spec: Parsed, r: Option<RValue>)
      reads this, buf
    {
      match spec
      case Bad => r == None
      case Good(v, end) =>
        && r.Some? && Ready() && data == end
        && Holds(buf[..], p0, r.value, v) && Reach(r.value, p0) <= end
    }

    lemma Bounds()
      requires Ready()
      ensures Terminated(text) && data < |text| && buf.Length == |text|
    {
    }

    method SkipWs()
      requires Ready()
      modifies `data
      ensures Ready() && data == SkipSpace(text, old(data))
    {
      while IsSpace(Peek())
        invariant Ready() && SkipSpace(text, data) == SkipSpace(text, old(data)) && old(data) <= data
        decreases |text| - data
      {
        assert text[data] == buf[data];
        data := data + 1;
      }
      assert text[data] == buf[data];
    }

    function Peek(): (c: byte)
      requires Ready()
      reads this, buf
      ensures c == text[data]
    {
      assert text[data..][0] == buf[data..][0];
      buf[data]
    }

    /** Moving the cursor past unchanged cells. */
    method Advance(n: nat)
      requires Ready() && data + n < |text|
      modifies `data
      ensures Ready() && data == old(data) + n
    {
      assert buf[data + n..] == buf[data..][n..] && text[data + n..] == text[data..][n..];
      data := data + n;
    }

    // ---------- strings ----------

    /** From inside a string to its closing quote; fails at a NUL or a malformed escape. */
    method ScanString() returns (ok: bool, escaped: bool)
      requires Ready()
      modifies `data
      ensures Ready() && old(data) <= data
      ensures ok ==> InString(text, old(data), data, escaped) && text[data] == '"'
      ensures !ok ==> StringEnd(text, old(data)) == |text|
    {
      hide PieceLen, StringEnd, InString;
      var start := data;
      escaped := false;
      StringOpens(text, start);
      while true
        invariant Ready() && start <= data && InString(text, start, data, escaped)
        decreases |text| - data
      {
        PieceCases(text, data);
        var c := Peek();
        if c == '"' { return true, escaped; }
        NextPiece(text, start, data, escaped);
        if c == '\\' {
          escaped := true;
          var fine := ScanEscape();
          if !fine { return false, escaped; }
        } else if c == '\0' {
          return false, escaped;
        } else {
          Advance(1);
        }
      }
    }

    /** Past one escape. */
    method ScanEscape() returns (ok: bool)
      requires Ready() && text[data] == '\\'
      modifies `data
      ensures Ready() && old(data) < data
      ensures if ok then data == old(data) + PieceLen(text[old(data)..]) else PieceLen(text[old(data)..]) == 0
      ensures ok ==> PieceLen(text[old(data)..]) > 0
    {
      hide PieceLen;
      PieceCases(text, data);
      Advance(1);
      var e := Peek();
      if e == 'u' {
        ok := HexFollows();
        if ok { Advance(5); }
      } else {
        ok := Meant(e) != [];
        if ok {
          NotLast(text, data);
          Advance(1);
        }
      }
    }

    /** Four hexadecimal digits after the cursor, and a cell after them. */
    method HexFollows() returns (ok: bool)
      requires Ready() && text[data] != '\0'
      ensures ok <==> data + 4 < |text| && IsHex(text[data + 1]) && IsHex(text[data + 2])
                      && IsHex(text[data + 3]) && IsHex(text[data + 4])
      ensures ok ==> data + 5 < |text|
    {
      assert forall i | data <= i < |text| :: buf[i] == text[i] by {
        assert forall i | data <= i < |text| :: buf[i] == buf[data..][i - data] && text[i] == text[data..][i - data];
      }
      ok := IsHex(buf[data + 1]) && IsHex(buf[data + 2]) && IsHex(buf[data + 3]) && IsHex(buf[data + 4]);
    }

    method DecodeString() returns (r: Option<RValue>)
      requires Ready()
      modifies `data, buf
      ensures Delivered(old(data), ParseString(text, old(data)), r)
      ensures SameCells(old(buf[..]), buf[..], 0, old(data))
      ensures r.Some? ==> r.value.RString? && old(data) < r.value.start
    {
      hide PieceLen, StringEnd, WellEscaped, Unescape;
      var p0 := data;
      if Peek() != '"' { return None; }
      NotLast(text, data);
      Advance(1);
      var start := data;
      var ok, escaped := ScanString();
      if !ok { return None; }
      var end := data;
      NotLast(text, end);
      Advance(1);
      ghost var before := buf[..];
      assert before[start..] == text[start..];
      CutString(text, before, start, end, escaped);
      buf[end] := '\0';
      buf[start - 1] := if escaped then '\U{01}' else '\0';
      assert buf[..] == before[end := '\0'][start - 1 := if escaped then '\U{01}' else '\0'];
      return Some(RString(start, end));
    }

    // ---------- numbers and words ----------

    method DecodeNumber() returns (r: Option<RValue>)
      requires Ready()
      modifies `data
      ensures var end := NumberEnd(text, old(data), 0);
              if end == 0 then r == None else r == Some(RNumber(old(data), end)) && data == end && Ready()
    {
      hide NumberEnd;
      var start := data;
      var state: nat := 0;
      while state != 7
        invariant Ready() && start <= data && state <= 7 && (state == 0 || start < data)
        invariant NumberEnd(text, start, 0) == if state == 7 then 0 else NumberEnd(text, data, state)
        decreases |text| - data
      {
        var c := Peek();
        NumberStepAt(text, data, state);
        if !InNumber(c) {
          return if state == 2 || state == 3 || state == 4 || state == 6 then Some(RNumber(start, data)) else None;
        }
        state := NumberStep(c, state);
        NotLast(text, data);
        Advance(1);
        if '1' <= c <= '9' {
          SkipDigits(state);
        }
      }
      r := None;
    }

    /** The inner loop over a run of digits; the state stays the same. */
    method SkipDigits(state: nat)
      requires Ready() && state in {3, 4, 6, 7}
      modifies `data
      ensures Ready() && old(data) <= data
      ensures state != 7 ==> NumberEnd(text, old(data), state) == NumberEnd(text, data, state)
    {
      hide NumberEnd;
      while '0' <= Peek() <= '9'
        invariant Ready() && old(data) <= data
        invariant state != 7 ==> NumberEnd(text, old(data), state) == NumberEnd(text, data, state)
        decreases |text| - data
      {
        if state != 7 { NumberStepAt(text, data, state); }
        NotLast(text, data);
        Advance(1);
      }
    }

    method DecodeWord(word: seq<byte>, value: RValue) returns (r: Option<RValue>)
      requires Ready() && word != [] && '\0' !in word
      modifies `data
      ensures if WordAt(text, old(data), word) then r == Some(value) && data == old(data) + |word| && Ready()
              else r == None
    {
      var k := 0;
      while k < |word|
        invariant Ready() && data == old(data) && k <= |word| && data + k < |text| && text[data..data + k] == word[..k]
      {
        assert buf[data + k] == buf[data..][k] == text[data..][k] == text[data + k];
        if buf[data + k] != word[k] {
          WordDiffers(text, data, word, k);
          return None;
        }
        assert word[k] in word;
        NotLast(text, data + k);
        assert text[data..data + k + 1] == text[data..data + k] + [word[k]] && word[..k + 1] == word[..k] + [word[k]];
        k := k + 1;
      }
      assert word[..|word|] == word;
      Advance(|word|);
      r := Some(value);
    }

    // ---------- values ----------

    method DecodeValue() returns (r: Option<RValue>)
      requires Ready()
      modifies `data, buf
      ensures Delivered(old(data), ParseValue(text, old(data)), r)
      ensures SameCells(old(buf[..]), buf[..], 0, old(data))
      decreases |text| - data, 1
    {
      hide ParseItems, ParseMembers, NumberEnd, StringEnd, WordAt;
      ghost var p0 := data;
      NumberMoves(text, data);
      match Peek()
      case '[' => r := DecodeList();
      case '{' => r := DecodeObject();
      case '"' => r := DecodeString();
      case 't' => r := DecodeWord(TRUE, RTrue);
      case 'f' => r := DecodeWord(FALSE, RFalse);
      case 'n' => r := DecodeWord(NULL, RNull);
      case _ =>
        r := DecodeNumber();
        if r.Some? { assert buf[p0..data] == buf[p0..][..data - p0] == text[p0..][..data - p0] == text[p0..data]; }
    }

    method DecodeList() returns (r: Option<RValue>)
      requires Ready() && text[data] == '['
      modifies `data, buf
      ensures Delivered(old(data), ParseValue(text, old(data)), r)
      ensures SameCells(old(buf[..]), buf[..], 0, old(data))
      decreases |text| - data, 0
    {
      hide ParseItems, ParseValue, Holds, Reach, SkipSpace, HoldsItems, ReachItems, SameCells, Ready, Terminated;
      Bounds();
      ghost var p0, buf0 := data, buf[..];
      NotLast(text, data);
      ListParse(text, data);
      SameSelf(buf[..], p0);
      Advance(1);
      SkipWs();
      Bounds();
      if Peek() == ']' {
        NotLast(text, data);
        Advance(1);
        EmptyList(buf[..], p0);
        return Some(RList([]));
      }
      r := DecodeItems(p0);
    }

    /** The items of a list that is not empty; the cells before p0 are not theirs. */
    method DecodeItems(ghost p0: nat) returns (r: Option<RValue>)
      requires Ready() && p0 < data
      modifies `data, buf
      ensures Delivered(p0, ParseItems(text, old(data), []), r)
      ensures SameCells(old(buf[..]), buf[..], 0, p0)
      decreases |text| - data, 4
    {
      hide ParseItems, ParseValue, Holds, Reach, SkipSpace, HoldsItems, ReachItems, SameCells, Ready, Terminated;
      Bounds();
      ghost var buf0 := buf[..];
      SameSelf(buf0, p0);
      var ret := new Growing<RValue>();
      ghost var vs: seq<Json> := [];
      EmptyItems(buf[..], p0);
      ghost var all := ParseItems(text, data, []);
      while true
        invariant Ready() && p0 < data < |text| && ret.Valid() && fresh(ret) && fresh(ret.l)
        invariant all == ParseItems(text, data, vs)
        invariant SameCells(buf0, buf[..], 0, p0)
        invariant HoldsItems(buf[..], p0, ret.Contents(), vs) && ReachItems(ret.Contents(), p0) <= data
        decreases |text| - data
      {
        ItemsStep(text, data, vs);
        var ok;
        ok, vs := DecodeItem(ret, p0, buf0, vs);
        if !ok { return None; }
        Bounds();
        var more;
        ok, more := AfterItem(']');
        if !ok { return None; }
        Bounds();
        if !more {
          ListHeld(buf[..], p0, ret.Contents(), vs);
          return Some(RList(ret.Contents()));
        }
      }
    }

    /** A closing bracket, or a comma and the space after it. */
    method AfterItem(close: byte) returns (ok: bool, more: bool)
      requires Ready() && close != '\0'
      modifies `data
      ensures ok <==> text[old(data)] == close || text[old(data)] == ','
      ensures ok ==> Ready() && old(data) + 1 < |text| && (more <==> text[old(data)] != close)
      ensures ok ==> data == if more then SkipSpace(text, old(data) + 1) else old(data) + 1
    {
      hide SkipSpace;
      var c := Peek();
      ok, more := c == close || c == ',', c != close;
      if ok {
        NotLast(text, data);
        Advance(1);
        if more { SkipWs(); }
      }
    }

    /** One more item, the space after it, and its place in the list. */
    method DecodeItem(ret: Growing<RValue>, ghost p0: nat, ghost buf0: seq<byte>, ghost vs: seq<Json>)
      returns (ok: bool, ghost vs': seq<Json>)
      requires Ready() && ret.Valid() && p0 < data && SameCells(buf0, buf[..], 0, p0)
      requires HoldsItems(buf[..], p0, ret.Contents(), vs) && ReachItems(ret.Contents(), p0) <= data
      modifies `data, buf, ret, ret.l
      ensures SameCells(buf0, buf[..], 0, p0) && ret.Valid() && (ret.l == old(ret.l) || fresh(ret.l))
      ensures match ParseValue(text, old(data))
              case Bad => !ok
              case Good(v, end) =>
                && ok && Ready() && data == SkipSpace(text, end) && vs' == vs + [v]
                && HoldsItems(buf[..], p0, ret.Contents(), vs') && ReachItems(ret.Contents(), p0) <= data
      decreases |text| - data, 2
    {
      hide ParseItems, ParseValue, Holds, Reach, SkipSpace, HoldsItems, ReachItems, SameCells;
      ghost var d0, before, items := data, buf[..], ret.Contents();
      vs' := vs;
      var v := DecodeValue();
      SameOnwards(buf0, before, buf[..], p0, d0);
      if v == None { return false, vs; }
      ghost var value := ParseValue(text, d0).v;
      ItemKept(before, buf[..], p0, d0, items, vs, v.value, value);
      vs' := vs + [value];
      SkipWs();
      ret.EmplaceBack(v.value);
      ok := true;
    }

    method DecodeOneMember(ret: Growing<RMember>, ghost p0: nat, ghost buf0: seq<byte>, ghost ms: seq<Member>)
      returns (ok: bool, ghost ms': seq<Member>)
      requires Ready() && ret.Valid() && p0 < data && SameCells(buf0, buf[..], 0, p0)
      requires HoldsMembers(buf[..], p0, ret.Contents(), ms) && ReachMembers(ret.Contents(), p0) <= data
      modifies `data, buf, ret, ret.l
      ensures SameCells(buf0, buf[..], 0, p0) && ret.Valid() && (ret.l == old(ret.l) || fresh(ret.l))
      ensures match ParseMember(text, old(data))
              case BadMember => !ok
              case GoodMember(m, end) =>
                && ok && Ready() && data == SkipSpace(text, end) && ms' == ms + [m]
                && HoldsMembers(buf[..], p0, ret.Contents(), ms') && ReachMembers(ret.Contents(), p0) <= data
      decreases |text| - data, 2
    {
      hide ParseMembers, ParseMember, Holds, Reach, SkipSpace, HoldsMember, HoldsMembers, ReachMembers, SameCells;
      ghost var d0, before, members := data, buf[..], ret.Contents();
      ms' := ms;
      var m := DecodeMember();
      SameOnwards(buf0, before, buf[..], p0, d0);
      if m == None { return false, ms; }
      ghost var member := ParseMember(text, d0).m;
      MemberKept(before, buf[..], p0, d0, members, ms, m.value, member);
      ms' := ms + [member];
      SkipWs();
      ret.EmplaceBack(m.value);
      ok := true;
    }

    /** A key, which is unescaped at once, and a colon: where the key's bytes are then. */
    method DecodeKey() returns (r: Option<(nat, nat)>)
      requires Ready()
      modifies `data, buf
      ensures match ParseString(text, old(data))
              case Bad => r == None
              case Good(k, end) =>
                var c := SkipSpace(text, end);
                if text[c] != ':' then r == None
                else
                  && r.Some? && Ready() && c + 1 < |text| && data == SkipSpace(text, c + 1)
                  && old(data) <= r.value.0 <= r.value.1 < data && buf[r.value.0..r.value.1] == k.s
      ensures SameCells(old(buf[..]), buf[..], 0, old(data))
    {
      hide Holds, Reach, SkipSpace, ParseString, IsString, StringOf, SameCells, StringEnd;
      ghost var p0, buf0 := data, buf[..];
      var t := DecodeString();
      if t == None { return None; }
      StringHeld(buf[..], p0, t.value, ParseString(text, p0).v);
      SkipWs();
      if Peek() != ':' { return None; }
      NotLast(text, data);
      Advance(1);
      ghost var before := buf[..];
      var keyEnd := UnescapeInPlace(buf, t.value.start, t.value.end);
      KeyUnescaped(before, buf[..], text, p0, t.value.start, t.value.end, data);
      SameOnwards(buf0, before, buf[..], p0, p0);
      SkipWs();
      r := Some((t.value.start, keyEnd));
    }

    method DecodeMember() returns (r: Option<RMember>)
      requires Ready()
      modifies `data, buf
      ensures match ParseMember(text, old(data))
              case BadMember => r == None
              case GoodMember(m, end) =>
                && r.Some? && Ready() && data == end && HoldsMember(buf[..], old(data), r.value, m)
                && Reach(r.value.value, r.value.keyEnd + 1) <= end
      ensures SameCells(old(buf[..]), buf[..], 0, old(data))
      decreases |text| - data, 0
    {
      hide Holds, Reach, SkipSpace, ParseValue, ParseString, HoldsMember, SameCells;
      ghost var p0, buf0 := data, buf[..];
      var key := DecodeKey();
      if key == None { return None; }
      ghost var d1, mid := data, buf[..];
      var v := DecodeValue();
      SameOnwards(buf0, mid, buf[..], p0, d1);
      if v == None { return None; }
      MemberHeld(mid, buf[..], p0, d1, key.value.0, key.value.1, ParseString(text, p0).v.s, v.value,
                 ParseValue(text, d1).v);
      r := Some(RMember(key.value.0, key.value.1, v.value));
    }

    method DecodeObject() returns (r: Option<RValue>)
      requires Ready() && text[data] == '{'
      modifies `data, buf
      ensures Delivered(old(data), ParseValue(text, old(data)), r)
      ensures SameCells(old(buf[..]), buf[..], 0, old(data))
      decreases |text| - data, 0
    {
      hide ParseMembers, ParseMember, ParseValue, Holds, Reach, SkipSpace, HoldsMember, HoldsMembers, ReachMembers;
      hide SameCells, Ready;
      Bounds();
      ghost var p0, buf0 := data, buf[..];
      NotLast(text, data);
      ListParse(text, data);
      SameSelf(buf[..], p0);
      Advance(1);
      SkipWs();
      Bounds();
      if Peek() == '}' {
        NotLast(text, data);
        Advance(1);
        EmptyList(buf[..], p0);
        return Some(RObject([]));
      }
      r := DecodeMembers(p0);
    }

    /** The members of an object that is not empty; the cells before p0 are not theirs. */
    method DecodeMembers(ghost p0: nat) returns (r: Option<RValue>)
      requires Ready() && p0 < data
      modifies `data, buf
      ensures Delivered(p0, ParseMembers(text, old(data), []), r)
      ensures SameCells(old(buf[..]), buf[..], 0, p0)
      decreases |text| - data, 4
    {
      hide ParseMembers, ParseMember, ParseValue, Holds, Reach, SkipSpace, HoldsMember, HoldsMembers, ReachMembers;
      hide SameCells, Ready;
      Bounds();
      ghost var buf0 := buf[..];
      SameSelf(buf0, p0);
      var ret := new Growing<RMember>();
      ghost var ms: seq<Member> := [];
      EmptyItems(buf[..], p0);
      ghost var all := ParseMembers(text, data, []);
      while true
        invariant Ready() && p0 < data < |text| && ret.Valid() && fresh(ret) && fresh(ret.l)
        invariant all == ParseMembers(text, data, ms)
        invariant SameCells(buf0, buf[..], 0, p0)
        invariant HoldsMembers(buf[..], p0, ret.Contents(), ms) && ReachMembers(ret.Contents(), p0) <= data
        decreases |text| - data
      {
        MembersStep(text, data, ms);
        var ok;
        ok, ms := DecodeOneMember(ret, p0, buf0, ms);
        if !ok { return None; }
        Bounds();
        var more;
        ok, more := AfterItem('}');
        if !ok { return None; }
        Bounds();
        if !more {
          ObjectHeld(buf[..], p0, ret.Contents(), ms);
          return Some(RObject(ret.Contents()));
        }
      }
    }

    /** A whole document. */
    method Parse() returns (r: Option<RValue>)
      requires Ready() && data == 0
      modifies `data, buf
      ensures match ParseDocument(text)
              case Bad => r == None
              case Good(v, _) => r.Some? && Holds(buf[..], 0, r.value, v)
    {
      hide Holds, Reach, ParseValue, SkipSpace;
      SkipWs();
      ghost var p0 := data;
      r := DecodeValue();
      if r == None { return; }
      FromStart(buf[..], p0, r.value, ParseValue(text, p0).v);
      SkipWs();
      if Peek() != '\0' { return None; }
    }
  }

  lemma FromStart(buf: seq<byte>, p0: nat, r: RValue, v: Json)
    requires Holds(buf, p0, r, v)
    ensures Holds(buf, 0, r, v)
  {
    hide Holds, Reach;
    HoldsLater(buf, 0, p0, r, v);
  }

  /** `load`: the text is copied and terminated before it is parsed. */
  method Load(chars: seq<byte>) returns (r: Option<RValue>, buf: array<byte>)
    ensures fresh(buf)
    ensures match ParseDocument(chars + ['\0'])
            case Bad => r == None
            case Good(v, _) => r.Some? && Holds(buf[..], 0, r.value, v)
  {
    hide Holds, ParseDocument;
    var size := |chars|;
    buf := new byte[size + 1];
    forall i | 0 <= i < size { buf[i] := chars[i]; }
    buf[size] := '\0';
    assert buf[..] == chars + ['\0'];
    var parser := new Parser(buf);
    r := parser.Parse();
  }

  lemma ListParse(text: seq<byte>, pos: nat)
    requires Terminated(text) && pos + 1 < |text|
    ensures var p := SkipSpace(text, pos + 1);
            && (text[pos] == '[' ==>
                  ParseValue(text, pos) == if text[p] == ']' then Good(JList([]), p + 1) else ParseItems(text, p, []))
            && (text[pos] == '{' ==>
                  ParseValue(text, pos) == if text[p] == '}' then Good(JObject([]), p + 1)
                  else ParseMembers(text, p, []))
  {
    hide ParseItems, ParseMembers, SkipSpace;
  }

  lemma SameSelf(a: seq<byte>, hi: nat)
    ensures SameCells(a, a, 0, hi)
  {
  }

  lemma SameOnwards(a: seq<byte>, b: seq<byte>, c: seq<byte>, lo: nat, hi: nat)
    requires SameCells(a, b, 0, lo) && SameCells(b, c, 0, hi) && lo <= hi
    ensures SameCells(a, c, 0, lo)
  {
  }

  lemma EmptyList(buf: seq<byte>, lo: nat)
    ensures Holds(buf, lo, RList([]), JList([])) && Reach(RList([]), lo) == lo
    ensures Holds(buf, lo, RObject([]), JObject([])) && Reach(RObject([]), lo) == lo
  {
  }

  lemma EmptyItems(buf: seq<byte>, lo: nat)
    ensures HoldsItems(buf, lo, [], []) && ReachItems([], lo) == lo
    ensures HoldsMembers(buf, lo, [], []) && ReachMembers([], lo) == lo
  {
  }

  lemma ListHeld(buf: seq<byte>, lo: nat, items: seq<RValue>, vs: seq<Json>)
    requires HoldsItems(buf, lo, items, vs)
    ensures Holds(buf, lo, RList(items), JList(vs)) && Reach(RList(items), lo) == ReachItems(items, lo)
  {
  }

  lemma ObjectHeld(buf: seq<byte>, lo: nat, members: seq<RMember>, ms: seq<Member>)
    requires HoldsMembers(buf, lo, members, ms)
    ensures Holds(buf, lo, RObject(members), JObject(ms)) && Reach(RObject(members), lo) == ReachMembers(members, lo)
  {
  }

  lemma ItemsStep(text: seq<byte>, pos: nat, vs: seq<Json>)
    requires Terminated(text) && pos < |text|
    ensures match ParseValue(text, pos)
            case Bad => ParseItems(text, pos, vs) == Bad
            case Good(v, end) =>
              var p := SkipSpace(text, end);
              ParseItems(text, pos, vs)
              == if text[p] == ']' then Good(JList(vs + [v]), p + 1)
                 else if text[p] != ',' then Bad
                 else assert p + 1 < |text| by { NotLast(text, p); } ParseItems(text, SkipSpace(text, p + 1), vs + [v])
  {
    hide ParseValue;
  }

  lemma MembersStep(text: seq<byte>, pos: nat, ms: seq<Member>)
    requires Terminated(text) && pos < |text|
    ensures match ParseMember(text, pos)
            case BadMember => ParseMembers(text, pos, ms) == Bad
            case GoodMember(m, end) =>
              var p := SkipSpace(text, end);
              ParseMembers(text, pos, ms)
              == if text[p] == '}' then Good(JObject(ms + [m]), p + 1)
                 else if text[p] != ',' then Bad
                 else
                   assert p + 1 < |text| by { NotLast(text, p); }
                   ParseMembers(text, SkipSpace(text, p + 1), ms + [m])
  {
    hide ParseMember;
  }

  /** The items so far stay as they are while the next one is parsed behind them. */
  lemma ItemKept(a: seq<byte>, b: seq<byte>, lo: nat, d0: nat, items: seq<RValue>, vs: seq<Json>, r: RValue, v: Json)
    requires HoldsItems(a, lo, items, vs) && ReachItems(items, lo) <= d0 && SameCells(a, b, 0, d0)
    requires Holds(b, d0, r, v)
    ensures HoldsItems(b, lo, items + [r], vs + [v]) && ReachItems(items + [r], lo) <= Reach(r, d0)
  {
    hide Holds, Reach, HoldsItems, ReachItems;
    HoldsItemsFrame(a, b, lo, d0, items, vs);
    HoldsLater(b, ReachItems(items, lo), d0, r, v);
    ItemAppended(b, lo, items, vs, r, v);
  }

  lemma MemberKept(a: seq<byte>, b: seq<byte>, lo: nat, d0: nat, members: seq<RMember>, ms: seq<Member>, r: RMember,
                   m: Member)
    requires HoldsMembers(a, lo, members, ms) && ReachMembers(members, lo) <= d0 && SameCells(a, b, 0, d0)
    requires HoldsMember(b, d0, r, m)
    ensures HoldsMembers(b, lo, members + [r], ms + [m])
    ensures ReachMembers(members + [r], lo) == Reach(r.value, r.keyEnd + 1)
  {
    hide Holds, Reach, HoldsMembers, ReachMembers;
    HoldsMembersFrame(a, b, lo, d0, members, ms);
    MemberAppended(b, lo, members, ms, r, m);
  }

  lemma StringHeld(buf: seq<byte>, lo: nat, r: RValue, v: Json)
    requires v.JString? && Holds(buf, lo, r, v)
    ensures r.RString? && lo < r.start && IsString(buf, r.start, r.end) && buf[r.end] == '\0'
    ensures StringOf(buf, r.start, r.end) == v.s && Reach(r, lo) == r.end + 1
  {
  }

  /** Unescaping a key changes nothing before it nor from the cursor on. */
  lemma KeyUnescaped(a: seq<byte>, b: seq<byte>, text: seq<byte>, p0: nat, start: nat, end: nat, pos: nat)
    requires |a| == |b| == |text| && p0 < start <= end < pos <= |a|
    requires b[..start - 1] == a[..start - 1] && b[end..] == a[end..] && a[pos..] == text[pos..]
    ensures b[pos..] == text[pos..] && SameCells(a, b, 0, p0)
  {
    assert b[pos..] == b[end..][pos - end..] && a[pos..] == a[end..][pos - end..];
    forall i | 0 <= i < p0 ensures a[i] == b[i] {
      assert b[i] == b[..start - 1][i] && a[i] == a[..start - 1][i];
    }
  }

  lemma MemberHeld(a: seq<byte>, b: seq<byte>, p0: nat, d1: nat, start: nat, keyEnd: nat, key: seq<byte>, r: RValue,
                   v: Json)
    requires p0 <= start <= keyEnd < d1 && keyEnd < |a| && a[start..keyEnd] == key && SameCells(a, b, 0, d1)
    requires Holds(b, d1, r, v)
    ensures HoldsMember(b, p0, RMember(start, keyEnd, r), Member(key, v))
    ensures Reach(r, keyEnd + 1) <= Reach(r, d1)
  {
    hide Holds, Reach;
    HoldsLater(b, keyEnd + 1, d1, r, v);
    SameSlices(a, b, 0, d1, start, keyEnd);
  }

  lemma WordDiffers(text: seq<byte>, pos: nat, word: seq<byte>, k: nat)
    requires pos + k < |text| && k < |word| && text[pos + k] != word[k]
    ensures !WordAt(text, pos, word)
  {
    if pos + |word| <= |text| { assert text[pos..pos + |word|][k] == text[pos + k]; }
  }

  lemma NumberStepAt(text: seq<byte>, pos: nat, state: nat)
    requires Terminated(text) && pos < |text| && state < 7
    ensures !InNumber(text[pos]) ==> NumberEnd(text, pos, state) == if state in {2, 3, 4, 6} then pos else 0
    ensures InNumber(text[pos]) ==> text[pos] != '\0'
    ensures InNumber(text[pos]) && pos + 1 < |text| ==>
              NumberEnd(text, pos, state) == if NumberStep(text[pos], state) == 7 then 0
                                             else NumberEnd(text, pos + 1, NumberStep(text[pos], state))
    ensures '1' <= text[pos] <= '9' ==> NumberStep(text[pos], state) in {3, 4, 6, 7}
    ensures '0' <= text[pos] <= '9' && state in {3, 4, 6} ==> NumberStep(text[pos], state) == state
  {
  }

  lemma NotLast(text: seq<byte>, pos: nat)
    requires Terminated(text) && pos < |text| && text[pos] != '\0'
    ensures pos + 1 < |text|
  {
  }
}
