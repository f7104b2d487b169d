/** JSON texts as the parser reads them: values in the order of the text, and what they mean. */
module JsonSyntax {
  import opened Bytes
  import opened JsonText

  /** A value as written. A number is kept as its text. */
  datatype Json =
    | JNull | JFalse | JTrue | JNumber(digits: seq<byte>) | JString(s: seq<byte>)
    | JList(items: seq<Json>) | JObject(members: seq<Member>)

  datatype Member = Member(key: seq<byte>, value: Json)

  datatype Parsed = Bad | Good(v: Json, end: nat)

  /** A text that ends with the NUL that `load` puts there. */
  predicate Terminated(text: seq<byte>) {
    |text| > 0 && text[|text| - 1] == '\0'
  }

  predicate IsSpace(c: byte) {
    c == ' ' || c == '\t' || c == '\r' || c == '\n'
  }

  function SkipSpace(text: seq<byte>, pos: nat): (end: nat)
    requires Terminated(text) && pos < |text|
    ensures pos <= end < |text| && !IsSpace(text[end])
    decreases |text| - pos
  {
    if IsSpace(text[pos]) then SkipSpace(text, pos + 1) else pos
  }

  /** The closing quote of a string from a position inside it; the length if there is none. */
  function StringEnd(text: seq<byte>, pos: nat): (end: nat)
    requires Terminated(text) && pos < |text|
    ensures pos <= end <= |text|
    ensures end < |text| ==> text[end] == '"'
    decreases |text| - pos
  {
    if text[pos] == '"' then pos
    else if PieceLen(text[pos..]) == 0 then |text|
    else PieceInside(text, pos); StringEnd(text, pos + PieceLen(text[pos..]))
  }

  /** A piece does not reach over the terminator. */
  lemma PieceInside(text: seq<byte>, pos: nat)
    requires Terminated(text) && pos < |text|
    ensures PieceLen(text[pos..]) > 0 ==> pos + PieceLen(text[pos..]) < |text|
  {
    var s := text[pos..];
    assert s[|s| - 1] == '\0';
  }

  lemma {:induction false} StringIsWellEscaped(text: seq<byte>, pos: nat)
    requires Terminated(text) && pos < |text| && StringEnd(text, pos) < |text|
    ensures WellEscaped(text[pos..StringEnd(text, pos)])
    decreases |text| - pos
  {
    var end := StringEnd(text, pos);
    if text[pos] != '"' {
      var n := PieceLen(text[pos..]);
      PieceInside(text, pos);
      StringIsWellEscaped(text, pos + n);
      PiecePrefix(text[pos..], end - pos);
      assert text[pos..][..end - pos] == text[pos..end];
      assert text[pos..end][n..] == text[pos + n..end];
    } else {
      assert text[pos..end] == [];
    }
  }

  /** The first piece depends on its own bytes only. */
  lemma PiecePrefix(s: seq<byte>, k: nat)
    requires PieceLen(s) <= k <= |s|
    ensures PieceLen(s) > 0 ==> PieceLen(s[..k]) == PieceLen(s)
  {
  }

  // ---------- numbers ----------

  /** The transition strings of `decode_number`, by byte class and state; 7 is invalid. */
  function NumberStep(c: byte, state: nat): (next: nat)
    requires state < 7
    ensures next <= 7
  {
    if c == '0' then [2, 2, 7, 3, 4, 6, 6][state]
    else if '1' <= c <= '9' then [3, 3, 7, 3, 4, 6, 6][state]
    else if c == '.' then [7, 7, 4, 4, 7, 7, 7][state]
    else if c == '-' then [1, 7, 7, 7, 7, 6, 7][state]
    else if c == '+' then [7, 7, 7, 7, 7, 6, 7][state]
    else if c == 'e' || c == 'E' then [7, 7, 7, 5, 5, 7, 7][state]
    else 7
  }

  predicate InNumber(c: byte) {
    '0' <= c <= '9' || c == '.' || c == '-' || c == '+' || c == 'e' || c == 'E'
  }

  /** The end of a number; 0 if there is none. */
  function NumberEnd(text: seq<byte>, pos: nat, state: nat): (end: nat)
    requires Terminated(text) && pos < |text| && state < 7
    ensures end == 0 || pos <= end < |text|
    decreases |text| - pos
  {
    if !InNumber(text[pos]) then (if state in {2, 3, 4, 6} then pos else 0)
    else if NumberStep(text[pos], state) == 7 then 0
    else NumberEnd(text, pos + 1, NumberStep(text[pos], state))
  }

  // ---------- values ----------

  predicate WordAt(text: seq<byte>, pos: nat, word: seq<byte>) {
    pos + |word| <= |text| && text[pos..pos + |word|] == word
  }

  const TRUE: seq<byte> := ['t', 'r', 'u', 'e']
  const FALSE: seq<byte> := ['f', 'a', 'l', 's', 'e']
  const NULL: seq<byte> := ['n', 'u', 'l', 'l']

  function ParseString(text: seq<byte>, pos: nat): (r: Parsed)
    requires Terminated(text) && pos < |text|
    ensures r.Good? ==> r.v.JString? && pos < r.end < |text|
  {
    if text[pos] != '"' then Bad
    else
      var end := StringEnd(text, pos + 1);
      if end == |text| then Bad
      else
        StringIsWellEscaped(text, pos + 1);
        Good(JString(Unescape(text[pos + 1..end])), end + 1)
  }

  function ParseWord(text: seq<byte>, pos: nat, word: seq<byte>, v: Json): (r: Parsed)
    requires Terminated(text) && pos < |text| && word != [] && '\0' !in word
    ensures r.Good? ==> pos < r.end < |text|
  {
    if WordAt(text, pos, word) then
      assert text[pos..pos + |word|][|word| - 1] in word;
      Good(v, pos + |word|)
    else Bad
  }

  function ParseValue(text: seq<byte>, pos: nat): (r: Parsed)
    requires Terminated(text) && pos < |text|
    ensures r.Good? ==> pos < r.end < |text|
    decreases |text| - pos, 3
  {
    match text[pos]
    case '[' =>
      var p := SkipSpace(text, pos + 1);
      if text[p] == ']' then Good(JList([]), p + 1) else ParseItems(text, p, [])
    case '{' =>
      var p := SkipSpace(text, pos + 1);
      if text[p] == '}' then Good(JObject([]), p + 1) else ParseMembers(text, p, [])
    case '"' => ParseString(text, pos)
    case 't' => ParseWord(text, pos, TRUE, JTrue)
    case 'f' => ParseWord(text, pos, FALSE, JFalse)
    case 'n' => ParseWord(text, pos, NULL, JNull)
    case _ =>
      var end := NumberEnd(text, pos, 0);
      if end == 0 then Bad else NumberMoves(text, pos); Good(JNumber(text[pos..end]), end)
  }

  lemma NumberMoves(text: seq<byte>, pos: nat)
    requires Terminated(text) && pos < |text|
    ensures NumberEnd(text, pos, 0) != 0 ==> pos < NumberEnd(text, pos, 0)
  {
  }

  /** The rest of a list after the items so far. */
  function ParseItems(text: seq<byte>, pos: nat, sofar: seq<Json>): (r: Parsed)
    requires Terminated(text) && pos < |text|
    ensures r.Good? ==> pos < r.end < |text|
    decreases |text| - pos, 4
  {
    match ParseValue(text, pos)
    case Bad => Bad
    case Good(v, end) =>
      var p := SkipSpace(text, end);
      if text[p] == ']' then Good(JList(sofar + [v]), p + 1)
      else if text[p] != ',' then Bad
      else ParseItems(text, SkipSpace(text, p + 1), sofar + [v])
  }

  datatype ParsedMember = BadMember | GoodMember(m: Member, end: nat)

  /** A key, a colon and a value. */
  function ParseMember(text: seq<byte>, pos: nat): (r: ParsedMember)
    requires Terminated(text) && pos < |text|
    ensures r.GoodMember? ==> pos < r.end < |text|
    decreases |text| - pos, 4
  {
    match ParseString(text, pos)
    case Bad => BadMember
    case Good(k, kend) =>
      var c := SkipSpace(text, kend);
      if text[c] != ':' then BadMember
      else
        match ParseValue(text, SkipSpace(text, c + 1))
        case Bad => BadMember
        case Good(v, end) => GoodMember(Member(k.s, v), end)
  }

  function ParseMembers(text: seq<byte>, pos: nat, sofar: seq<Member>): (r: Parsed)
    requires Terminated(text) && pos < |text|
    ensures r.Good? ==> pos < r.end < |text|
    decreases |text| - pos, 5
  {
    match ParseMember(text, pos)
    case BadMember => Bad
    case GoodMember(m, end) =>
      var p := SkipSpace(text, end);
      if text[p] == '}' then Good(JObject(sofar + [m]), p + 1)
      else if text[p] != ',' then Bad
      else ParseMembers(text, SkipSpace(text, p + 1), sofar + [m])
  }

  /** A whole document. */
  function ParseDocument(text: seq<byte>): (r: Parsed)
    requires Terminated(text)
  {
    match ParseValue(text, SkipSpace(text, 0))
    case Bad => Bad
    case Good(v, end) => if text[SkipSpace(text, end)] == '\0' then Good(v, end) else Bad
  }
}
