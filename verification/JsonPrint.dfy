/** JSON texts as they are printed, and that parsing them gives the value back. */
module JsonPrint {
  import opened Bytes
  import opened JsonText
  import opened JsonSyntax

  /** Numbers are printed by "%g" and are not part of the round trip. */
  predicate NoNumbers(j: Json) {
    match j
    case JNumber(_) => false
    case JList(items) => forall i | 0 <= i < |items| :: NoNumbers(items[i])
    case JObject(members) => forall i | 0 <= i < |members| :: NoNumbers(members[i].value)
    case _ => true
  }

  function Quoted(s: seq<byte>): (t: seq<byte>)
    ensures t != [] && t[0] == '"'
  {
    ['"'] + Escape(s) + ['"']
  }

  function Print(j: Json): (t: seq<byte>)
    requires NoNumbers(j)
    ensures t != [] && t[0] in {'n', 'f', 't', '"', '[', '{'}
  {
    match j
    case JNull => NULL
    case JFalse => FALSE
    case JTrue => TRUE
    case JString(s) => Quoted(s)
    case JList(items) => ['['] + (if items == [] then [']'] else PrintItems(items))
    case JObject(members) => ['{'] + (if members == [] then ['}'] else PrintMembers(members))
  }

  /** The items of a list, separated by commas, and its end. */
  function PrintItems(items: seq<Json>): (t: seq<byte>)
    requires items != [] && forall i | 0 <= i < |items| :: NoNumbers(items[i])
    ensures t != [] && t[0] in {'n', 'f', 't', '"', '[', '{'}
  {
    Print(items[0]) + (if |items| == 1 then [']'] else [','] + PrintItems(items[1..]))
  }

  function PrintMembers(members: seq<Member>): (t: seq<byte>)
    requires members != [] && forall i | 0 <= i < |members| :: NoNumbers(members[i].value)
    ensures t != [] && t[0] == '"'
  {
    PrintMember(members[0]) + (if |members| == 1 then ['}'] else [','] + PrintMembers(members[1..]))
  }

  function PrintMember(m: Member): (t: seq<byte>)
    requires NoNumbers(m.value)
    ensures t != [] && t[0] == '"'
  {
    Quoted(m.key) + [':'] + Print(m.value)
  }

  // ---------- parsing what was printed ----------

  lemma WordSplit(text: seq<byte>, pos: nat, a: seq<byte>, b: seq<byte>)
    ensures WordAt(text, pos, a + b) <==> WordAt(text, pos, a) && WordAt(text, pos + |a|, b)
  {
    if pos + |a| + |b| <= |text| {
      assert text[pos..pos + |a + b|] == text[pos..pos + |a|] + text[pos + |a|..pos + |a| + |b|];
      if text[pos..pos + |a + b|] == a + b {
        assert text[pos..pos + |a|] == (a + b)[..|a|] && text[pos + |a|..pos + |a| + |b|] == (a + b)[|a|..];
      }
    }
  }

  lemma WordFirst(text: seq<byte>, pos: nat, a: seq<byte>)
    requires WordAt(text, pos, a) && a != []
    ensures pos < |text| && text[pos] == a[0]
  {
    assert text[pos..pos + |a|][0] == a[0];
  }

  lemma EscapeStep(s: seq<byte>, q: seq<byte>)
    requires s != []
    ensures Escape(s) + q == EscapeChar(s[0]) + (Escape(s[1..]) + q)
    ensures |Escape(s)| == |EscapeChar(s[0])| + |Escape(s[1..])|
  {
    EscapeUnfold(s);
    Regroup(EscapeChar(s[0]), Escape(s[1..]), q);
  }

  lemma EscapeUnfold(s: seq<byte>)
    requires s != []
    ensures Escape(s) == EscapeChar(s[0]) + Escape(s[1..])
  {
    hide EscapeChar;
  }

  lemma Regroup(a: seq<byte>, b: seq<byte>, c: seq<byte>)
    ensures a + b + c == a + (b + c)
  {
  }

  lemma StringEndStep(text: seq<byte>, pos: nat, c: byte)
    requires Terminated(text) && pos < |text| && WordAt(text, pos, EscapeChar(c))
    ensures pos + |EscapeChar(c)| < |text| && StringEnd(text, pos) == StringEnd(text, pos + |EscapeChar(c)|)
  {
    hide EscapeChar, PieceLen, PieceText;
    var e := EscapeChar(c);
    assert text[pos..] == e + text[pos + |e|..];
    EscapedPiece(c, text[pos + |e|..]);
    PieceInside(text, pos);
    NotAQuote(c);
    WordFirst(text, pos, e);
  }

  lemma {:induction false} StringEndEscaped(text: seq<byte>, pos: nat, s: seq<byte>)
    requires Terminated(text) && WordAt(text, pos, Escape(s) + ['"'])
    ensures pos < |text| && StringEnd(text, pos) == pos + |Escape(s)|
    decreases |s|
  {
    hide EscapeChar, WordAt, StringEnd, Escape;
    WordFirst(text, pos, Escape(s) + ['"']);
    if s != [] {
      var e, rest := EscapeChar(s[0]), Escape(s[1..]) + ['"'];
      EscapeStep(s, ['"']);
      WordSplit(text, pos, e, rest);
      StringEndEscaped(text, pos + |e|, s[1..]);
      StringEndStep(text, pos, s[0]);
    } else {
      EmptyString(text, pos);
    }
  }

  lemma EmptyString(text: seq<byte>, pos: nat)
    requires Terminated(text) && WordAt(text, pos, Escape([]) + ['"'])
    ensures pos < |text| && Escape([]) == [] && StringEnd(text, pos) == pos
  {
    WordFirst(text, pos, ['"']);
  }

  lemma NotAQuote(c: byte)
    ensures EscapeChar(c)[0] != '"' && EscapeChar(c)[0] != '\0'
  {
  }

  lemma ParseQuoted(text: seq<byte>, pos: nat, s: seq<byte>)
    requires Terminated(text) && WordAt(text, pos, Quoted(s))
    ensures pos < |text| && ParseString(text, pos) == Good(JString(s), pos + |Quoted(s)|)
  {
    hide StringEnd, Escape, WellEscaped, Unescape;
    WordFirst(text, pos, Quoted(s));
    assert Quoted(s) == ['"'] + (Escape(s) + ['"']);
    WordSplit(text, pos, ['"'], Escape(s) + ['"']);
    WordSplit(text, pos + 1, Escape(s), ['"']);
    StringEndEscaped(text, pos + 1, s);
    EscapeRoundTrip(s);
  }

  lemma NoSpace(text: seq<byte>, pos: nat)
    requires Terminated(text) && pos < |text| && !IsSpace(text[pos])
    ensures SkipSpace(text, pos) == pos
  {
  }

  /** Parsing a printed value gives it back and ends where it ends, whatever follows. */
  lemma {:induction false} ParsePrinted(text: seq<byte>, pos: nat, j: Json)
    requires Terminated(text) && NoNumbers(j) && WordAt(text, pos, Print(j))
    ensures pos < |text| && ParseValue(text, pos) == Good(j, pos + |Print(j)|)
    decreases j
  {
    hide PrintItems, PrintMembers, Quoted, ParseItems, ParseMembers, ParseString, NumberEnd;
    WordFirst(text, pos, Print(j));
    match j
    case JNull =>
    case JFalse =>
    case JTrue =>
    case JNumber(_) =>
    case JString(s) => ParseQuoted(text, pos, s);
    case JList(items) => ParsePrintedList(text, pos, items);
    case JObject(members) => ParsePrintedObject(text, pos, members);
  }

  lemma {:induction false} ParsePrintedList(text: seq<byte>, pos: nat, items: seq<Json>)
    requires Terminated(text) && NoNumbers(JList(items)) && WordAt(text, pos, Print(JList(items)))
    ensures pos < |text| && ParseValue(text, pos) == Good(JList(items), pos + |Print(JList(items))|)
    decreases items, 1
  {
    hide PrintItems, Quoted, ParseItems, ParseMembers, ParseString, NumberEnd;
    WordFirst(text, pos, Print(JList(items)));
    if items == [] {
      WordSplit(text, pos, ['['], [']']);
      WordFirst(text, pos + 1, [']']);
    } else {
      WordSplit(text, pos, ['['], PrintItems(items));
      WordFirst(text, pos + 1, PrintItems(items));
      ParsePrintedItems(text, pos + 1, items, []);
      assert [] + items == items;
    }
  }

  lemma {:induction false} ParsePrintedObject(text: seq<byte>, pos: nat, members: seq<Member>)
    requires Terminated(text) && NoNumbers(JObject(members)) && WordAt(text, pos, Print(JObject(members)))
    ensures pos < |text| && ParseValue(text, pos) == Good(JObject(members), pos + |Print(JObject(members))|)
    decreases members, 1
  {
    hide PrintMembers, Quoted, ParseItems, ParseMembers, ParseString, NumberEnd;
    WordFirst(text, pos, Print(JObject(members)));
    if members == [] {
      WordSplit(text, pos, ['{'], ['}']);
      WordFirst(text, pos + 1, ['}']);
    } else {
      WordSplit(text, pos, ['{'], PrintMembers(members));
      WordFirst(text, pos + 1, PrintMembers(members));
      ParsePrintedMembers(text, pos + 1, members, []);
      assert [] + members == members;
    }
  }

  lemma OneOver<T>(sofar: seq<T>, items: seq<T>)
    requires items != []
    ensures sofar + [items[0]] + items[1..] == sofar + items
    ensures |items| == 1 ==> sofar + [items[0]] == sofar + items
  {
  }

  /** What follows the first of some items. */
  function ItemsAfter(items: seq<Json>): (t: seq<byte>)
    requires items != [] && forall i | 0 <= i < |items| :: NoNumbers(items[i])
    ensures |items| == 1 ==> t == [']']
    ensures |items| > 1 ==> t == [','] + PrintItems(items[1..])
  {
    if |items| == 1 then [']'] else [','] + PrintItems(items[1..])
  }

  lemma ItemsUnfold(items: seq<Json>)
    requires items != [] && forall i | 0 <= i < |items| :: NoNumbers(items[i])
    ensures PrintItems(items) == Print(items[0]) + ItemsAfter(items)
  {
    hide Print, NoNumbers;
  }

  function MembersAfter(members: seq<Member>): (t: seq<byte>)
    requires members != [] && forall i | 0 <= i < |members| :: NoNumbers(members[i].value)
    ensures |members| == 1 ==> t == ['}']
    ensures |members| > 1 ==> t == [','] + PrintMembers(members[1..])
  {
    if |members| == 1 then ['}'] else [','] + PrintMembers(members[1..])
  }

  lemma MembersUnfold(members: seq<Member>)
    requires members != [] && forall i | 0 <= i < |members| :: NoNumbers(members[i].value)
    ensures PrintMembers(members) == PrintMember(members[0]) + MembersAfter(members)
  {
    hide PrintMember, NoNumbers;
  }

  lemma LastItem(text: seq<byte>, pos: nat, sofar: seq<Json>, v: Json, end: nat)
    requires Terminated(text) && pos < |text| && ParseValue(text, pos) == Good(v, end) && text[end] == ']'
    ensures ParseItems(text, pos, sofar) == Good(JList(sofar + [v]), end + 1)
  {
    hide ParseValue;
    NoSpace(text, end);
  }

  lemma NextItem(text: seq<byte>, pos: nat, sofar: seq<Json>, v: Json, end: nat)
    requires Terminated(text) && pos < |text| && ParseValue(text, pos) == Good(v, end) && text[end] == ','
    requires end + 1 < |text| && !IsSpace(text[end + 1])
    ensures ParseItems(text, pos, sofar) == ParseItems(text, end + 1, sofar + [v])
  {
    hide ParseValue;
    NoSpace(text, end);
    NoSpace(text, end + 1);
  }

  lemma {:induction false} ParsePrintedItems(text: seq<byte>, pos: nat, items: seq<Json>, sofar: seq<Json>)
    requires Terminated(text) && items != [] && (forall i | 0 <= i < |items| :: NoNumbers(items[i]))
    requires WordAt(text, pos, PrintItems(items))
    ensures pos < |text| && ParseItems(text, pos, sofar) == Good(JList(sofar + items), pos + |PrintItems(items)|)
    decreases items, 0
  {
    hide Print, ParseValue, WordAt, SkipSpace, ParseItems, NoNumbers, PrintItems, ItemsAfter;
    var first, more := Print(items[0]), ItemsAfter(items);
    ItemsUnfold(items);
    WordFirst(text, pos, PrintItems(items));
    WordSplit(text, pos, first, more);
    ParsePrinted(text, pos, items[0]);
    var end := pos + |first|;
    WordFirst(text, end, more);
    OneOver(sofar, items);
    if |items| == 1 {
      LastItem(text, pos, sofar, items[0], end);
    } else {
      WordSplit(text, end, [','], PrintItems(items[1..]));
      WordFirst(text, end + 1, PrintItems(items[1..]));
      NextItem(text, pos, sofar, items[0], end);
      ParsePrintedItems(text, end + 1, items[1..], sofar + [items[0]]);
    }
  }

  lemma {:induction false} ParsePrintedMember(text: seq<byte>, pos: nat, m: Member)
    requires Terminated(text) && NoNumbers(m.value) && WordAt(text, pos, PrintMember(m))
    ensures pos < |text| && ParseMember(text, pos) == GoodMember(m, pos + |PrintMember(m)|)
    decreases m
  {
    hide Print, ParseValue, Quoted, ParseString, WordAt, SkipSpace;
    var key, value := Quoted(m.key), Print(m.value);
    assert PrintMember(m) == key + ([':'] + value);
    WordFirst(text, pos, PrintMember(m));
    WordSplit(text, pos, key, [':'] + value);
    ParseQuoted(text, pos, m.key);
    var c := pos + |key|;
    WordFirst(text, c, [':'] + value);
    NoSpace(text, c);
    WordSplit(text, c, [':'], value);
    WordFirst(text, c + 1, value);
    NoSpace(text, c + 1);
    ParsePrinted(text, c + 1, m.value);
  }

  lemma LastMember(text: seq<byte>, pos: nat, sofar: seq<Member>, m: Member, end: nat)
    requires Terminated(text) && pos < |text| && ParseMember(text, pos) == GoodMember(m, end) && text[end] == '}'
    ensures ParseMembers(text, pos, sofar) == Good(JObject(sofar + [m]), end + 1)
  {
    hide ParseMember;
    NoSpace(text, end);
  }

  lemma NextMember(text: seq<byte>, pos: nat, sofar: seq<Member>, m: Member, end: nat)
    requires Terminated(text) && pos < |text| && ParseMember(text, pos) == GoodMember(m, end) && text[end] == ','
    requires end + 1 < |text| && !IsSpace(text[end + 1])
    ensures ParseMembers(text, pos, sofar) == ParseMembers(text, end + 1, sofar + [m])
  {
    hide ParseMember;
    NoSpace(text, end);
    NoSpace(text, end + 1);
  }

  lemma {:induction false} ParsePrintedMembers(text: seq<byte>, pos: nat, members: seq<Member>, sofar: seq<Member>)
    requires Terminated(text) && members != [] && (forall i | 0 <= i < |members| :: NoNumbers(members[i].value))
    requires WordAt(text, pos, PrintMembers(members))
    ensures pos < |text|
    ensures ParseMembers(text, pos, sofar) == Good(JObject(sofar + members), pos + |PrintMembers(members)|)
    decreases members, 0
  {
    hide PrintMember, ParseMember, WordAt, SkipSpace, ParseMembers, NoNumbers, PrintMembers, MembersAfter;
    var first, more := PrintMember(members[0]), MembersAfter(members);
    MembersUnfold(members);
    WordFirst(text, pos, PrintMembers(members));
    WordSplit(text, pos, first, more);
    ParsePrintedMember(text, pos, members[0]);
    var end := pos + |first|;
    WordFirst(text, end, more);
    OneOver(sofar, members);
    if |members| == 1 {
      LastMember(text, pos, sofar, members[0], end);
    } else {
      WordSplit(text, end, [','], PrintMembers(members[1..]));
      WordFirst(text, end + 1, PrintMembers(members[1..]));
      NextMember(text, pos, sofar, members[0], end);
      ParsePrintedMembers(text, end + 1, members[1..], sofar + [members[0]]);
    }
  }

  /** A printed document is read back. */
  lemma DocumentRoundTrip(j: Json)
    requires NoNumbers(j)
    ensures ParseDocument(Print(j) + ['\0']) == Good(j, |Print(j)|)
  {
    hide Print, ParseValue;
    var t := Print(j);
    var text := t + ['\0'];
    assert text[0..|t|] == t;
    NoSpace(text, 0);
    ParsePrinted(text, 0, j);
    NoSpace(text, |t|);
  }
}
