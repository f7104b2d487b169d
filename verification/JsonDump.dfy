/** Writable values: printed with their object members in any order, and built from what
    was parsed. Printing, loading and converting gives the value back. */
module JsonDump {
  import opened Bytes
  import opened JsonText
  import opened JsonSyntax
  import opened JsonPrint
  import opened JsonLoad
  import opened JsonCells
  import opened JsonParsing

  datatype WValue =
    | WNull | WFalse | WTrue | WNumber(digits: seq<byte>) | WString(s: seq<byte>)
    | WList(items: seq<WValue>) | WObject(members: map<seq<byte>, WValue>)

  // ---------- what a parsed text means ----------

  /** Of members with one key the first is kept, as `emplace` does. */
  function Value(j: Json): WValue {
    match j
    case JNull => WNull
    case JFalse => WFalse
    case JTrue => WTrue
    case JNumber(d) => WNumber(d)
    case JString(s) => WString(s)
    case JList(items) => WList(Values(items))
    case JObject(members) => WObject(ObjectValue(members))
  }

  function Values(items: seq<Json>): (ws: seq<WValue>)
    ensures |ws| == |items|
  {
    if items == [] then [] else Values(items[..|items| - 1]) + [Value(items[|items| - 1])]
  }

  function ObjectValue(members: seq<Member>): map<seq<byte>, WValue> {
    if members == [] then map[]
    else
      var m := members[|members| - 1];
      assert m.value < m;
      Emplace(ObjectValue(members[..|members| - 1]), m.key, Value(m.value))
  }

  function Emplace(o: map<seq<byte>, WValue>, key: seq<byte>, v: WValue): map<seq<byte>, WValue> {
    if key in o then o else o[key := v]
  }

  // ---------- from parsed to writable values ----------

  lemma {:induction false} HoldsItemAt(buf: seq<byte>, lo: nat, items: seq<RValue>, vs: seq<Json>, i: nat)
    requires HoldsItems(buf, lo, items, vs) && i < |items|
    ensures Holds(buf, ReachItems(items[..i], lo), items[i], vs[i])
    ensures ReachItems(items[..i + 1], lo) == Reach(items[i], ReachItems(items[..i], lo))
    ensures lo <= ReachItems(items[..i], lo) <= ReachItems(items[..i + 1], lo) <= ReachItems(items, lo)
    decreases |items|
  {
    hide Holds, Reach;
    var n := |items| - 1;
    assert items[..i + 1][..i] == items[..i];
    assert items[..n + 1] == items;
    ReachItemsGrows(buf, lo, items[..n], vs[..n]);
    ReachGrows(buf, ReachItems(items[..n], lo), items[n], vs[n]);
    if i < n {
      HoldsItemAt(buf, lo, items[..n], vs[..n], i);
      assert items[..n][..i] == items[..i] && items[..n][..i + 1] == items[..i + 1];
    }
  }

  lemma {:induction false} HoldsMemberAt(buf: seq<byte>, lo: nat, members: seq<RMember>, ms: seq<Member>, i: nat)
    requires HoldsMembers(buf, lo, members, ms) && i < |members|
    ensures HoldsMember(buf, ReachMembers(members[..i], lo), members[i], ms[i])
    ensures ReachMembers(members[..i + 1], lo) == Reach(members[i].value, members[i].keyEnd + 1)
    ensures members[i].keyEnd + 1 <= ReachMembers(members[..i + 1], lo)
    ensures lo <= ReachMembers(members[..i], lo) <= ReachMembers(members[..i + 1], lo) <= ReachMembers(members, lo)
    decreases |members|
  {
    hide Holds, Reach;
    var n := |members| - 1;
    assert members[..i + 1][..i] == members[..i];
    assert members[..n + 1] == members;
    ReachMembersGrows(buf, lo, members[..n], ms[..n]);
    ReachGrows(buf, members[n].keyEnd + 1, members[n].value, ms[n].value);
    if i < n {
      HoldsMemberAt(buf, lo, members[..n], ms[..n], i);
      assert members[..n][..i] == members[..i] && members[..n][..i + 1] == members[..i + 1];
    }
  }

  /** Only the cells from lo to hi differ. */
  ghost predicate OnlyWithin(a: seq<byte>, b: seq<byte>, lo: nat, hi: nat) {
    |a| == |b| && forall i | 0 <= i < |a| && !(lo <= i < hi) :: a[i] == b[i]
  }

  lemma WithinMore(a: seq<byte>, b: seq<byte>, c: seq<byte>, lo: nat, mid: nat, hi: nat)
    requires OnlyWithin(a, b, lo, mid) && OnlyWithin(b, c, mid, hi) && lo <= mid <= hi
    ensures OnlyWithin(a, c, lo, hi)
  {
  }

  lemma HeldAfter(a: seq<byte>, b: seq<byte>, lo: nat, mid: nat, r: RValue, v: Json)
    requires OnlyWithin(a, b, lo, mid) && Holds(a, mid, r, v)
    ensures Holds(b, mid, r, v)
  {
    hide Holds, Reach;
    HoldsFrame(a, b, mid, Reach(r, mid), r, v);
  }

  /** `wvalue(const rvalue&)`: strings are unescaped in the buffer as they are met. */
  method ToWValue(buf: array<byte>, r: RValue, ghost lo: nat, ghost v: Json) returns (w: WValue)
    requires Holds(buf[..], lo, r, v)
    modifies buf
    ensures w == Value(v) && OnlyWithin(old(buf[..]), buf[..], lo, Reach(r, lo))
    decreases v, 1
  {
    hide HoldsItems, HoldsMembers, StringOf;
    match r
    case RNull => w := WNull;
    case RFalse => w := WFalse;
    case RTrue => w := WTrue;
    case RNumber(start, end) => w := WNumber(buf[start..end]);
    case RString(start, end) =>
      var newEnd := UnescapeInPlace(buf, start, end);
      w := WString(buf[start..newEnd]);
      UnescapedWithin(old(buf[..]), buf[..], lo, start, end);
    case RList(items) =>
      var ws := ToList(buf, items, lo, v.items);
      w := WList(ws);
    case RObject(members) =>
      var o := ToObject(buf, members, lo, v.members);
      w := WObject(o);
  }

  lemma UnescapedWithin(a: seq<byte>, b: seq<byte>, lo: nat, start: nat, end: nat)
    requires |a| == |b| && lo < start <= end < |a| && b[..start - 1] == a[..start - 1] && b[end..] == a[end..]
    ensures OnlyWithin(a, b, lo, end + 1)
  {
    forall i | 0 <= i < |a| && !(lo <= i < end + 1) ensures a[i] == b[i] {
      if i < lo { assert a[i] == a[..start - 1][i] && b[i] == b[..start - 1][i]; }
      else { assert a[i] == a[end..][i - end] && b[i] == b[end..][i - end]; }
    }
  }

  method ToList(buf: array<byte>, items: seq<RValue>, ghost lo: nat, ghost vs: seq<Json>) returns (ws: seq<WValue>)
    requires HoldsItems(buf[..], lo, items, vs)
    modifies buf
    ensures ws == Values(vs) && OnlyWithin(old(buf[..]), buf[..], lo, ReachItems(items, lo))
    decreases vs, 0
  {
    hide Holds, Reach, HoldsItems, Value, OnlyWithin;
    ghost var was := buf[..];
    ItemsLength(was, lo, items, vs);
    ws := [];
    WithinNothing(was, lo);
    assert items[..0] == [] && vs[..0] == [];
    for i := 0 to |items|
      invariant ws == Values(vs[..i]) && OnlyWithin(was, buf[..], lo, ReachItems(items[..i], lo))
    {
      hide ReachItems;
      ghost var mid, before := ReachItems(items[..i], lo), buf[..];
      HoldsItemAt(was, lo, items, vs, i);
      HeldAfter(was, before, lo, mid, items[i], vs[i]);
      var w := ToWValue(buf, items[i], mid, vs[i]);
      WithinMore(was, before, buf[..], lo, mid, ReachItems(items[..i + 1], lo));
      ws := ws + [w];
      assert vs[..i + 1][..i] == vs[..i] && vs[..i + 1][i] == vs[i];
    }
    assert vs[..|items|] == vs && items[..|items|] == items;
  }

  lemma ItemsLength(buf: seq<byte>, lo: nat, items: seq<RValue>, vs: seq<Json>)
    requires HoldsItems(buf, lo, items, vs)
    ensures |items| == |vs|
  {
  }

  lemma MembersLength(buf: seq<byte>, lo: nat, members: seq<RMember>, ms: seq<Member>)
    requires HoldsMembers(buf, lo, members, ms)
    ensures |members| == |ms|
  {
  }

  lemma WithinNothing(a: seq<byte>, lo: nat)
    ensures OnlyWithin(a, a, lo, lo)
  {
  }

  method ToObject(buf: array<byte>, members: seq<RMember>, ghost lo: nat, ghost ms: seq<Member>)
    returns (o: map<seq<byte>, WValue>)
    requires HoldsMembers(buf[..], lo, members, ms)
    modifies buf
    ensures o == ObjectValue(ms) && OnlyWithin(old(buf[..]), buf[..], lo, ReachMembers(members, lo))
    decreases ms, 0
  {
    hide Holds, Reach, HoldsMembers, Value, OnlyWithin, Emplace;
    ghost var was := buf[..];
    MembersLength(was, lo, members, ms);
    o := map[];
    WithinNothing(was, lo);
    assert members[..0] == [] && ms[..0] == [];
    for i := 0 to |members|
      invariant o == ObjectValue(ms[..i]) && OnlyWithin(was, buf[..], lo, ReachMembers(members[..i], lo))
    {
      hide ReachMembers;
      ghost var mid, before := ReachMembers(members[..i], lo), buf[..];
      var m := members[i];
      HoldsMemberAt(was, lo, members, ms, i);
      KeyAfter(was, before, lo, mid, m, ms[i]);
      var key := buf[m.keyStart..m.keyEnd];
      assert ms[i].value < ms[i];
      var w := ToWValue(buf, m.value, m.keyEnd + 1, ms[i].value);
      WithinWider(before, buf[..], mid, m.keyEnd + 1, ReachMembers(members[..i + 1], lo));
      WithinMore(was, before, buf[..], lo, mid, ReachMembers(members[..i + 1], lo));
      o := Emplace(o, key, w);
      assert ms[..i + 1][..i] == ms[..i] && ms[..i + 1][i] == ms[i];
    }
    assert ms[..|members|] == ms && members[..|members|] == members;
  }

  lemma WithinWider(a: seq<byte>, b: seq<byte>, lo: nat, later: nat, hi: nat)
    requires OnlyWithin(a, b, later, hi) && lo <= later
    ensures OnlyWithin(a, b, lo, hi)
  {
  }

  lemma KeyAfter(a: seq<byte>, b: seq<byte>, lo: nat, mid: nat, m: RMember, w: Member)
    requires OnlyWithin(a, b, lo, mid) && HoldsMember(a, mid, m, w)
    ensures m.keyStart <= m.keyEnd < |b| && b[m.keyStart..m.keyEnd] == w.key && mid <= m.keyEnd + 1
    ensures Holds(b, m.keyEnd + 1, m.value, w.value)
  {
    hide Holds, Reach;
    HoldsFrame(a, b, m.keyEnd + 1, Reach(m.value, m.keyEnd + 1), m.value, w.value);
  }

  // ---------- printing ----------

  predicate WithoutNumbers(v: WValue) {
    match v
    case WNumber(_) => false
    case WList(items) => forall i | 0 <= i < |items| :: WithoutNumbers(items[i])
    case WObject(members) => forall k | k in members :: WithoutNumbers(members[k])
    case _ => true
  }

  /** Items and members as they are printed one after the other, before the closing bracket. */
  function ItemsText(items: seq<Json>): seq<byte>
    requires items != [] && forall i | 0 <= i < |items| :: NoNumbers(items[i])
  {
    var n := |items| - 1;
    if n == 0 then Print(items[0]) else ItemsText(items[..n]) + [','] + Print(items[n])
  }

  function MembersText(members: seq<Member>): seq<byte>
    requires members != [] && forall i | 0 <= i < |members| :: NoNumbers(members[i].value)
  {
    var n := |members| - 1;
    if n == 0 then PrintMember(members[0]) else MembersText(members[..n]) + [','] + PrintMember(members[n])
  }

  lemma {:induction false} ItemsTextFront(items: seq<Json>)
    requires |items| > 1 && forall i | 0 <= i < |items| :: NoNumbers(items[i])
    ensures ItemsText(items) == Print(items[0]) + [','] + ItemsText(items[1..])
    decreases |items|
  {
    hide Print, NoNumbers;
    var n := |items| - 1;
    if n > 1 {
      ItemsTextFront(items[..n]);
      assert items[..n][1..] == items[1..][..n - 1];
      assert ItemsText(items[1..]) == ItemsText(items[1..][..n - 1]) + [','] + Print(items[n]);
      assert Print(items[0]) + [','] + ItemsText(items[1..][..n - 1]) + [','] + Print(items[n])
          == Print(items[0]) + [','] + (ItemsText(items[1..][..n - 1]) + [','] + Print(items[n]));
    } else {
      assert items[..1] == [items[0]] && items[1..] == [items[1]];
    }
  }

  lemma {:induction false} ItemsPrinted(items: seq<Json>)
    requires items != [] && forall i | 0 <= i < |items| :: NoNumbers(items[i])
    ensures PrintItems(items) == ItemsText(items) + [']']
    decreases |items|
  {
    hide Print, NoNumbers, PrintItems, ItemsText, ItemsAfter;
    ItemsUnfold(items);
    if |items| > 1 {
      ItemsTextFront(items);
      ItemsPrinted(items[1..]);
      assert Print(items[0]) + ([','] + (ItemsText(items[1..]) + [']']))
          == Print(items[0]) + [','] + ItemsText(items[1..]) + [']'];
    } else {
      OneItemText(items);
    }
  }

  lemma OneItemText(items: seq<Json>)
    requires |items| == 1 && NoNumbers(items[0])
    ensures ItemsText(items) == Print(items[0])
  {
  }

  lemma OneMemberText(members: seq<Member>)
    requires |members| == 1 && NoNumbers(members[0].value)
    ensures MembersText(members) == PrintMember(members[0])
  {
  }

  lemma {:induction false} MembersTextFront(members: seq<Member>)
    requires |members| > 1 && forall i | 0 <= i < |members| :: NoNumbers(members[i].value)
    ensures MembersText(members) == PrintMember(members[0]) + [','] + MembersText(members[1..])
    decreases |members|
  {
    hide PrintMember, NoNumbers;
    var n := |members| - 1;
    if n > 1 {
      MembersTextFront(members[..n]);
      assert members[..n][1..] == members[1..][..n - 1];
      assert MembersText(members[1..]) == MembersText(members[1..][..n - 1]) + [','] + PrintMember(members[n]);
      assert PrintMember(members[0]) + [','] + MembersText(members[1..][..n - 1]) + [','] + PrintMember(members[n])
          == PrintMember(members[0]) + [','] + (MembersText(members[1..][..n - 1]) + [','] + PrintMember(members[n]));
    } else {
      assert members[..1] == [members[0]] && members[1..] == [members[1]];
    }
  }

  lemma {:induction false} MembersPrinted(members: seq<Member>)
    requires members != [] && forall i | 0 <= i < |members| :: NoNumbers(members[i].value)
    ensures PrintMembers(members) == MembersText(members) + ['}']
    decreases |members|
  {
    hide PrintMember, NoNumbers, PrintMembers, MembersText, MembersAfter;
    MembersUnfold(members);
    if |members| > 1 {
      MembersTextFront(members);
      MembersPrinted(members[1..]);
      assert PrintMember(members[0]) + ([','] + (MembersText(members[1..]) + ['}']))
          == PrintMember(members[0]) + [','] + MembersText(members[1..]) + ['}'];
    } else {
      OneMemberText(members);
    }
  }

  /** `dump_string` */
  method DumpString(str: seq<byte>, out: seq<byte>) returns (res: seq<byte>)
    ensures res == out + Quoted(str)
  {
    res := out + ['"'];
    res := AppendEscaped(str, res);
    res := res + ['"'];
    assert out + ['"'] + Escape(str) + ['"'] == out + (['"'] + Escape(str) + ['"']);
  }

  /** A text was appended that is one of the value's, with its members in some order. */
  ghost predicate Dumped(v: WValue, out: seq<byte>, res: seq<byte>) {
    exists j :: NoNumbers(j) && Value(j) == v && res == out + Print(j)
  }

  ghost predicate ItemsDumped(items: seq<WValue>, out: seq<byte>, res: seq<byte>) {
    exists js: seq<Json> ::
      && (forall i | 0 <= i < |js| :: NoNumbers(js[i])) && Values(js) == items
      && res == out + (if js == [] then [']'] else ItemsText(js) + [']'])
  }

  ghost predicate MembersDumped(members: map<seq<byte>, WValue>, out: seq<byte>, res: seq<byte>) {
    exists ms: seq<Member> ::
      && (forall i | 0 <= i < |ms| :: NoNumbers(ms[i].value)) && ObjectValue(ms) == members
      && res == out + (if ms == [] then ['}'] else MembersText(ms) + ['}'])
  }

  ghost predicate MemberDumped(k: seq<byte>, v: WValue, out: seq<byte>, res: seq<byte>) {
    exists m: Member :: NoNumbers(m.value) && m.key == k && Value(m.value) == v && res == out + PrintMember(m)
  }

  /** `dump_internal`: appends the text of a value. The members of an object come in any
      order; j is the order that was taken. */
  method DumpInternal(v: WValue, out: seq<byte>) returns (res: seq<byte>, ghost j: Json)
    requires WithoutNumbers(v)
    ensures NoNumbers(j) && Value(j) == v && res == out + Print(j)
    ensures Dumped(v, out, res)
    decreases v, 2
  {
    match v
    case WNull => res, j := out + NULL, JNull;
    case WFalse => res, j := out + FALSE, JFalse;
    case WTrue => res, j := out + TRUE, JTrue;
    case WNumber(_) => assert false; res, j := out, JNull;
    case WString(s) =>
      res := DumpString(s, out);
      j := JString(s);
    case WList(items) =>
      ghost var js;
      res, js := DumpItems(items, out + ['[']);
      j := JList(js);
      ListPrinted(out, js);
    case WObject(members) =>
      ghost var ms;
      res, ms := DumpMembers(v, out + ['{']);
      j := JObject(ms);
      ObjectPrinted(out, ms);
  }

  lemma ListPrinted(out: seq<byte>, js: seq<Json>)
    requires forall i | 0 <= i < |js| :: NoNumbers(js[i])
    ensures out + ['['] + (if js == [] then [']'] else ItemsText(js) + [']']) == out + Print(JList(js))
  {
    hide PrintItems, ItemsText;
    if js != [] { ItemsPrinted(js); }
  }

  lemma ObjectPrinted(out: seq<byte>, ms: seq<Member>)
    requires forall i | 0 <= i < |ms| :: NoNumbers(ms[i].value)
    ensures out + ['{'] + (if ms == [] then ['}'] else MembersText(ms) + ['}']) == out + Print(JObject(ms))
  {
    hide PrintMembers, MembersText;
    if ms != [] { MembersPrinted(ms); }
  }

  /** The text of items with a comma before each but the first. */
  function ItemsSoFar(js: seq<Json>): seq<byte>
    requires forall i | 0 <= i < |js| :: NoNumbers(js[i])
  {
    if js == [] then [] else ItemsText(js)
  }

  function MembersSoFar(ms: seq<Member>): seq<byte>
    requires forall i | 0 <= i < |ms| :: NoNumbers(ms[i].value)
  {
    if ms == [] then [] else MembersText(ms)
  }

  lemma ItemsGrow(out: seq<byte>, js: seq<Json>, j: Json)
    requires (forall i | 0 <= i < |js| :: NoNumbers(js[i])) && NoNumbers(j)
    ensures out + ItemsSoFar(js) + (if js == [] then [] else [',']) + Print(j) == out + ItemsSoFar(js + [j])
    ensures Values(js + [j]) == Values(js) + [Value(j)]
  {
    hide Print, NoNumbers, Value, ItemsText, Values;
    ItemsSnoc(js, j);
    if js != [] {
      Regroup(out, ItemsText(js), [','], Print(j));
    }
  }

  lemma ItemsSnoc(js: seq<Json>, j: Json)
    requires (forall i | 0 <= i < |js| :: NoNumbers(js[i])) && NoNumbers(j)
    ensures ItemsText(js + [j]) == if js == [] then Print(j) else ItemsText(js) + [','] + Print(j)
    ensures Values(js + [j]) == Values(js) + [Value(j)]
  {
    hide Print, NoNumbers, Value;
    assert (js + [j])[..|js|] == js;
  }

  lemma MembersGrow(out: seq<byte>, ms: seq<Member>, m: Member)
    requires (forall i | 0 <= i < |ms| :: NoNumbers(ms[i].value)) && NoNumbers(m.value)
    ensures out + MembersSoFar(ms) + (if ms == [] then [] else [',']) + PrintMember(m) == out + MembersSoFar(ms + [m])
  {
    hide PrintMember, NoNumbers, MembersText;
    var t, p := MembersSoFar(ms), PrintMember(m);
    MembersSnoc(ms, m);
    if ms == [] {
      assert out + [] + [] + p == out + p;
    } else {
      Regroup(out, t, [','], p);
    }
  }

  lemma Regroup(a: seq<byte>, b: seq<byte>, c: seq<byte>, d: seq<byte>)
    ensures a + b + c + d == a + (b + c + d)
  {
  }

  lemma MembersSnoc(ms: seq<Member>, m: Member)
    requires (forall i | 0 <= i < |ms| :: NoNumbers(ms[i].value)) && NoNumbers(m.value)
    ensures MembersText(ms + [m]) == if ms == [] then PrintMember(m) else MembersText(ms) + [','] + PrintMember(m)
    ensures ObjectValue(ms + [m]) == Emplace(ObjectValue(ms), m.key, Value(m.value))
  {
    hide PrintMember, NoNumbers, Value, Emplace;
    assert (ms + [m])[..|ms|] == ms;
  }

  method DumpItems(items: seq<WValue>, out: seq<byte>) returns (res: seq<byte>, ghost js: seq<Json>)
    requires forall i | 0 <= i < |items| :: WithoutNumbers(items[i])
    ensures forall i | 0 <= i < |js| :: NoNumbers(js[i])
    ensures Values(js) == items
    ensures res == out + (if js == [] then [']'] else ItemsText(js) + [']'])
    ensures ItemsDumped(items, out, res)
    decreases items, 0
  {
    hide Print, NoNumbers, Value, WithoutNumbers, ItemsText, Values;
    res, js := out, [];
    var first := true;
    NoValues();
    for i := 0 to |items|
      invariant forall k | 0 <= k < |js| :: NoNumbers(js[k])
      invariant Values(js) == items[..i] && (first <==> js == []) && res == out + ItemsSoFar(js)
    {
      if !first { res := res + [',']; }
      first := false;
      ghost var j;
      res, j := DumpInternal(items[i], res);
      ItemsGrow(out, js, j);
      js := js + [j];
    }
    res := res + [']'];
    assert items[..|items|] == items;
  }

  lemma NoValues()
    ensures Values([]) == []
  {
  }

  method DumpMembers(v: WValue, out: seq<byte>) returns (res: seq<byte>, ghost ms: seq<Member>)
    requires v.WObject? && WithoutNumbers(v)
    ensures forall i | 0 <= i < |ms| :: NoNumbers(ms[i].value)
    ensures ObjectValue(ms) == v.members
    ensures res == out + (if ms == [] then ['}'] else MembersText(ms) + ['}'])
    ensures MembersDumped(v.members, out, res)
    decreases v, 1
  {
    hide Print, NoNumbers, Value, MembersText, ObjectValue, PrintMember, Emplace, MembersSoFar;
    res, ms := out, [];
    var first := true;
    var keys := v.members.Keys;
    NoMembers(v.members);
    while keys != {}
      invariant forall k | 0 <= k < |ms| :: NoNumbers(ms[k].value)
      invariant keys <= v.members.Keys && ObjectValue(ms) == Except(v.members, keys)
      invariant (first <==> ms == []) && res == out + MembersSoFar(ms)
      decreases |keys|
    {
      var k :| k in keys;
      ghost var m: Member;
      if !first { res := res + [',']; }
      first := false;
      res, m := DumpMember(v, k, res);
      MembersGrow(out, ms, m);
      MembersSnoc(ms, m);
      OneKeyLess(v.members, keys, k);
      ms := ms + [m];
      keys := keys - {k};
    }
    res := res + ['}'];
    SoFarIsText(ms);
  }

  method DumpMember(v: WValue, k: seq<byte>, out: seq<byte>) returns (res: seq<byte>, ghost m: Member)
    requires v.WObject? && WithoutNumbers(v) && k in v.members
    ensures NoNumbers(m.value) && m.key == k && Value(m.value) == v.members[k] && res == out + PrintMember(m)
    ensures MemberDumped(k, v.members[k], out, res)
    decreases v, 0
  {
    hide Print, NoNumbers, Value, Quoted;
    ghost var j;
    res := DumpString(k, out);
    res := res + [':'];
    res, j := DumpInternal(v.members[k], res);
    m := Member(k, j);
    assert out + Quoted(k) + [':'] + Print(j) == out + (Quoted(k) + [':'] + Print(j));
  }

  /** The members whose keys are not in a set. */
  function Except(members: map<seq<byte>, WValue>, keys: set<seq<byte>>): map<seq<byte>, WValue> {
    map k | k in members && k !in keys :: members[k]
  }

  lemma OneKeyLess(members: map<seq<byte>, WValue>, keys: set<seq<byte>>, k: seq<byte>)
    requires k in keys && keys <= members.Keys
    ensures Emplace(Except(members, keys), k, members[k]) == Except(members, keys - {k})
  {
  }

  lemma SoFarIsText(ms: seq<Member>)
    requires forall i | 0 <= i < |ms| :: NoNumbers(ms[i].value)
    ensures MembersSoFar(ms) == if ms == [] then [] else MembersText(ms)
  {
    hide MembersText;
  }

  lemma NoMembers(members: map<seq<byte>, WValue>)
    ensures ObjectValue([]) == map[] == Except(members, members.Keys) && Except(members, {}) == members
    ensures MembersSoFar([]) == []
  {
  }

  /** Dumping a value, loading the text and converting it back gives the value, whatever
      order its object members were printed in. */
  method RoundTrip(v: WValue) returns (w: WValue)
    requires WithoutNumbers(v)
    ensures w == v
  {
    hide Print, NoNumbers, Value, ParseDocument, Holds;
    var text, j := DumpInternal(v, []);
    assert [] + Print(j) == Print(j);
    DocumentRoundTrip(j);
    var r, buf := Load(text);
    w := ToWValue(buf, r.value, 0, j);
  }
}
