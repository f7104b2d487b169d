/** Parsed values whose strings, keys and numbers are cells of the parser's buffer. */
module JsonCells {
  import opened Bytes
  import opened JsonText
  import opened JsonSyntax
  import opened JsonLoad

  /** One past the last cell of a value that starts at lo or later. */
  function Reach(r: RValue, lo: nat): nat {
    match r
    case RNumber(_, end) => end
    case RString(_, end) => end + 1
    case RList(items) => ReachItems(items, lo)
    case RObject(members) => ReachMembers(members, lo)
    case _ => lo
  }

  function ReachItems(items: seq<RValue>, lo: nat): nat {
    if items == [] then lo else Reach(items[|items| - 1], ReachItems(items[..|items| - 1], lo))
  }

  function ReachMembers(members: seq<RMember>, lo: nat): nat {
    if members == [] then lo
    else
      var m := members[|members| - 1];
      assert m.value < m;
      Reach(m.value, m.keyEnd + 1)
  }

  /** The cells of a value, from lo on and in order, hold what was written. */
  ghost predicate Holds(buf: seq<byte>, lo: nat, r: RValue, v: Json)
    decreases v, 1
  {
    match v
    case JNull => r == RNull
    case JFalse => r == RFalse
    case JTrue => r == RTrue
    case JNumber(d) => r.RNumber? && lo <= r.start <= r.end <= |buf| && buf[r.start..r.end] == d
    case JString(s) =>
      r.RString? && lo < r.start && IsString(buf, r.start, r.end) && buf[r.end] == '\0'
      && StringOf(buf, r.start, r.end) == s
    case JList(vs) => r.RList? && HoldsItems(buf, lo, r.items, vs)
    case JObject(ms) => r.RObject? && HoldsMembers(buf, lo, r.members, ms)
  }

  ghost predicate HoldsItems(buf: seq<byte>, lo: nat, items: seq<RValue>, vs: seq<Json>)
    decreases vs, 0
  {
    && |items| == |vs|
    && (items != [] ==>
          var n := |items| - 1;
          HoldsItems(buf, lo, items[..n], vs[..n]) && Holds(buf, ReachItems(items[..n], lo), items[n], vs[n]))
  }

  ghost predicate HoldsMembers(buf: seq<byte>, lo: nat, members: seq<RMember>, ms: seq<Member>)
    decreases ms, 0
  {
    && |members| == |ms|
    && (members != [] ==>
          var n := |members| - 1;
          && HoldsMembers(buf, lo, members[..n], ms[..n])
          && HoldsMember(buf, ReachMembers(members[..n], lo), members[n], ms[n]))
  }

  ghost predicate HoldsMember(buf: seq<byte>, lo: nat, m: RMember, w: Member)
    decreases w, 1
  {
    && lo <= m.keyStart <= m.keyEnd < |buf| && buf[m.keyStart..m.keyEnd] == w.key
    && Holds(buf, m.keyEnd + 1, m.value, w.value)
  }

  // ---------- cells outside a value do not matter ----------

  lemma {:induction false} ReachGrows(buf: seq<byte>, lo: nat, r: RValue, v: Json)
    requires Holds(buf, lo, r, v)
    ensures lo <= Reach(r, lo)
    decreases v, 1
  {
    hide WellEscaped, StringOf;
    match v
    case JList(vs) => ReachItemsGrows(buf, lo, r.items, vs);
    case JObject(ms) => ReachMembersGrows(buf, lo, r.members, ms);
    case _ =>
  }

  lemma {:induction false} ReachItemsGrows(buf: seq<byte>, lo: nat, items: seq<RValue>, vs: seq<Json>)
    requires HoldsItems(buf, lo, items, vs)
    ensures lo <= ReachItems(items, lo)
    decreases vs, 0
  {
    hide Holds, Reach;
    if items != [] {
      var n := |items| - 1;
      ReachItemsGrows(buf, lo, items[..n], vs[..n]);
      ReachGrows(buf, ReachItems(items[..n], lo), items[n], vs[n]);
    }
  }

  lemma {:induction false} ReachMembersGrows(buf: seq<byte>, lo: nat, members: seq<RMember>, ms: seq<Member>)
    requires HoldsMembers(buf, lo, members, ms)
    ensures lo <= ReachMembers(members, lo)
    decreases ms, 0
  {
    hide Holds, Reach;
    if members != [] {
      var n := |members| - 1;
      ReachMembersGrows(buf, lo, members[..n], ms[..n]);
      ReachGrows(buf, members[n].keyEnd + 1, members[n].value, ms[n].value);
    }
  }

  /** The cells from lo to hi are the same. */
  ghost predicate SameCells(a: seq<byte>, b: seq<byte>, lo: nat, hi: nat) {
    |a| == |b| && forall i | lo <= i < hi && i < |a| :: a[i] == b[i]
  }

  lemma SameSlices(a: seq<byte>, b: seq<byte>, lo: nat, hi: nat, from: nat, to: nat)
    requires SameCells(a, b, lo, hi) && lo <= from <= to <= hi && to <= |a|
    ensures a[from..to] == b[from..to]
  {
  }

  lemma {:induction false} HoldsFrame(a: seq<byte>, b: seq<byte>, lo: nat, hi: nat, r: RValue, v: Json)
    requires Holds(a, lo, r, v) && Reach(r, lo) <= hi && SameCells(a, b, lo, hi)
    ensures Holds(b, lo, r, v)
    decreases v, 1
  {
    match v
    case JNumber(_) => SameSlices(a, b, lo, hi, r.start, r.end);
    case JString(_) => SameSlices(a, b, lo, hi, r.start, r.end);
    case JList(vs) => HoldsItemsFrame(a, b, lo, hi, r.items, vs);
    case JObject(ms) => HoldsMembersFrame(a, b, lo, hi, r.members, ms);
    case _ =>
  }

  lemma {:induction false} HoldsItemsFrame(a: seq<byte>, b: seq<byte>, lo: nat, hi: nat, items: seq<RValue>,
                                           vs: seq<Json>)
    requires HoldsItems(a, lo, items, vs) && ReachItems(items, lo) <= hi && SameCells(a, b, lo, hi)
    ensures HoldsItems(b, lo, items, vs)
    decreases vs, 0
  {
    hide Holds, Reach;
    if items != [] {
      var n := |items| - 1;
      ReachItemsGrows(a, lo, items[..n], vs[..n]);
      ReachGrows(a, ReachItems(items[..n], lo), items[n], vs[n]);
      HoldsItemsFrame(a, b, lo, hi, items[..n], vs[..n]);
      HoldsFrame(a, b, ReachItems(items[..n], lo), hi, items[n], vs[n]);
    }
  }

  lemma {:induction false} HoldsMembersFrame(a: seq<byte>, b: seq<byte>, lo: nat, hi: nat, members: seq<RMember>,
                                             ms: seq<Member>)
    requires HoldsMembers(a, lo, members, ms) && ReachMembers(members, lo) <= hi && SameCells(a, b, lo, hi)
    ensures HoldsMembers(b, lo, members, ms)
    decreases ms, 0
  {
    hide Holds, Reach;
    if members != [] {
      var n := |members| - 1;
      var m := members[n];
      ReachMembersGrows(a, lo, members[..n], ms[..n]);
      ReachGrows(a, m.keyEnd + 1, m.value, ms[n].value);
      HoldsMembersFrame(a, b, lo, hi, members[..n], ms[..n]);
      HoldsFrame(a, b, m.keyEnd + 1, hi, m.value, ms[n].value);
      SameSlices(a, b, lo, hi, m.keyStart, m.keyEnd);
    }
  }

  // ---------- appending ----------

  lemma ItemAppended(buf: seq<byte>, lo: nat, items: seq<RValue>, vs: seq<Json>, r: RValue, v: Json)
    requires HoldsItems(buf, lo, items, vs) && Holds(buf, ReachItems(items, lo), r, v)
    ensures HoldsItems(buf, lo, items + [r], vs + [v])
    ensures ReachItems(items + [r], lo) == Reach(r, ReachItems(items, lo))
  {
    hide Holds, Reach;
    assert (items + [r])[..|items|] == items && (vs + [v])[..|vs|] == vs;
  }

  lemma MemberAppended(buf: seq<byte>, lo: nat, members: seq<RMember>, ms: seq<Member>, r: RMember, m: Member)
    requires HoldsMembers(buf, lo, members, ms) && HoldsMember(buf, ReachMembers(members, lo), r, m)
    ensures HoldsMembers(buf, lo, members + [r], ms + [m])
    ensures ReachMembers(members + [r], lo) == Reach(r.value, r.keyEnd + 1)
  {
    hide HoldsMember, Reach;
    assert (members + [r])[..|members|] == members && (ms + [m])[..|ms|] == ms;
  }

  /** A value that starts later than lo. */
  lemma {:induction false} HoldsLater(buf: seq<byte>, lo: nat, later: nat, r: RValue, v: Json)
    requires lo <= later && Holds(buf, later, r, v)
    ensures Holds(buf, lo, r, v)
    ensures Reach(r, lo) <= Reach(r, later)
    decreases v, 1
  {
    hide IsString, StringOf;
    ReachGrows(buf, later, r, v);
    match v
    case JList(vs) => ItemsLater(buf, lo, later, r.items, vs);
    case JObject(ms) => MembersLater(buf, lo, later, r.members, ms);
    case _ =>
  }

  lemma {:induction false} ItemsLater(buf: seq<byte>, lo: nat, later: nat, items: seq<RValue>, vs: seq<Json>)
    requires lo <= later && HoldsItems(buf, later, items, vs)
    ensures HoldsItems(buf, lo, items, vs)
    ensures ReachItems(items, lo) <= ReachItems(items, later)
    decreases vs, 0
  {
    hide Holds, Reach;
    if items != [] {
      var n := |items| - 1;
      ItemsLater(buf, lo, later, items[..n], vs[..n]);
      HoldsLater(buf, ReachItems(items[..n], lo), ReachItems(items[..n], later), items[n], vs[n]);
    }
  }

  lemma {:induction false} MembersLater(buf: seq<byte>, lo: nat, later: nat, members: seq<RMember>, ms: seq<Member>)
    requires lo <= later && HoldsMembers(buf, later, members, ms)
    ensures HoldsMembers(buf, lo, members, ms)
    ensures ReachMembers(members, lo) <= ReachMembers(members, later)
    decreases ms, 0
  {
    hide Holds, Reach;
    if members != [] {
      var n := |members| - 1;
      MembersLater(buf, lo, later, members[..n], ms[..n]);
    }
  }
}
