/** Where the tags of a template text are, one after the other, and what each one says. */
module MustacheLex {
  import opened Options
  import opened Bytes
  import opened MustacheTree
  import opened MustacheActions

  datatype Problem =
    | Fine | EmptyTag | NotMatchedOpeningTag | NotMatchedPair | NoOpenBlock | TripleMustache | DelimiterTag

  predicate At(s: text, pos: nat, pat: text) {
    pos + |pat| <= |s| && s[pos..pos + |pat|] == pat
  }

  /** `find` */
  function Find(s: text, pat: text, from: nat): (r: Option<nat>)
    ensures r.Some? ==> from <= r.value && At(s, r.value, pat)
    ensures forall k | from <= k < (if r.Some? then r.value else |s| + 1) :: !At(s, k, pat)
    decreases |s| + 1 - from
  {
    if from > |s| then None else if At(s, from, pat) then Some(from) else Find(s, pat, from + 1)
  }

  /** A character of a C++ string, whose end reads as NUL. */
  function CharAt(s: text, i: nat): byte
    requires i <= |s|
  {
    if i < |s| then s[i] else '\0'
  }

  predicate Delimiter(d: text) {
    d != [] && ' ' !in d
  }

  /** The first position from i on that is not a space. */
  function AfterSpaces(s: text, i: nat): (r: nat)
    requires i <= |s|
    ensures i <= r <= |s|
    decreases |s| - i
  {
    if i < |s| && s[i] == ' ' then AfterSpaces(s, i + 1) else i
  }

  /** The end of the text before i without the spaces at its end. */
  function BeforeSpaces(s: text, i: nat): (r: nat)
    requires i <= |s|
    ensures r <= i
  {
    if i > 0 && s[i - 1] == ' ' then BeforeSpaces(s, i - 1) else i
  }

  /** The first space from i on before hi; hi if there is none. */
  function NextSpace(s: text, i: nat, hi: nat): (r: nat)
    requires hi <= |s|
    ensures i < hi ==> i <= r <= hi
    decreases hi - i
  {
    if i >= hi then hi else if s[i] == ' ' then i else NextSpace(s, i + 1, hi)
  }

  /** The delimiters that a tag between '=' signs sets. */
  function NewDelimiters(s: text, from: nat, endIdx: nat): (r: Option<(text, text)>)
    requires 1 < from <= endIdx < |s|
    ensures r.Some? ==> Delimiter(r.value.0) && Delimiter(r.value.1)
  {
    if s[endIdx - 1] != '=' then None
    else
      var i, last := AfterSpaces(s, from), BeforeSpaces(s, endIdx - 1);
      var sp := NextSpace(s, i, last);
      if i >= last || sp == last then None
      else
        var j := AfterSpaces(s, sp);
        NoSpaceBetween(s, i, last);
        if i == sp || j >= last || ' ' in s[j..last] then None else Some((s[i..sp], s[j..last]))
  }

  lemma {:induction false} NoSpaceBetween(s: text, i: nat, hi: nat)
    requires hi <= |s| && i <= hi
    ensures ' ' !in s[i..NextSpace(s, i, hi)]
    decreases hi - i
  {
    if i < hi && s[i] != ' ' {
      NoSpaceBetween(s, i + 1, hi);
      assert s[i..NextSpace(s, i, hi)] == [s[i]] + s[i + 1..NextSpace(s, i, hi)];
    }
  }

  /** What is found from a position on: no tag, a tag that is refused, or a tag with the text
      before it. */
  datatype Lexed =
    | Stop(rest: Fragment) | Wrong(problem: Problem)
    | Token(f: Fragment, a: Action, state: LexState)

  datatype LexState = LexState(current: nat, open: text, close: text)

  predicate StateOk(s: text, st: LexState) {
    st.current <= |s| && Delimiter(st.open) && Delimiter(st.close)
  }

  function KindOf(c: byte): ActionType {
    match c
    case '#' => OpenBlock
    case '^' => ElseBlock
    case '/' => CloseBlock
    case '!' => Ignore
    case '=' => Ignore
    case '>' => Partial
    case '{' => UnescapeTag
    case '&' => UnescapeTag
    case _ => Tag
  }

  predicate Marked(c: byte) {
    c in {'#', '^', '/', '!', '=', '>', '{', '&'}
  }

  /** A tag whose text is from idx to endIdx. */
  function LexTag(s: text, f: Fragment, idx: nat, endIdx: nat, st: LexState): (r: Lexed)
    requires 0 < idx < endIdx && endIdx + |st.close| <= |s| && StateOk(s, st)
    ensures r.Token? ==>
              r.f == f && StateOk(s, r.state) && r.state.current >= endIdx && r.a.start <= |s| && r.a.pos == 0
  {
    var c := s[idx];
    var next := st.(current := endIdx + |st.close|);
    if c == '!' then Token(f, Action(idx + 1, endIdx, 0, Ignore), next)
    else if c == '=' then
      match NewDelimiters(s, idx + 1, endIdx)
      case None => Wrong(DelimiterTag)
      case Some((open, close)) =>
        Token(f, Action(idx + 1, endIdx, 0, Ignore), LexState(next.current, open, close))
    else if c == '{' && (st.open != ['{', '{'] || st.close != ['}', '}'] || CharAt(s, endIdx + 2) != '}') then
      Wrong(TripleMustache)
    else
      var from := if Marked(c) then idx + 1 else idx;
      Token(f, Action(AfterSpaces(s, from), BeforeSpaces(s, endIdx), 0, KindOf(c)),
            if c == '{' then next.(current := next.current + 1) else next)
  }

  function LexOne(s: text, st: LexState): (r: Lexed)
    requires StateOk(s, st)
    ensures r.Token? ==> StateOk(s, r.state) && st.current < r.state.current && r.a.start <= |s| && r.a.pos == 0
  {
    match Find(s, st.open, st.current)
    case None => Stop(Fragment(st.current, |s|))
    case Some(at) =>
      var idx := at + |st.open|;
      match Find(s, st.close, idx)
      case None => Wrong(NotMatchedOpeningTag)
      case Some(endIdx) =>
        if endIdx == idx then Wrong(EmptyTag) else LexTag(s, Fragment(st.current, at), idx, endIdx, st)
  }

  const Start := LexState(0, ['{', '{'], ['}', '}'])

  /** The state after some tags. */
  function StateAfter(s: text, n: nat): (r: Option<LexState>)
    ensures r.Some? ==> StateOk(s, r.value)
  {
    if n == 0 then Some(Start)
    else
      match StateAfter(s, n - 1)
      case None => None
      case Some(st) => if LexOne(s, st).Token? then Some(LexOne(s, st).state) else None
  }

  /** The n-th thing that is found in a text. */
  function NthToken(s: text, n: nat): Option<Lexed> {
    if StateAfter(s, n).Some? then Some(LexOne(s, StateAfter(s, n).value)) else None
  }

  /** The fragments and actions are those of the tags of the text, in order. */
  ghost predicate TagsOf(s: text, fragments: seq<Fragment>, actions: seq<Action>) {
    && |fragments| == |actions|
    && forall n: nat | n < |actions| ::
         NthToken(s, n).Some? && NthToken(s, n).value.Token?
         && fragments[n] == NthToken(s, n).value.f && actions[n].(pos := 0) == NthToken(s, n).value.a
  }

  lemma OneMoreTag(s: text, fragments: seq<Fragment>, actions: seq<Action>, f: Fragment, a: Action)
    requires TagsOf(s, fragments, actions)
    requires NthToken(s, |actions|).Some? && NthToken(s, |actions|).value.Token?
    requires f == NthToken(s, |actions|).value.f && a.(pos := 0) == NthToken(s, |actions|).value.a
    ensures TagsOf(s, fragments + [f], actions + [a])
    ensures StateAfter(s, |actions| + 1) == Some(NthToken(s, |actions|).value.state)
  {
    hide LexOne;
  }

  /** Jump targets are not part of a tag. */
  lemma TagsIgnorePos(s: text, fragments: seq<Fragment>, actions: seq<Action>, b: nat, pos: nat)
    requires TagsOf(s, fragments, actions) && b < |actions|
    ensures TagsOf(s, fragments, actions[b := actions[b].(pos := pos)])
  {
    hide NthToken;
  }

  /** A tag stands right after its fragment: the opening delimiter is there and nowhere
      before in the fragment, and the next tag is looked for after its closing one. */
  lemma TokenIsTag(s: text, st: LexState)
    requires StateOk(s, st) && LexOne(s, st).Token?
    ensures var t := LexOne(s, st);
            && t.f.first == st.current && At(s, t.f.second, st.open)
            && (forall k | t.f.first <= k < t.f.second :: !At(s, k, st.open))
            && exists end: nat :: t.f.second + |st.open| < end && At(s, end, st.close)
                 && t.state.current >= end + |st.close|
                 && (forall k | t.f.second + |st.open| <= k < end :: !At(s, k, st.close))
  {
    hide LexTag;
    var at := Find(s, st.open, st.current).value;
    var end := Find(s, st.close, at + |st.open|).value;
    TagGoesOn(s, Fragment(st.current, at), at + |st.open|, end, st);
    assert At(s, end, st.close);
  }

  lemma TagGoesOn(s: text, f: Fragment, idx: nat, endIdx: nat, st: LexState)
    requires 0 < idx < endIdx && endIdx + |st.close| <= |s| && StateOk(s, st)
    ensures LexTag(s, f, idx, endIdx, st).Token? ==>
              LexTag(s, f, idx, endIdx, st).f == f && LexTag(s, f, idx, endIdx, st).state.current >= endIdx + |st.close|
  {
    hide NewDelimiters, AfterSpaces, BeforeSpaces;
  }

  /** A name has no spaces around it. */
  lemma {:induction false} NameIsTrimmed(s: text, i: nat)
    requires i <= |s|
    ensures AfterSpaces(s, i) < |s| ==> s[AfterSpaces(s, i)] != ' '
    ensures BeforeSpaces(s, i) > 0 ==> s[BeforeSpaces(s, i) - 1] != ' '
    ensures forall k | i <= k < AfterSpaces(s, i) :: s[k] == ' '
    ensures forall k | BeforeSpaces(s, i) <= k < i :: s[k] == ' '
  {
    TrimmedAfter(s, i);
    TrimmedBefore(s, i);
  }

  lemma {:induction false} TrimmedAfter(s: text, i: nat)
    requires i <= |s|
    ensures AfterSpaces(s, i) < |s| ==> s[AfterSpaces(s, i)] != ' '
    ensures forall k | i <= k < AfterSpaces(s, i) :: s[k] == ' '
    decreases |s| - i
  {
    if i < |s| && s[i] == ' ' { TrimmedAfter(s, i + 1); }
  }

  lemma {:induction false} TrimmedBefore(s: text, i: nat)
    requires i <= |s|
    ensures BeforeSpaces(s, i) > 0 ==> s[BeforeSpaces(s, i) - 1] != ' '
    ensures forall k | BeforeSpaces(s, i) <= k < i :: s[k] == ' '
  {
    if i > 0 && s[i - 1] == ' ' { TrimmedBefore(s, i - 1); }
  }
}
