/** Compiling a template: text and tags are told apart, blocks are matched through a stack
    of open positions, and white space around standalone tags is dropped.

    What the tags of a text are is said in module MustacheLex, which blocks they open and close
    in MustacheBlocks, what that makes of the actions in MustacheNesting, and which tags stand
    alone in MustacheStandalone. */
module MustacheParse {
  import opened Options
  import opened MustacheTree
  import opened MustacheActions
  import opened MustacheLex
  import opened MustacheBlocks
  import opened MustacheNesting
  import opened MustacheStandalone

  /** Matched blocks have one name. */
  ghost predicate NamesMatch(body: text, actions: seq<Action>, blocks: seq<nat>)
    requires forall i | 0 <= i < |actions| :: actions[i].start <= |body|
  {
    forall i: nat | i < |actions| && Opens(actions[i]) && i !in blocks ::
      actions[i].pos < |actions| && SameName(body, actions[i], actions[actions[i].pos])
  }

  /** Fragments lie one after the other in the body. */
  predicate InOrder(body: text, fragments: seq<Fragment>, upTo: nat) {
    && upTo <= |body|
    && (forall i | 0 <= i < |fragments| :: fragments[i].first <= fragments[i].second <= upTo)
    && (forall i | 0 < i < |fragments| :: fragments[i - 1].second <= fragments[i].first)
  }

  class Compiler {
    const body: text
    var fragments: seq<Fragment>
    var actions: seq<Action>
    var blockPositions: seq<nat>
    var tagOpen: text
    var tagClose: text
    var current: nat

    function Cursor(): LexState
      reads this
    {
      LexState(current, tagOpen, tagClose)
    }

    ghost predicate Consistent()
      reads this
    {
      StateOk(body, Cursor()) && Parsed() && InOrder(body, fragments, current)
    }

    /** The actions so far are those of the tags so far, matched as far as they are closed. */
    ghost predicate Parsed()
      reads this
    {
      && (forall i | 0 <= i < |actions| :: actions[i].start <= |body|)
      && (forall b | b in blockPositions :: b < |actions|)
      && OpenUpTo(actions, blockPositions, |actions|) && NamesMatch(body, actions, blockPositions)
      && |actions| <= |fragments| && TagsOf(body, fragments[..|actions|], actions)
      && OpenAfter(body, |actions|) == Some(blockPositions)
      && forall i | 0 <= i < |actions| && actions[i].t == Partial :: actions[i].pos == 0
    }

    /** Between two tags there is an action for every fragment. */
    ghost predicate Between()
      reads this
    {
      Consistent() && |fragments| == |actions| && StateAfter(body, |actions|) == Some(Cursor())
    }

    /** Within a tag its action is still to come. */
    ghost predicate WithinTag(token: Lexed)
      reads this
    {
      Consistent() && |fragments| == |actions| + 1 && NthToken(body, |actions|) == Some(token)
    }

    /** Everything about the tag is read but its action is not added yet. */
    ghost predicate Pending(start: nat, end: int, t: ActionType)
      reads this
    {
      start <= |body| && |fragments| == |actions| + 1
      && WithinTag(Token(fragments[|actions|], Action(start, end, 0, t), Cursor()))
    }

    constructor (text: text)
      ensures body == text && Between() && fragments == [] && blockPositions == [] && current == 0
    {
      body := text;
      fragments, actions, blockPositions, current := [], [], [], 0;
      tagOpen, tagClose := ['{', '{'], ['}', '}'];
    }

    /** The spaces inside a tag are skipped from both sides. */
    method Trim(idx: nat, endIdx: nat) returns (start: nat, end: nat)
      requires 0 < idx <= endIdx < |body| && body[idx - 1] != ' ' && body[endIdx] != ' '
      ensures start == AfterSpaces(body, idx) <= endIdx && idx <= end == BeforeSpaces(body, endIdx)
    {
      start, end := idx, endIdx;
      while body[start] == ' '
        invariant idx <= start <= endIdx && AfterSpaces(body, idx) == AfterSpaces(body, start)
        decreases endIdx - start
      {
        start := start + 1;
      }
      while body[end - 1] == ' '
        invariant idx <= end <= endIdx && BeforeSpaces(body, endIdx) == BeforeSpaces(body, end)
        decreases end
      {
        end := end - 1;
      }
    }

    /** The action of a tag that opens or closes nothing. */
    method PushSimple(start: nat, end: int, t: ActionType)
      requires Pending(start, end, t) && t != OpenBlock && t != ElseBlock && t != CloseBlock
      modifies `actions
      ensures Between()
    {
      hide OpenUpTo, NamesMatch, InOrder, TagsOf, NthToken, StateAfter, OpenAfter, Closes;
      var action := Action(start, end, 0, t);
      OneTagOn(body, |actions|, blockPositions);
      AddSimple(actions, blockPositions, action);
      NamesGrow(body, actions, blockPositions, blockPositions, action);
      TagAdded(body, fragments, actions, action);
      actions := actions + [action];
    }

    method PushOpener(start: nat, end: int, t: ActionType)
      requires Pending(start, end, t) && (t == OpenBlock || t == ElseBlock)
      modifies `actions, `blockPositions
      ensures Between()
    {
      hide OpenUpTo, NamesMatch, InOrder, TagsOf, NthToken, StateAfter, OpenAfter, Closes;
      var action := Action(start, end, 0, t);
      OneTagOn(body, |actions|, blockPositions);
      AddOpener(actions, blockPositions, action);
      NamesGrow(body, actions, blockPositions, blockPositions + [|actions|], action);
      TagAdded(body, fragments, actions, action);
      blockPositions := blockPositions + [|actions|];
      actions := actions + [action];
    }

    /** A closer; its name must be that of the innermost open block. */
    method PushCloser(start: nat, end: int) returns (problem: Problem)
      requires Pending(start, end, CloseBlock)
      modifies `actions, `blockPositions
      ensures problem == Fine ==> Between()
      ensures problem == NoOpenBlock <==> old(blockPositions) == []
      ensures problem == NotMatchedPair
              <==> old(blockPositions) != [] && !Closes(body, Action(start, end, 0, CloseBlock), old(blockPositions))
      ensures problem != Fine ==>
                && actions == old(actions) && blockPositions == old(blockPositions)
                && ProblemAt(body, |actions|, blockPositions) == problem
      ensures problem in {Fine, NoOpenBlock, NotMatchedPair}
    {
      hide OpenUpTo, NamesMatch, Substr, InOrder, TagsOf, NthToken, StateAfter, OpenAfter;
      OneTagOn(body, |actions|, blockPositions);
      if blockPositions == [] { return NoOpenBlock; }
      var b := blockPositions[|blockPositions| - 1];
      assert b in blockPositions;
      TagOfAction(body, fragments[..|actions|], actions, b);
      var matched := actions[b];
      if Substr(body, start, end - start) != Substr(body, matched.start, matched.end - matched.start) {
        return NotMatchedPair;
      }
      var close := Action(start, end, b, CloseBlock);
      AddCloser(actions, blockPositions, close);
      CloserNames(body, actions, blockPositions, close);
      TagsIgnorePos(body, fragments[..|actions|], actions, b, |actions|);
      ghost var before := actions;
      actions := actions[b := matched.(pos := |actions|)];
      TagAdded(body, fragments, actions, close);
      actions := actions + [close];
      assert forall i | 0 <= i < |actions| :: actions[i].start <= |body|;
      blockPositions := blockPositions[..|blockPositions| - 1];
      BlocksDistinct(actions, blockPositions, |actions|);
      problem := Fine;
    }

    // ---------- tags ----------

    /** The new delimiters of a tag between '=' signs. */
    method ChangeDelimiters(from: nat, endIdx: nat) returns (ok: bool)
      requires 1 < from <= endIdx < |body|
      requires body[from - 1] == '=' && body[from - 2] != ' ' && body[endIdx] != ' '
      modifies `tagOpen, `tagClose
      ensures match NewDelimiters(body, from, endIdx)
              case None => !ok
              case Some((open, close)) => ok && tagOpen == open && tagClose == close
    {
      var idx, last := from, endIdx - 1;
      if body[last] != '=' { return false; }
      last := last - 1;
      while body[idx] == ' '
        invariant from <= idx <= endIdx && AfterSpaces(body, from) == AfterSpaces(body, idx)
        decreases endIdx - idx
      {
        idx := idx + 1;
      }
      while body[last] == ' '
        invariant from - 2 <= last < endIdx && 0 <= last
        invariant BeforeSpaces(body, endIdx - 1) == BeforeSpaces(body, last + 1)
        decreases last
      {
        last := last - 1;
      }
      last := last + 1;
      ok := FindDelimiters(idx, last);
    }

    /** The texts before and after the first spaces. */
    method FindDelimiters(idx: nat, last: nat) returns (ok: bool)
      requires 0 < last <= |body| && idx <= |body| && body[last - 1] != ' '
      requires idx < |body| ==> body[idx] != ' '
      modifies `tagOpen, `tagClose
      ensures var sp := NextSpace(body, idx, last);
              if idx >= last || sp == last then !ok
              else
                var j := AfterSpaces(body, sp);
                if idx == sp || j >= last || ' ' in body[j..last] then !ok
                else ok && tagOpen == body[idx..sp] && tagClose == body[j..last]
    {
      var i := idx;
      while i < last
        invariant idx <= i && (idx < last ==> i <= last && NextSpace(body, idx, last) == NextSpace(body, i, last))
        decreases last - i
      {
        if body[i] == ' ' {
          var open, sp := body[idx..i], i;
          while body[i] == ' '
            invariant sp <= i < last && AfterSpaces(body, sp) == AfterSpaces(body, i)
            decreases last - i
          {
            i := i + 1;
          }
          var close := body[i..last];
          if open == [] || close == [] || ' ' in close { return false; }
          tagOpen, tagClose := open, close;
          return true;
        }
        i := i + 1;
      }
      ok := false;
    }

    /** A tag in three braces. */
    method ParseTriple(idx: nat, endIdx: nat, ghost st: LexState) returns (problem: Problem)
      requires 0 < idx < endIdx && StateOk(body, st) && st.open == tagOpen && st.close == tagClose
      requires current == endIdx + |tagClose| <= |body| && |fragments| > 0
      requires WithinTag(LexTag(body, fragments[|fragments| - 1], idx, endIdx, st))
      requires body[idx - 1] != ' ' && body[endIdx] != ' '
      requires body[idx] == '{'
      modifies `actions, `current
      ensures problem == Fine ==> Between() && old(current) <= current
      ensures problem != Fine ==> Parsed() && ProblemAt(body, |actions|, blockPositions) == problem
    {
      hide OpenUpTo, NamesMatch, InOrder, TagsOf, NthToken, StateAfter, AfterSpaces, BeforeSpaces, NewDelimiters;
      hide Substr, Closes, OpenAfter;
      if tagOpen != ['{', '{'] || tagClose != ['}', '}'] { return TripleMustache; }
      if CharAt(body, endIdx + 2) != '}' { return TripleMustache; }
      var start, end := Trim(idx + 1, endIdx);
      LaterCurrent(body, fragments, current, current + 1);
      current := current + 1;
      PushSimple(start, end, UnescapeTag);
      problem := Fine;
    }

    /** A tag that sets new delimiters. */
    method ParseDelimiters(idx: nat, endIdx: nat, ghost st: LexState) returns (problem: Problem)
      requires 0 < idx < endIdx && StateOk(body, st) && st.open == tagOpen && st.close == tagClose
      requires current == endIdx + |tagClose| <= |body| && |fragments| > 0
      requires WithinTag(LexTag(body, fragments[|fragments| - 1], idx, endIdx, st))
      requires body[idx - 1] != ' ' && body[endIdx] != ' '
      requires body[idx] == '='
      modifies `actions, `tagOpen, `tagClose
      ensures problem == Fine ==> Between() && old(current) <= current
      ensures problem != Fine ==> Parsed() && ProblemAt(body, |actions|, blockPositions) == problem
    {
      hide OpenUpTo, NamesMatch, InOrder, TagsOf, NthToken, StateAfter, AfterSpaces, BeforeSpaces, NewDelimiters;
      hide Substr, Closes, OpenAfter;
      var ok := ChangeDelimiters(idx + 1, endIdx);
      if !ok { return DelimiterTag; }
      PushSimple(idx + 1, endIdx, Ignore);
      problem := Fine;
    }

    /** One tag, from after its opening delimiter to its closing one. */
    method ParseTag(idx: nat, endIdx: nat, ghost st: LexState) returns (problem: Problem)
      requires 0 < idx < endIdx && StateOk(body, st) && st.open == tagOpen && st.close == tagClose
      requires current == endIdx + |tagClose| <= |body| && |fragments| > 0
      requires WithinTag(LexTag(body, fragments[|fragments| - 1], idx, endIdx, st))
      requires body[idx - 1] != ' ' && body[endIdx] != ' '
      modifies `actions, `blockPositions, `tagOpen, `tagClose, `current
      ensures problem == Fine ==> Between() && old(current) <= current
      ensures problem != Fine ==> Parsed() && ProblemAt(body, |actions|, blockPositions) == problem
    {
      hide OpenUpTo, NamesMatch, InOrder, TagsOf, NthToken, StateAfter, AfterSpaces, BeforeSpaces, NewDelimiters;
      hide Substr, Closes, OpenAfter;
      ghost var token := LexTag(body, fragments[|fragments| - 1], idx, endIdx, st);
      var c := body[idx];
      var start, end;
      if c == '#' || c == '^' {
        start, end := Trim(idx + 1, endIdx);
        PushOpener(start, end, if c == '#' then OpenBlock else ElseBlock);
      } else if c == '/' {
        start, end := Trim(idx + 1, endIdx);
        problem := PushCloser(start, end);
        return;
      } else if c == '!' {
        PushSimple(idx + 1, endIdx, Ignore);
      } else if c == '>' {
        start, end := Trim(idx + 1, endIdx);
        PushSimple(start, end, Partial);
      } else if c == '{' {
        problem := ParseTriple(idx, endIdx, st);
        return;
      } else if c == '&' {
        start, end := Trim(idx + 1, endIdx);
        PushSimple(start, end, UnescapeTag);
      } else if c == '=' {
        problem := ParseDelimiters(idx, endIdx, st);
        return;
      } else {
        start, end := Trim(idx, endIdx);
        PushSimple(start, end, Tag);
      }
      problem := Fine;
    }

    /** Text and tags to the end of the body, and the closing Ignore action. */
    method ParseBody() returns (problem: Problem)
      requires Between() && fragments == [] && current == 0
      modifies this
      ensures problem == Fine ==>
                && |fragments| == |actions| > 0 && actions[|actions| - 1] == Action(0, 0, 0, Ignore)
                && (forall i | 0 <= i < |actions| :: actions[i].start <= |body|)
                && OpenUpTo(actions, blockPositions, |actions| - 1) && NamesMatch(body, actions, blockPositions)
                && InOrder(body, fragments, |body|)
                && TagsOf(body, fragments[..|actions| - 1], actions[..|actions| - 1])
                && NthToken(body, |actions| - 1) == Some(Stop(fragments[|actions| - 1]))
                && OpenAfter(body, |actions| - 1) == Some(blockPositions)
                && (forall i | 0 <= i < |actions| && actions[i].t == Partial :: actions[i].pos == 0)
      ensures problem != Fine ==> Parsed() && ProblemAt(body, |actions|, blockPositions) == problem
    {
      hide OpenUpTo, NamesMatch, InOrder, TagsOf, StateAfter, LexTag, Find, OpenAfter, Closes;
      while true
        invariant Between()
        decreases |body| - current
      {
        ghost var st := Cursor();
        assert fragments[..|actions|] == fragments;
        var found := Find(body, tagOpen, current);
        FindIs(body, tagOpen, current);
        if found == None {
          FinishBody();
          return Fine;
        }
        var idx := found.value;
        AddFragment(body, fragments, current, idx);
        ghost var before := fragments;
        idx := idx + |tagOpen|;
        var close := Find(body, tagClose, idx);
        FindIs(body, tagClose, idx);
        if close == Some(idx) { return EmptyTag; }
        if close == None { return NotMatchedOpeningTag; }
        fragments := fragments + [Fragment(current, idx - |tagOpen|)];
        assert fragments[..|actions|] == before;
        var endIdx := close.value;
        DelimiterEdges(body, idx, endIdx, tagOpen, tagClose);
        LaterCurrent(body, fragments, idx - |tagOpen|, endIdx + |tagClose|);
        current := endIdx + |tagClose|;
        problem := ParseTag(idx, endIdx, st);
        if problem != Fine { return; }
      }
    }

    method FinishBody()
      requires Between() && Find(body, tagOpen, current) == None
      modifies `fragments, `actions
      ensures |fragments| == |actions| > 0 && actions[|actions| - 1] == Action(0, 0, 0, Ignore)
      ensures forall i | 0 <= i < |actions| :: actions[i].start <= |body|
      ensures OpenUpTo(actions, blockPositions, |actions| - 1) && NamesMatch(body, actions, blockPositions)
      ensures InOrder(body, fragments, |body|)
      ensures TagsOf(body, fragments[..|actions| - 1], actions[..|actions| - 1])
      ensures NthToken(body, |actions| - 1) == Some(Stop(fragments[|actions| - 1]))
      ensures OpenAfter(body, |actions| - 1) == Some(blockPositions)
      ensures forall i | 0 <= i < |actions| && actions[i].t == Partial :: actions[i].pos == 0
    {
      hide OpenUpTo, NamesMatch, InOrder, TagsOf, StateAfter, Find, OpenAfter;
      ghost var before, acts := fragments, actions;
      AddFragment(body, fragments, current, |body|);
      NamesGrow(body, actions, blockPositions, blockPositions, Action(0, 0, 0, Ignore));
      OpenFrame(actions, actions + [Action(0, 0, 0, Ignore)], blockPositions, |actions|);
      fragments := fragments + [Fragment(current, |body|)];
      actions := actions + [Action(0, 0, 0, Ignore)];
      assert fragments[..|actions| - 1] == before == before[..|acts|] && actions[..|actions| - 1] == acts;
    }

    // ---------- standalone tags ----------

    /** Where the spaces before a tag begin, and whether they are all of the fragment. */
    method SpacesBefore(f: Fragment) returns (end: nat, all: bool)
      requires f.first <= f.second <= |body|
      ensures end == SpacesBack(body, f.first, f.second) && (all <==> end == f.first)
    {
      end, all := f.second, true;
      while end > f.first
        invariant f.first <= end <= f.second && SpacesBack(body, f.first, end) == SpacesBack(body, f.first, f.second)
      {
        if body[end - 1] != ' ' {
          all := false;
          break;
        }
        end := end - 1;
      }
    }

    method SpacesAfter(f: Fragment) returns (k: nat, all: bool)
      requires f.first <= f.second <= |body|
      ensures k == SpacesOn(body, f.first, f.second) && (all <==> k == f.second)
    {
      k, all := f.first, true;
      while k < |body| && k < f.second
        invariant f.first <= k <= f.second && SpacesOn(body, k, f.second) == SpacesOn(body, f.first, f.second)
      {
        if body[k] != ' ' {
          all := false;
          break;
        }
        k := k + 1;
      }
    }

    /** The loop over the tags, from the last to the first. */
    method RemoveStandalones()
      requires |fragments| == |actions| > 0 && Ordered(body, fragments)
      modifies `fragments, `actions
      ensures fragments == WithoutLines(body, old(fragments), old(actions))
      ensures actions == Indented(body, old(fragments), old(actions))
    {
      hide WithoutLines, Indented, SpacesBack, SpacesOn, Looked;
      ghost var was, acts := fragments, actions;
      LookBegins(body, was, acts);
      var i := |actions| - 2;
      while i >= 0
        invariant -1 <= i <= |was| - 2 && |fragments| == |was| == |actions|
                  && Looked(body, was, acts, fragments, actions, i + 1)
        decreases i
      {
        LookGoesOn(body, was, acts, fragments, actions, i);
        RemoveStandalone(i);
        i := i - 1;
      }
      LookEnds(body, was, acts, fragments, actions);
    }

    method RemoveStandalone(i: nat)
      requires |fragments| == |actions| && i + 1 < |actions|
      requires fragments[i].first <= fragments[i].second <= |body|
      requires fragments[i + 1].first <= fragments[i + 1].second <= |body|
      modifies `fragments, `actions
      ensures var r := LookedAt(body, old(fragments)[i], old(fragments)[i + 1], old(actions)[i], i == 0,
                                i + 2 == |old(actions)|);
              fragments == old(fragments)[i := r.0][i + 1 := r.1] && actions == old(actions)[i := r.2]
    {
      hide SpacesBack, SpacesOn;
      var before, after := fragments[i], fragments[i + 1];
      assert fragments == fragments[i := before][i + 1 := after] && actions == actions[i := actions[i]];
      if actions[i].t == Tag || actions[i].t == UnescapeTag { return; }
      var isLastAction := i == |actions| - 2;
      var end, allBefore := SpacesBefore(before);
      if allBefore && i > 0 { return; }
      if !allBefore && body[end - 1] != '\n' { return; }
      var k, allAfter := SpacesAfter(after);
      if allAfter && !isLastAction { return; }
      if !allAfter && !(body[k] == '\n' || (body[k] == '\r' && k + 1 < |body| && body[k + 1] == '\n')) { return; }
      if actions[i].t == Partial {
        actions := actions[i := actions[i].(pos := before.second - end)];
      }
      fragments := fragments[i := before.(second := end)];
      if !allAfter {
        k := if body[k] == '\n' then k + 1 else k + 2;
        fragments := fragments[i + 1 := after.(first := k)];
      } else {
        assert fragments == fragments[i + 1 := after];
      }
    }
  }

  /** The cells beside a tag's text belong to delimiters, which have no spaces. */
  lemma DelimiterEdges(body: text, idx: nat, endIdx: nat, open: text, close: text)
    requires Delimiter(open) && Delimiter(close) && |open| <= idx && At(body, idx - |open|, open)
             && At(body, endIdx, close)
    ensures idx <= |body| && endIdx < |body| && idx > 0 && body[idx - 1] != ' ' && body[endIdx] != ' '
  {
    assert body[idx - |open|..idx][|open| - 1] == open[|open| - 1] && open[|open| - 1] in open;
    assert body[endIdx..endIdx + |close|][0] == close[0] && close[0] in close;
  }

  lemma LaterCurrent(body: text, fragments: seq<Fragment>, a: nat, b: nat)
    requires InOrder(body, fragments, a) && a <= b <= |body|
    ensures InOrder(body, fragments, b)
  {
  }

  lemma AddFragment(body: text, fragments: seq<Fragment>, current: nat, idx: nat)
    requires InOrder(body, fragments, current) && current <= idx <= |body|
    ensures InOrder(body, fragments + [Fragment(current, idx)], idx)
  {
    var next := fragments + [Fragment(current, idx)];
    forall i | 0 < i < |next| ensures next[i - 1].second <= next[i].first {
      if i == |fragments| { assert fragments[i - 1].second <= current; }
    }
  }

  lemma FindIs(s: text, pat: text, from: nat)
    ensures match Find(s, pat, from) case None => true case Some(r) => from <= r && At(s, r, pat)
  {
  }

  /** An action that closes nothing leaves the names of matched blocks as they are. */
  lemma NamesGrow(body: text, actions: seq<Action>, blocks: seq<nat>, blocks': seq<nat>, a: Action)
    requires (forall i | 0 <= i < |actions| :: actions[i].start <= |body|) && a.start <= |body|
    requires NamesMatch(body, actions, blocks) && (forall b | b in blocks :: b in blocks')
    requires Opens(a) ==> |actions| in blocks'
    ensures NamesMatch(body, actions + [a], blocks')
  {
    hide Substr;
    var next := actions + [a];
    forall i: nat | i < |next| && Opens(next[i]) && i !in blocks'
      ensures next[i].pos < |next| && SameName(body, next[i], next[next[i].pos])
    {
      assert i < |actions| && next[i] == actions[i];
    }
  }

  lemma TagAdded(body: text, fragments: seq<Fragment>, actions: seq<Action>, a: Action)
    requires |fragments| == |actions| + 1 && TagsOf(body, fragments[..|actions|], actions)
    requires NthToken(body, |actions|).Some? && NthToken(body, |actions|).value.Token?
    requires fragments[|actions|] == NthToken(body, |actions|).value.f
             && a.(pos := 0) == NthToken(body, |actions|).value.a
    ensures TagsOf(body, fragments[..|actions| + 1], actions + [a])
    ensures StateAfter(body, |actions| + 1) == Some(NthToken(body, |actions|).value.state)
  {
    hide NthToken, StateAfter, TagsOf;
    OneMoreTag(body, fragments[..|actions|], actions, fragments[|actions|], a);
    assert fragments[..|actions| + 1] == fragments[..|actions|] + [fragments[|actions|]];
  }

  lemma {:induction false} BlocksDistinct(actions: seq<Action>, blocks: seq<nat>, hi: nat)
    requires hi <= |actions| && OpenUpTo(actions, blocks, hi)
    ensures forall b | b in blocks :: b < hi && Opens(actions[b])
    ensures blocks != [] ==> blocks[|blocks| - 1] !in blocks[..|blocks| - 1]
    decreases |blocks|
  {
    hide Closed;
    if blocks != [] { BlocksDistinct(actions, blocks[..|blocks| - 1], blocks[|blocks| - 1]); }
  }

  lemma CloserNames(body: text, actions: seq<Action>, blocks: seq<nat>, close: Action)
    requires forall i | 0 <= i < |actions| :: actions[i].start <= |body|
    requires close.start <= |body| && close.t == CloseBlock && blocks != [] && blocks[|blocks| - 1] < |actions|
    requires NamesMatch(body, actions, blocks) && SameName(body, actions[blocks[|blocks| - 1]], close)
    ensures var b := blocks[|blocks| - 1];
            NamesMatch(body, actions[b := actions[b].(pos := |actions|)] + [close], blocks[..|blocks| - 1])
  {
    hide Substr;
    var b := blocks[|blocks| - 1];
    var next := actions[b := actions[b].(pos := |actions|)] + [close];
    forall i: nat | i < |next| && Opens(next[i]) && i !in blocks[..|blocks| - 1]
      ensures next[i].pos < |next| && SameName(body, next[i], next[next[i].pos])
    {
      if i != b {
        assert i !in blocks;
        assert next[i] == actions[i];
      }
    }
  }

  /** The fragments and actions of a whole text: its tags in order, and what is after the last. */
  ghost predicate TextOf(s: text, fragments: seq<Fragment>, actions: seq<Action>) {
    && |fragments| == |actions| > 0 && actions[|actions| - 1].t == Ignore
    && TagsOf(s, fragments[..|actions| - 1], actions[..|actions| - 1])
    && NthToken(s, |actions| - 1) == Some(Stop(fragments[|actions| - 1]))
  }

  lemma TextFrame(s: text, fragments: seq<Fragment>, a: seq<Action>, b: seq<Action>)
    requires TextOf(s, fragments, a) && |a| == |b| && forall i | 0 <= i < |a| :: b[i] == a[i].(pos := b[i].pos)
    ensures TextOf(s, fragments, b)
  {
    hide NthToken;
    forall n: nat | n < |b| - 1 ensures b[n].(pos := 0) == a[n].(pos := 0) {
      assert b[n] == a[n].(pos := b[n].pos);
    }
    assert forall n: nat | n < |b| - 1 :: b[..|b| - 1][n] == b[n] && a[..|a| - 1][n] == a[n];
  }

  /** A template from its text. It is refused exactly if one of its tags is. There are as many
      fragments as actions; when no block is left open, every opener's pos names the properly
      nested closer of the same name. */
  method Compile(source: text)
    returns (problem: Problem, t: Template, ghost whole: seq<Fragment>, ghost unclosed: seq<nat>)
    ensures t.body == source
    ensures problem != Fine <==> exists p :: RefusedText(source, p)
    ensures problem != Fine ==> RefusedText(source, problem)
    ensures problem == Fine ==>
              && t.InRange() && TextOf(source, whole, t.actions)
              && Ordered(source, whole) && t.fragments == WithoutLines(source, whole, t.actions)
              && Insets(source, whole, t.actions)
              && EndsAt(source, |t.actions| - 1) && OpenAfter(source, |t.actions| - 1) == Some(unclosed)
              && OpenUpTo(t.actions, unclosed, |t.actions| - 1) && NamesMatch(source, t.actions, unclosed)
    ensures problem == Fine && unclosed == [] ==> Closed(t.actions, 0, |t.actions| - 1)
  {
    hide OpenUpTo, NamesMatch, InOrder, TagsOf, NthToken, WithoutLines, Indented, OpenAfter, ProblemAt, Insets;
    var c := new Compiler(source);
    problem := c.ParseBody();
    unclosed, whole := c.blockPositions, c.fragments;
    t := Template(source, c.fragments, c.actions);
    if problem != Fine {
      assert OpenAfter(source, |c.actions|).Some?;
      assert RefusedText(source, problem);
      return;
    }
    InOrderBounds(source, c.fragments);
    ghost var parsed := c.actions;
    c.RemoveStandalones();
    Sizes(source, whole, parsed);
    Sizes(source, whole, c.actions);
    SameKinds(source, whole, parsed, c.actions);
    IndentedInsets(source, whole, parsed);
    FragmentsInside(source, whole, c.actions);
    OpenFrame(parsed, c.actions, unclosed, |parsed| - 1);
    TextFrame(source, whole, parsed, c.actions);
    NamesFrame(source, parsed, c.actions, unclosed);
    if unclosed == [] { NothingOpen(c.actions, |parsed| - 1); }
    NoRefusal(source, |parsed| - 1);
    t := Template(source, c.fragments, c.actions);
  }

  lemma NoRefusal(s: text, n: nat)
    requires EndsAt(s, n)
    ensures forall p :: !RefusedText(s, p)
  {
    hide EndsAt, RefusedText;
    forall p ensures !RefusedText(s, p) { NotRefused(s, n, p); }
  }

  lemma InOrderBounds(body: text, fragments: seq<Fragment>)
    requires InOrder(body, fragments, |body|)
    ensures Ordered(body, fragments)
  {
  }

  lemma FragmentsInside(body: text, fragments: seq<Fragment>, actions: seq<Action>)
    requires Ordered(body, fragments) && |fragments| == |actions|
    ensures var r := WithoutLines(body, fragments, actions);
            forall i | 0 <= i < |fragments| :: r[i].first <= |body| && r[i].second <= |body|
  {
    var r := WithoutLines(body, fragments, actions);
    forall i | 0 <= i < |fragments| ensures r[i].first <= |body| && r[i].second <= |body| {
      OnlyWhiteDropped(body, fragments, actions, i);
    }
  }

  lemma NothingOpen(actions: seq<Action>, hi: nat)
    requires hi <= |actions| && OpenUpTo(actions, [], hi)
    ensures Closed(actions, 0, hi)
  {
  }

  lemma NamesFrame(body: text, a: seq<Action>, b: seq<Action>, blocks: seq<nat>)
    requires |a| == |b| && SameActions(a, b, 0, |a|)
    requires forall i | 0 <= i < |a| :: a[i].start <= |body| && b[i] == a[i].(pos := b[i].pos)
    requires NamesMatch(body, a, blocks)
    ensures NamesMatch(body, b, blocks)
  {
    hide Substr;
    forall i: nat | i < |b| && Opens(b[i]) && i !in blocks
      ensures b[i].pos < |b| && SameName(body, b[i], b[b[i].pos])
    {
      assert b[i].pos == a[i].pos && SameName(body, a[i], a[a[i].pos]);
    }
  }
}
