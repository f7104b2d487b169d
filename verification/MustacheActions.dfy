/** Compiled templates: fragments, actions with jump targets, and the section tree they stand for. */
module MustacheActions {
  import opened JsonDump
  import opened MustacheTree

  datatype ActionType = Ignore | Tag | UnescapeTag | OpenBlock | CloseBlock | ElseBlock | Partial

  datatype Action = Action(start: nat, end: int, pos: nat, t: ActionType)

  datatype Fragment = Fragment(first: nat, second: nat)

  /** `substr`: to the end of the text when the length is negative or too long. */
  function Substr(s: text, start: nat, len: int): (r: text)
    requires start <= |s|
  {
    if len < 0 || start + len > |s| then s[start..] else s[start..start + len]
  }

  datatype Template = Template(body: text, fragments: seq<Fragment>, actions: seq<Action>) {
    /** Positions lie in the body; there are as many actions as fragments. */
    predicate InRange() {
      && |fragments| == |actions| > 0
      && (forall i | 0 <= i < |actions| :: actions[i].start <= |body|)
      && (forall i | 0 <= i < |fragments| :: fragments[i].first <= |body| && fragments[i].second <= |body|)
    }

    function TagName(i: nat): text
      requires InRange() && i < |actions|
    {
      Substr(body, actions[i].start, actions[i].end - actions[i].start)
    }

    /** What a fragment puts out: a piece of the body, with lines indented if any are. */
    function FragmentText(i: nat, indent: nat): text
      requires InRange() && i < |fragments|
    {
      var f := fragments[i];
      if indent == 0 then Substr(body, f.first, f.second - f.first)
      else if f.first > f.second then []
      else IndentLines(body[f.first..f.second], f.second == |body|, indent)
    }

    function FragmentPiece(i: nat): Piece
      requires InRange() && i < |fragments|
    {
      var f := fragments[i];
      if f.first <= f.second then Plain(body[f.first..f.second], f.second == |body|) else Overrun(body[f.first..])
    }
  }

  predicate Opens(a: Action) {
    a.t == OpenBlock || a.t == ElseBlock
  }

  predicate Simple(a: Action) {
    !Opens(a) && a.t != CloseBlock
  }

  /** The actions from lo to hi are simple ones and blocks that close before hi, each opener's
      pos naming the closer of its block. */
  ghost predicate Closed(actions: seq<Action>, lo: nat, hi: nat)
    requires hi <= |actions|
    decreases hi - lo
  {
    lo == hi || (lo < hi && (
      || (Simple(actions[lo]) && Closed(actions, lo + 1, hi))
      || (Opens(actions[lo]) && BlockAt(actions, lo, hi)
          && Closed(actions, lo + 1, actions[lo].pos) && Closed(actions, actions[lo].pos + 1, hi))))
  }

  predicate BlockAt(actions: seq<Action>, lo: nat, hi: nat)
    requires lo < hi <= |actions|
  {
    lo < actions[lo].pos < hi && actions[actions[lo].pos].t == CloseBlock
  }

  /** What an action that is not a block stands for. */
  function ActionPieces(t: Template, i: nat): seq<Piece>
    requires t.InRange() && i < |t.actions| && Simple(t.actions[i])
  {
    match t.actions[i].t
    case Ignore => []
    case Partial => [Insert(t.TagName(i), t.actions[i].pos)]
    case k => [Variable(t.TagName(i), k == UnescapeTag)]
  }

  /** The section tree of the actions from lo to hi, with the fragments around them. */
  ghost function TreeOf(t: Template, lo: nat, hi: nat): seq<Piece>
    requires t.InRange() && hi < |t.actions| && Closed(t.actions, lo, hi)
    decreases hi - lo
  {
    if lo == hi then [t.FragmentPiece(hi)]
    else
      var a := t.actions[lo];
      [t.FragmentPiece(lo)]
      + (if Simple(a) then ActionPieces(t, lo) + TreeOf(t, lo + 1, hi)
         else
           [Section(t.TagName(lo), a.t == ElseBlock, TreeOf(t, lo + 1, a.pos))] + TreeOf(t, a.pos + 1, hi))
  }

  /** The output of a stretch. */
  ghost function Output(t: Template, lo: nat, hi: nat, stack: seq<WValue>, env: Env): Outcome
    requires t.InRange() && hi < |t.actions| && Closed(t.actions, lo, hi) && stack != []
  {
    RenderTree(TreeOf(t, lo, hi), stack, env)
  }

  lemma OnePiece(p: Piece, stack: seq<WValue>, env: Env)
    requires stack != []
    ensures RenderTree([p], stack, env) == RenderPiece(p, stack, env)
  {
    hide RenderPiece;
    assert [p][1..] == [];
    JoinNothing(RenderPiece(p, stack, env));
  }

  lemma FragmentRendered(t: Template, i: nat, stack: seq<WValue>, env: Env)
    requires t.InRange() && i < |t.fragments| && stack != []
    ensures RenderTree([t.FragmentPiece(i)], stack, env) == Text(t.FragmentText(i, env.indent))
  {
    hide RenderTree, IndentLines;
    OnePiece(t.FragmentPiece(i), stack, env);
    var f := t.fragments[i];
    if f.first <= f.second && env.indent == 0 { NoIndent(t.body[f.first..f.second], f.second == |t.body|); }
  }

  lemma OutputEnd(t: Template, hi: nat, stack: seq<WValue>, env: Env)
    requires t.InRange() && hi < |t.actions| && stack != []
    ensures Closed(t.actions, hi, hi) && Output(t, hi, hi, stack, env) == Text(t.FragmentText(hi, env.indent))
  {
    hide RenderTree, Template.FragmentPiece, Template.FragmentText;
    FragmentRendered(t, hi, stack, env);
  }

  /** What an action that is not a block puts out. */
  function ActionText(t: Template, i: nat, stack: seq<WValue>, env: Env): Outcome
    requires t.InRange() && i < |t.actions| && Simple(t.actions[i]) && stack != []
  {
    RenderTree(ActionPieces(t, i), stack, env)
  }

  lemma OutputSimple(t: Template, lo: nat, hi: nat, stack: seq<WValue>, env: Env)
    requires t.InRange() && lo < hi < |t.actions| && Closed(t.actions, lo, hi) && stack != [] && Simple(t.actions[lo])
    ensures Closed(t.actions, lo + 1, hi)
    ensures Output(t, lo, hi, stack, env)
            == Join(Text(t.FragmentText(lo, env.indent)),
                    Join(ActionText(t, lo, stack, env), Output(t, lo + 1, hi, stack, env)))
  {
    hide RenderTree, ActionPieces, Join, Template.FragmentPiece, Template.FragmentText;
    var first, mine, more := t.FragmentPiece(lo), ActionPieces(t, lo), TreeOf(t, lo + 1, hi);
    RenderAppend([first], mine + more, stack, env);
    RenderAppend(mine, more, stack, env);
    FragmentRendered(t, lo, stack, env);
  }

  /** What a block puts out: its body once for each of its contexts. */
  ghost function EachOutput(t: Template, lo: nat, hi: nat, lead: text, contexts: seq<WValue>, stack: seq<WValue>,
                            env: Env): Outcome
    requires t.InRange() && hi < |t.actions| && Closed(t.actions, lo, hi)
    decreases |contexts|
  {
    if contexts == [] then Text([])
    else Join(Join(Text(lead), Output(t, lo, hi, stack + [contexts[0]], env)),
              EachOutput(t, lo, hi, lead, contexts[1..], stack, env))
  }

  lemma {:induction false} EachIsEach(t: Template, lo: nat, hi: nat, section: Piece, lead: text, contexts: seq<WValue>,
                                      stack: seq<WValue>, env: Env)
    requires t.InRange() && hi < |t.actions| && Closed(t.actions, lo, hi)
    requires section.Section? && section.body == TreeOf(t, lo, hi)
    ensures RenderEach(section, lead, contexts, stack, env) == EachOutput(t, lo, hi, lead, contexts, stack, env)
    decreases |contexts|
  {
    hide RenderTree, TreeOf, Join, Closed;
    if contexts != [] { EachIsEach(t, lo, hi, section, lead, contexts[1..], stack, env); }
  }

  /** What the block at a position puts out. */
  ghost function BlockOutput(t: Template, i: nat, stack: seq<WValue>, env: Env): Outcome
    requires t.InRange() && i < |t.actions| && Opens(t.actions[i]) && stack != []
    requires t.actions[i].pos < |t.actions| && Closed(t.actions, i + 1, t.actions[i].pos)
  {
    var name, inverted := t.TagName(i), t.actions[i].t == ElseBlock;
    EachOutput(t, i + 1, t.actions[i].pos, SectionLead(name, inverted, stack, env.indent),
               SectionContexts(name, inverted, stack), stack, env)
  }

  lemma OutputBlock(t: Template, lo: nat, hi: nat, stack: seq<WValue>, env: Env)
    requires t.InRange() && lo < hi < |t.actions| && Closed(t.actions, lo, hi) && stack != [] && Opens(t.actions[lo])
    ensures var pos := t.actions[lo].pos;
            && lo < pos < hi && t.actions[pos].t == CloseBlock
            && Closed(t.actions, lo + 1, pos) && Closed(t.actions, pos + 1, hi)
            && Output(t, lo, hi, stack, env)
               == Join(Text(t.FragmentText(lo, env.indent)),
                       Join(BlockOutput(t, lo, stack, env), Output(t, pos + 1, hi, stack, env)))
  {
    hide RenderTree, Join, Lookup, Substr, RenderEach, EachOutput, SectionContexts, SectionLead;
    hide Template.FragmentPiece, Template.FragmentText;
    var a := t.actions[lo];
    var first := t.FragmentPiece(lo);
    var section := Section(t.TagName(lo), a.t == ElseBlock, TreeOf(t, lo + 1, a.pos));
    var more := TreeOf(t, a.pos + 1, hi);
    RenderAppend([first], [section] + more, stack, env);
    RenderAppend([section], more, stack, env);
    FragmentRendered(t, lo, stack, env);
    OnePiece(section, stack, env);
    EachIsEach(t, lo + 1, a.pos, section, SectionLead(section.name, section.inverted, stack, env.indent),
               SectionContexts(section.name, section.inverted, stack), stack, env);
  }

  // ---------- inside open blocks ----------

  /** The current action is inside the blocks whose closers are listed, the innermost last. */
  ghost predicate Nested(t: Template, current: nat, opens: seq<nat>, end: nat)
    requires t.InRange() && end < |t.actions|
    decreases |opens|
  {
    if opens == [] then current <= end && Closed(t.actions, current, end)
    else
      var c := opens[|opens| - 1];
      && current <= c < end && t.actions[c].t == CloseBlock && Closed(t.actions, current, c)
      && Nested(t, c + 1, opens[..|opens| - 1], end)
  }

  /** Where the innermost open block ends. */
  function Inner(opens: seq<nat>, end: nat): nat {
    if opens == [] then end else opens[|opens| - 1]
  }

  lemma NestedInner(t: Template, current: nat, opens: seq<nat>, end: nat)
    requires t.InRange() && end < |t.actions| && Nested(t, current, opens, end)
    ensures current <= Inner(opens, end) <= end && Closed(t.actions, current, Inner(opens, end))
    ensures opens != [] ==> Inner(opens, end) < end && t.actions[Inner(opens, end)].t == CloseBlock
  {
    hide Closed;
  }

  /** The output still to come: the innermost block with its context, then what is around it. */
  ghost function Rest(t: Template, current: nat, opens: seq<nat>, end: nat, stack: seq<WValue>, env: Env): Outcome
    requires t.InRange() && end < |t.actions| && Nested(t, current, opens, end) && |stack| > |opens|
    decreases |opens|
  {
    if opens == [] then Output(t, current, end, stack, env)
    else
      var c := opens[|opens| - 1];
      Join(Output(t, current, c, stack, env), Rest(t, c + 1, opens[..|opens| - 1], end, stack[..|stack| - 1], env))
  }

  lemma RestSimple(t: Template, current: nat, opens: seq<nat>, end: nat, stack: seq<WValue>, env: Env)
    requires t.InRange() && end < |t.actions| && Nested(t, current, opens, end) && |stack| > |opens|
    requires current < Inner(opens, end) && Simple(t.actions[current])
    ensures Nested(t, current + 1, opens, end)
    ensures Rest(t, current, opens, end, stack, env)
            == Join(Text(t.FragmentText(current, env.indent)),
                    Join(ActionText(t, current, stack, env), Rest(t, current + 1, opens, end, stack, env)))
  {
    hide Closed, Output, Join, ActionText;
    OutputSimple(t, current, Inner(opens, end), stack, env);
    if opens != [] {
      var f, x, o := Text(t.FragmentText(current, env.indent)), ActionText(t, current, stack, env),
          Output(t, current + 1, Inner(opens, end), stack, env);
      var r := Rest(t, Inner(opens, end) + 1, opens[..|opens| - 1], end, stack[..|stack| - 1], env);
      JoinAssociates(f, Join(x, o), r);
      JoinAssociates(x, o, r);
    }
  }

  /** At the closer of the innermost block. */
  lemma RestClose(t: Template, opens: seq<nat>, end: nat, stack: seq<WValue>, env: Env)
    requires t.InRange() && end < |t.actions| && opens != [] && |stack| > |opens|
    requires Nested(t, Inner(opens, end), opens, end)
    ensures var c := Inner(opens, end);
            && Nested(t, c + 1, opens[..|opens| - 1], end)
            && Rest(t, c, opens, end, stack, env)
               == Join(Text(t.FragmentText(c, env.indent)),
                       Rest(t, c + 1, opens[..|opens| - 1], end, stack[..|stack| - 1], env))
  {
    hide Closed, Output, Join;
    OutputEnd(t, Inner(opens, end), stack, env);
  }

  lemma RestBlock(t: Template, current: nat, opens: seq<nat>, end: nat, stack: seq<WValue>, env: Env)
    requires t.InRange() && end < |t.actions| && Nested(t, current, opens, end) && |stack| > |opens|
    requires current < Inner(opens, end) && Opens(t.actions[current])
    ensures var pos := t.actions[current].pos;
            && current < pos < end && t.actions[pos].t == CloseBlock
            && Closed(t.actions, current + 1, pos) && Nested(t, pos + 1, opens, end)
            && Rest(t, current, opens, end, stack, env)
               == Join(Text(t.FragmentText(current, env.indent)),
                       Join(BlockOutput(t, current, stack, env), Rest(t, pos + 1, opens, end, stack, env)))
  {
    hide Closed, Output, Join, BlockOutput;
    NestedInner(t, current, opens, end);
    OutputBlock(t, current, Inner(opens, end), stack, env);
    if opens != [] {
      var pos := t.actions[current].pos;
      var f, x := Text(t.FragmentText(current, env.indent)), BlockOutput(t, current, stack, env);
      var o := Output(t, pos + 1, Inner(opens, end), stack, env);
      var r := Rest(t, Inner(opens, end) + 1, opens[..|opens| - 1], end, stack[..|stack| - 1], env);
      JoinAssociates(f, Join(x, o), r);
      JoinAssociates(x, o, r);
    }
  }

  /** Going into a block that is rendered once: its body comes first, then the rest. */
  lemma RestEnter(t: Template, current: nat, opens: seq<nat>, end: nat, stack: seq<WValue>, context: WValue, env: Env)
    requires t.InRange() && end < |t.actions| && Nested(t, current, opens, end) && |stack| > |opens|
    requires current < Inner(opens, end) && Opens(t.actions[current])
    ensures var pos := t.actions[current].pos;
            && current < pos < end && Closed(t.actions, current + 1, pos) && Nested(t, pos + 1, opens, end)
            && Nested(t, current + 1, opens + [pos], end)
            && Rest(t, current + 1, opens + [pos], end, stack + [context], env)
               == Join(Output(t, current + 1, pos, stack + [context], env), Rest(t, pos + 1, opens, end, stack, env))
  {
    hide Closed, Output, Join, BlockOutput;
    RestBlock(t, current, opens, end, stack, env);
    var pos := t.actions[current].pos;
    assert (opens + [pos])[..|opens|] == opens && (stack + [context])[..|stack|] == stack;
  }

  /** A block with one context and nothing before it is rendered once. */
  lemma BlockOnce(t: Template, i: nat, context: WValue, stack: seq<WValue>, env: Env)
    requires t.InRange() && i < |t.actions| && Opens(t.actions[i]) && stack != []
    requires t.actions[i].pos < |t.actions| && Closed(t.actions, i + 1, t.actions[i].pos)
    requires var name, inverted := t.TagName(i), t.actions[i].t == ElseBlock;
             SectionContexts(name, inverted, stack) == [context] && SectionLead(name, inverted, stack, env.indent) == []
    ensures BlockOutput(t, i, stack, env) == Output(t, i + 1, t.actions[i].pos, stack + [context], env)
  {
    hide Closed, Output, EachOutput, SectionContexts, SectionLead;
    EachOnce(t, i + 1, t.actions[i].pos, context, stack, env);
  }

  lemma EachOnce(t: Template, lo: nat, hi: nat, context: WValue, stack: seq<WValue>, env: Env)
    requires t.InRange() && hi < |t.actions| && Closed(t.actions, lo, hi)
    ensures EachOutput(t, lo, hi, [], [context], stack, env) == Output(t, lo, hi, stack + [context], env)
  {
    hide Closed, Output, Join;
    var body := Output(t, lo, hi, stack + [context], env);
    assert [context][1..] == [] && [context][0] == context;
    assert EachOutput(t, lo, hi, [], [], stack, env) == Text([]);
    JoinNothing(body);
  }
}
