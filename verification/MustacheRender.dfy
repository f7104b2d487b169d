/** Rendering a template: a loop over the actions with jumps and an explicit context stack,
    against the section tree; and from a text to its output. */
module MustacheRender {
  import opened Options
  import opened JsonDump
  import opened MustacheTree
  import opened MustacheActions
  import opened MustacheLex
  import opened MustacheBlocks
  import opened MustacheNesting
  import opened MustacheStandalone
  import opened MustacheParse
  import opened MustacheText

  // ---------- find_context ----------

  /** The parts of a name, by the positions of its dots. */
  method SplitName(name: text) returns (names: seq<text>)
    ensures names == Split(name)
  {
    hide Split, FirstDot;
    names := [];
    var from: nat := 0;
    var dot := FirstDot(name, 0);
    assert name[0..] == name;
    while dot < |name|
      invariant from <= |name| && dot == FirstDot(name, from)
      invariant Split(name) == names + Split(name[from..])
      decreases |name| - from
    {
      SplitAt(name, from);
      OneMore(names, name[from..dot], Split(name[dot + 1..]));
      names := names + [name[from..dot]];
      from := dot + 1;
      dot := FirstDot(name, from);
    }
    SplitAt(name, from);
    names := names + [name[from..]];
  }

  lemma OneMore(names: seq<text>, n: text, more: seq<text>)
    ensures names + ([n] + more) == names + [n] + more
  {
  }

  lemma SplitAt(name: text, from: nat)
    requires from <= |name|
    ensures var dot := FirstDot(name, from);
            Split(name[from..]) == if dot == |name| then [name[from..]] else [name[from..dot]] + Split(name[dot + 1..])
  {
    hide FirstDot;
    DotAfter(name, from, 0);
    var dot, rest := FirstDot(name, from), name[from..];
    if dot < |name| {
      assert rest[..dot - from] == name[from..dot] && rest[dot - from + 1..] == name[dot + 1..];
    }
  }

  /** The first dot of a rest. */
  lemma {:induction false} DotAfter(name: text, from: nat, k: nat)
    requires from + k <= |name|
    ensures FirstDot(name[from..], k) == FirstDot(name, from + k) - from
    decreases |name| - k
  {
    if from + k < |name| && name[from + k] != '.' { DotAfter(name, from, k + 1); }
  }

  method FollowNames(v: WValue, names: seq<text>) returns (found: bool, view: WValue)
    ensures Follow(v, names) == if found then Some(view) else None
  {
    view := v;
    assert names[0..] == names;
    for j := 0 to |names|
      invariant Follow(v, names) == Follow(view, names[j..])
    {
      assert names[j..][1..] == names[j + 1..];
      if view.WObject? && names[j] in view.members {
        view := view.members[names[j]];
      } else {
        return false, view;
      }
    }
    found := true;
  }

  /** A context by name; an empty string stands for one that is not found. */
  method FindContext(name: text, stack: seq<WValue>) returns (found: bool, ctx: WValue)
    requires stack != []
    ensures Lookup(name, stack) == if found then Some(ctx) else None
    ensures !found ==> ctx == WString([])
  {
    if name == ['.'] { return true, stack[|stack| - 1]; }
    if FirstDot(name, 0) == |name| {
      var i := |stack|;
      assert stack[..|stack|] == stack;
      while i > 0
        invariant 0 <= i <= |stack| && Innermost([name], stack) == Innermost([name], stack[..i])
      {
        i := i - 1;
        assert stack[..i + 1][..i] == stack[..i];
        FollowOne(stack[i], name);
        if stack[i].WObject? && name in stack[i].members { return true, stack[i].members[name]; }
      }
    } else {
      var names := SplitName(name);
      var i := |stack|;
      assert stack[..|stack|] == stack;
      while i > 0
        invariant 0 <= i <= |stack| && Innermost(names, stack) == Innermost(names, stack[..i])
      {
        i := i - 1;
        assert stack[..i + 1][..i] == stack[..i];
        found, ctx := FollowNames(stack[i], names);
        if found { return; }
      }
    }
    assert stack[..0] == [];
    found, ctx := false, WString([]);
  }

  lemma FollowOne(v: WValue, name: text)
    ensures Follow(v, [name]) == if v.WObject? && name in v.members then Some(v.members[name]) else None
  {
    assert [name][1..] == [];
  }

  // ---------- load ----------

  /** What the texts that a loader gives are as templates. */
  ghost function FilesOf(loader: text -> text): text -> Source {
    name => SourceOf(loader(name))
  }

  /** `compile`; false where it throws. A text that leaves a section open is compiled as well. */
  method CompileText(source: text) returns (ok: bool, t: Template)
    ensures ok <==> SourceOf(source) != NoTemplate
    ensures ok ==> t.InRange()
    ensures SourceOf(source).Tree? ==>
              Closed(t.actions, 0, |t.actions| - 1) && TreeOf(t, 0, |t.actions| - 1) == SourceOf(source).pieces
  {
    hide EndsAt, RefusedText, OpenAfter, SourceOf, TextOf, Closed, TreeOf, TextTree, OpenUpTo, NamesMatch, WithoutLines;
    hide Insets;
    var problem;
    ghost var whole, unclosed;
    problem, t, whole, unclosed := Compile(source);
    ok := problem == Fine;
    if ok {
      SourceOfText(source, |t.actions| - 1);
      if unclosed == [] { CompiledTree(source, t, whole); }
    } else {
      SourceRefused(source, problem);
    }
  }

  // ---------- render_internal ----------

  class Rendering {
    const loader: text -> text
    var stack: seq<WValue>
    var out: text

    constructor (loader: text -> text, context: WValue)
      ensures this.loader == loader && stack == [context] && out == []
    {
      this.loader := loader;
      stack := [context];
      out := [];
    }

    ghost function Setting(indent: nat, depth: nat): Env {
      Env(indent, depth, FilesOf(loader))
    }

    method RenderFragment(t: Template, i: nat, indent: nat)
      requires t.InRange() && i < |t.fragments|
      modifies `out
      ensures out == old(out) + t.FragmentText(i, indent)
    {
      hide Substr, IndentLines;
      var fragment := t.fragments[i];
      if indent == 0 {
        out := out + Substr(t.body, fragment.first, fragment.second - fragment.first);
        return;
      }
      assert out + [] == out;
      if fragment.first <= fragment.second { IndentFragment(t.body, fragment.first, fragment.second, indent); }
    }

    method IndentFragment(body: text, first: nat, second: nat, indent: nat)
      requires first <= second <= |body|
      modifies `out
      ensures out == old(out) + IndentLines(body[first..second], second == |body|, indent)
    {
      hide IndentLines;
      IndentNothing(indent);
      assert out + [] == out && body[first..first] == [];
      for i := first to second
        invariant out == old(out) + IndentLines(body[first..i], i == |body|, indent)
      {
        IndentOneMore(body, first, i, indent);
        ghost var before := IndentLines(body[first..i], false, indent);
        out := out + [body[i]];
        assert out == old(out) + (before + [body[i]]);
        if body[i] == '\n' && i + 1 != |body| {
          out := out + Spaces(indent);
          assert out == old(out) + (before + [body[i]] + Spaces(indent));
        } else {
          assert before + [body[i]] + [] == before + [body[i]];
        }
      }
    }

    method Escape(s: text)
      modifies `out
      ensures out == old(out) + EscapeHtml(s)
    {
      assert old(out) + [] == old(out) && s[..0] == [];
      for i := 0 to |s|
        invariant out == old(out) + EscapeHtml(s[..i])
      {
        assert s[..i + 1][..i] == s[..i] && s[..i + 1][i] == s[i];
        assert old(out) + EscapeHtml(s[..i]) + EscapeHtmlChar(s[i])
               == old(out) + (EscapeHtml(s[..i]) + EscapeHtmlChar(s[i]));
        out := out + EscapeHtmlChar(s[i]);
      }
      assert s[..|s|] == s;
    }

    /** A variable, or nothing; false where the code throws. */
    method RenderTag(t: Template, i: nat, ghost env: Env) returns (ok: bool)
      requires t.InRange() && i < |t.actions| && Simple(t.actions[i]) && t.actions[i].t != Partial && stack != []
      modifies `out
      ensures match ActionText(t, i, stack, env)
              case Thrown => !ok
              case Text(s) => ok && out == old(out) + s
              case Stuck => false
    {
      hide Lookup, Substr, EscapeHtml, RenderTree, ActionText;
      TagText(t, i, stack, env);
      ok := true;
      if t.actions[i].t == Ignore {
        assert out + [] == out;
        return;
      }
      var found, ctx := FindContext(t.TagName(i), stack);
      match ctx {
        case WNumber(d) => out := out + d;
        case WString(s) =>
          EscapeNothing();
          if t.actions[i].t == Tag { Escape(s); } else { out := out + s; }
        case _ => ok := false;
      }
    }

    /** Another template, compiled when it is reached and rendered in the same contexts. */
    method RenderPartial(t: Template, i: nat, indent: nat, ghost depth: nat) returns (ok: bool)
      requires t.InRange() && i < |t.actions| && t.actions[i].t == Partial && stack != []
      requires ActionText(t, i, stack, Setting(indent, depth)) != Stuck
      modifies this
      ensures match ActionText(t, i, old(stack), Setting(indent, depth))
              case Thrown => !ok
              case Text(s) => ok && out == old(out) + s && stack == old(stack)
              case Stuck => false
      decreases depth, 0, 0
    {
      hide Substr, RenderTree, ActionText, Closed, TreeOf, SourceOf;
      PartialText(t, i, stack, Setting(indent, depth));
      var partial;
      ok, partial := CompileText(loader(t.TagName(i)));
      if !ok { return; }
      var inner := if t.actions[i].pos > 0 then indent + t.actions[i].pos else 0;
      ok := RenderInternal(partial, 0, |partial.fragments| - 1, inner, depth - 1);
    }

    /** The actions from one position to another and the fragment after them. The output is
        the indentation and that of the section tree, and the stack is as it was. */
    method RenderInternal(t: Template, actionBegin: nat, actionEnd: nat, indent: nat, ghost depth: nat)
      returns (ok: bool)
      requires t.InRange() && actionEnd < |t.actions| && Closed(t.actions, actionBegin, actionEnd) && stack != []
      requires Output(t, actionBegin, actionEnd, stack, Setting(indent, depth)) != Stuck
      modifies this
      ensures match Join(Text(Spaces(indent)), Output(t, actionBegin, actionEnd, old(stack), Setting(indent, depth)))
              case Thrown => !ok
              case Text(s) => ok && out == old(out) + s && stack == old(stack)
              case Stuck => false
      decreases depth, actionEnd - actionBegin, 1
    {
      hide Output, Closed, Rest, Nested, Join, BlockOutput, ActionText, Template.FragmentText;
      ghost var env, stack0, end := Setting(indent, depth), stack, actionEnd;
      out := out + Spaces(indent);
      ghost var out0 := out;
      ghost var opens: seq<nat> := [];
      ghost var all := Join(Text(out), Output(t, actionBegin, end, stack, env));
      var current := actionBegin;
      StartNested(t, current, end, stack, env);
      NotStuck(out, Output(t, actionBegin, end, stack, env));
      while current < actionEnd
        invariant Nested(t, current, opens, end) && actionBegin <= current <= end
        invariant |stack| == |stack0| + |opens| && stack[..|stack0|] == stack0
        invariant Join(Text(out), Rest(t, current, opens, end, stack, env)) == all
        decreases end - current
      {
        NestedInner(t, current, opens, end);
        var a := t.actions[current];
        AtCurrent(t, current, opens, end);
        ghost var before := out;
        RenderFragment(t, current, indent);
        if Simple(a) {
          RestSimple(t, current, opens, end, stack, env);
          ghost var rest := Rest(t, current + 1, opens, end, stack, env);
          ghost var mine, here := ActionText(t, current, stack, env), out;
          PutText(before, t.FragmentText(current, indent), Join(mine, rest));
          FirstNotStuck(here, mine, rest);
          if a.t == Partial {
            ok := RenderPartial(t, current, indent, depth);
          } else {
            ok := RenderTag(t, current, env);
          }
          if !ok {
            NoText(here, rest);
            Failed(old(out), Spaces(indent), Output(t, actionBegin, end, stack0, env));
            return;
          }
          PutText(here, mine.s, rest);
        } else if a.t == CloseBlock {
          RestClose(t, opens, end, stack, env);
          PutText(before, t.FragmentText(current, indent),
                  Rest(t, current + 1, opens[..|opens| - 1], end, stack[..|stack| - 1], env));
          stack := stack[..|stack| - 1];
          opens := opens[..|opens| - 1];
        } else {
          RestBlock(t, current, opens, end, stack, env);
          ghost var rest := Rest(t, a.pos + 1, opens, end, stack, env);
          ghost var mine, here := BlockOutput(t, current, stack, env), out;
          PutText(before, t.FragmentText(current, indent), Join(mine, rest));
          FirstNotStuck(here, mine, rest);
          var enter, context;
          ok, enter, context := EnterBlock(t, current, indent, depth);
          if !ok {
            NoText(here, rest);
            Failed(old(out), Spaces(indent), Output(t, actionBegin, end, stack0, env));
            return;
          }
          if enter {
            RestEnter(t, current, opens, end, stack, context, env);
            stack := stack + [context];
            opens := opens + [a.pos];
          } else {
            PutText(here, mine.s, rest);
            current := a.pos;
          }
        }
        current := current + 1;
      }
      LastFragment(t, opens, end, stack, env);
      ghost var before := out;
      RenderFragment(t, actionEnd, indent);
      ok := true;
      assert stack[..|stack0|] == stack;
      Whole(out0, Output(t, actionBegin, end, stack0, env), before, t.FragmentText(end, indent));
      Finished(old(out), Spaces(indent), Output(t, actionBegin, end, stack0, env), out);
    }

    /** A section: a list is rendered item by item; any other value is entered or skipped. */
    method EnterBlock(t: Template, current: nat, indent: nat, ghost depth: nat)
      returns (ok: bool, enter: bool, context: WValue)
      requires t.InRange() && current < |t.actions| && Opens(t.actions[current]) && stack != []
      requires current < t.actions[current].pos < |t.actions| && Closed(t.actions, current + 1, t.actions[current].pos)
      requires BlockOutput(t, current, stack, Setting(indent, depth)) != Stuck
      modifies this
      ensures ok ==> stack == old(stack)
      ensures var a, env := t.actions[current], Setting(indent, depth);
              if enter then
                && ok && out == old(out)
                && BlockOutput(t, current, old(stack), env)
                   == Output(t, current + 1, a.pos, old(stack) + [context], env)
              else
                match BlockOutput(t, current, old(stack), env)
                case Thrown => !ok
                case Text(s) => ok && out == old(out) + s
                case Stuck => false
      decreases depth, t.actions[current].pos - current, 0
    {
      hide Closed, Output, Lookup, Substr, EachOutput;
      var a := t.actions[current];
      ghost var env := Setting(indent, depth);
      ok, enter, context := true, false, WNull;
      assert out + [] == out;
      EachNothing(t, current + 1, a.pos, stack, env);
      var found, ctx := FindContext(t.TagName(current), stack);
      if a.t == ElseBlock {
        enter := !found || (ctx.WList? && ctx.items == []) || ctx == WFalse || ctx == WNull;
        if enter { BlockOnce(t, current, WNull, stack, env); }
      } else if found {
        match ctx {
          case WList(items) => ok := EachItem(t, current + 1, a.pos, items, indent, depth);
          case WFalse =>
          case WNull =>
          case _ =>
            enter, context := true, ctx;
            BlockOnce(t, current, ctx, stack, env);
        }
      }
    }

    /** The body of a section in each item of a list. */
    method EachItem(t: Template, bodyBegin: nat, bodyEnd: nat, items: seq<WValue>, indent: nat, ghost depth: nat)
      returns (ok: bool)
      requires t.InRange() && bodyEnd < |t.actions| && Closed(t.actions, bodyBegin, bodyEnd) && stack != []
      requires EachOutput(t, bodyBegin, bodyEnd, Spaces(indent), items, stack, Setting(indent, depth)) != Stuck
      modifies this
      ensures ok ==> stack == old(stack)
      ensures match EachOutput(t, bodyBegin, bodyEnd, Spaces(indent), items, old(stack), Setting(indent, depth))
              case Thrown => !ok
              case Text(s) => ok && out == old(out) + s
              case Stuck => false
      decreases depth, bodyEnd - bodyBegin, 2
    {
      hide Closed, Output, Join, EachOutput, Spaces;
      ghost var env, lead, stack0, out0 := Setting(indent, depth), Spaces(indent), stack, out;
      ghost var all := Join(Text(out), EachOutput(t, bodyBegin, bodyEnd, lead, items, stack, env));
      assert items[0..] == items;
      NotStuck(out, EachOutput(t, bodyBegin, bodyEnd, lead, items, stack, env));
      for i := 0 to |items|
        invariant stack == stack0
        invariant Join(Text(out), EachOutput(t, bodyBegin, bodyEnd, lead, items[i..], stack0, env)) == all
      {
        EachUnfold(t, bodyBegin, bodyEnd, lead, items[i..], stack0, env);
        assert items[i..][1..] == items[i + 1..];
        ghost var rest, before := EachOutput(t, bodyBegin, bodyEnd, lead, items[i + 1..], stack0, env), out;
        stack := stack + [items[i]];
        ghost var mine := Output(t, bodyBegin, bodyEnd, stack, env);
        FirstNotStuck(before, Join(Text(lead), mine), rest);
        LaterNotStuck(lead, mine);
        ok := RenderInternal(t, bodyBegin, bodyEnd, indent, depth);
        if !ok {
          NoText(before, rest);
          Thrown0(out0, EachOutput(t, bodyBegin, bodyEnd, lead, items, stack0, env));
          return;
        }
        PutText(before, Join(Text(lead), mine).s, rest);
        stack := stack[..|stack| - 1];
      }
      EachUnfold(t, bodyBegin, bodyEnd, lead, [], stack0, env);
      assert items[|items|..] == [];
      ok := true;
      assert out + [] == out;
      Whole(out0, EachOutput(t, bodyBegin, bodyEnd, lead, items, stack0, env), out, []);
    }
  }

  // ---------- render ----------

  /** `render`: the whole template in one context. */
  method Render(loader: text -> text, t: Template, ctx: WValue, ghost depth: nat) returns (ok: bool, ret: text)
    requires t.InRange() && Closed(t.actions, 0, |t.actions| - 1)
    requires RenderTree(TreeOf(t, 0, |t.actions| - 1), [ctx], Env(0, depth, FilesOf(loader))) != Stuck
    ensures match RenderTree(TreeOf(t, 0, |t.actions| - 1), [ctx], Env(0, depth, FilesOf(loader)))
            case Thrown => !ok
            case Text(s) => ok && ret == s
            case Stuck => false
  {
    hide RenderTree, TreeOf, Closed, FilesOf;
    var r := new Rendering(loader, ctx);
    ok := r.RenderInternal(t, 0, |t.fragments| - 1, 0, depth);
    ret := r.out;
    JoinNothing(Output(t, 0, |t.actions| - 1, [ctx], Env(0, depth, FilesOf(loader))));
    assert Spaces(0) == [];
    assert ok ==> ret == [] + Output(t, 0, |t.actions| - 1, [ctx], Env(0, depth, FilesOf(loader))).s;
  }

  /** The output of a text in one context. */
  ghost function Rendition(loader: text -> text, source: text, ctx: WValue, depth: nat): Outcome {
    match SourceOf(source)
    case NoTemplate => Thrown
    case LeftOpen => Stuck
    case Tree(pieces) => RenderTree(pieces, [ctx], Env(0, depth, FilesOf(loader)))
  }

  /** `compile` and `render`, one after the other. */
  method RenderText(loader: text -> text, source: text, ctx: WValue, ghost depth: nat) returns (ok: bool, ret: text)
    requires Rendition(loader, source, ctx, depth) != Stuck
    ensures match Rendition(loader, source, ctx, depth)
            case Thrown => !ok
            case Text(s) => ok && ret == s
            case Stuck => false
  {
    hide SourceOf, Closed, TreeOf, RenderTree, FilesOf;
    var t;
    ret := [];
    ok, t := CompileText(source);
    if ok { ok, ret := Render(loader, t, ctx, depth); }
  }

  /** How deep one looks makes no difference to what is put out. */
  lemma OneRendition(loader: text -> text, source: text, ctx: WValue, depth: nat, more: nat)
    requires Rendition(loader, source, ctx, depth) != Stuck && depth <= more
    ensures Rendition(loader, source, ctx, more) == Rendition(loader, source, ctx, depth)
  {
    hide SourceOf, RenderTree, FilesOf;
    if SourceOf(source).Tree? {
      DeepEnough(SourceOf(source).pieces, [ctx], Env(0, depth, FilesOf(loader)), more);
    }
  }

  // ---------- steps ----------

  lemma StartNested(t: Template, begin: nat, end: nat, stack: seq<WValue>, env: Env)
    requires t.InRange() && end < |t.actions| && Closed(t.actions, begin, end) && stack != []
    ensures begin <= end && Nested(t, begin, [], end)
    ensures Rest(t, begin, [], end, stack, env) == Output(t, begin, end, stack, env)
  {
    hide Output;
  }

  lemma EscapeNothing()
    ensures EscapeHtml([]) == []
  {
  }

  lemma IndentNothing(indent: nat)
    ensures forall last :: IndentLines([], last, indent) == []
  {
  }

  lemma IndentOneMore(body: text, first: nat, i: nat, indent: nat)
    requires first <= i < |body|
    ensures IndentLines(body[first..i + 1], i + 1 == |body|, indent)
            == IndentLines(body[first..i], false, indent) + [body[i]]
               + (if body[i] == '\n' && i + 1 != |body| then Spaces(indent) else [])
  {
    assert body[first..i + 1][..i - first] == body[first..i];
  }

  lemma TagText(t: Template, i: nat, stack: seq<WValue>, env: Env)
    requires t.InRange() && i < |t.actions| && Simple(t.actions[i]) && t.actions[i].t != Partial && stack != []
    ensures ActionText(t, i, stack, env)
            == if t.actions[i].t == Ignore then Text([])
               else VariableText(t.TagName(i), t.actions[i].t == UnescapeTag, stack)
  {
    hide VariableText, Template.TagName;
    if t.actions[i].t != Ignore {
      OnePiece(Variable(t.TagName(i), t.actions[i].t == UnescapeTag), stack, env);
    }
  }

  lemma PartialText(t: Template, i: nat, stack: seq<WValue>, env: Env)
    requires t.InRange() && i < |t.actions| && t.actions[i].t == Partial && stack != []
    ensures env.depth == 0 ==> ActionText(t, i, stack, env) == Stuck
    ensures env.depth > 0 ==>
              ActionText(t, i, stack, env)
              == match env.files(t.TagName(i))
                 case NoTemplate => Thrown
                 case LeftOpen => Stuck
                 case Tree(pieces) =>
                   var inner := Inserted(env, t.actions[i].pos);
                   Join(Text(Spaces(inner.indent)), RenderTree(pieces, stack, inner))
  {
    hide RenderTree, Template.TagName, Join;
    OnePiece(Insert(t.TagName(i), t.actions[i].pos), stack, env);
  }

  /** What kinds of action the current one can be. */
  lemma AtCurrent(t: Template, current: nat, opens: seq<nat>, end: nat)
    requires t.InRange() && end < |t.actions| && Nested(t, current, opens, end) && current < end
    ensures var a := t.actions[current];
            && (Simple(a) || Opens(a) ==> current < Inner(opens, end))
            && (a.t == CloseBlock ==> opens != [] && current == Inner(opens, end))
  {
    NestedInner(t, current, opens, end);
  }

  lemma LastFragment(t: Template, opens: seq<nat>, end: nat, stack: seq<WValue>, env: Env)
    requires t.InRange() && end < |t.actions| && Nested(t, end, opens, end) && |stack| > |opens|
    ensures opens == [] && Rest(t, end, opens, end, stack, env) == Text(t.FragmentText(end, env.indent))
  {
    hide Closed, Output;
    NestedInner(t, end, opens, end);
    OutputEnd(t, end, stack, env);
  }

  lemma EachUnfold(t: Template, lo: nat, hi: nat, lead: text, contexts: seq<WValue>, stack: seq<WValue>, env: Env)
    requires t.InRange() && hi < |t.actions| && Closed(t.actions, lo, hi)
    ensures EachOutput(t, lo, hi, lead, contexts, stack, env)
            == if contexts == [] then Text([])
               else Join(Join(Text(lead), Output(t, lo, hi, stack + [contexts[0]], env)),
                         EachOutput(t, lo, hi, lead, contexts[1..], stack, env))
  {
    hide Closed, Output, Join;
  }

  lemma EachNothing(t: Template, lo: nat, hi: nat, stack: seq<WValue>, env: Env)
    requires t.InRange() && hi < |t.actions| && Closed(t.actions, lo, hi)
    ensures forall lead :: EachOutput(t, lo, hi, lead, [], stack, env) == Text([])
  {
    hide Closed, Output, Join;
  }

  // ---------- joining outputs ----------

  lemma PutText(out: text, s: text, rest: Outcome)
    ensures Join(Text(out), Join(Text(s), rest)) == Join(Text(out + s), rest)
  {
    if rest.Text? { assert out + (s + rest.s) == out + s + rest.s; }
  }

  lemma NoText(out: text, rest: Outcome)
    ensures Join(Text(out), Join(Thrown, rest)) == Thrown
  {
  }

  lemma NotStuck(out: text, rest: Outcome)
    requires rest != Stuck
    ensures Join(Text(out), rest) != Stuck
  {
  }

  lemma LaterNotStuck(out: text, rest: Outcome)
    requires Join(Text(out), rest) != Stuck
    ensures rest != Stuck
  {
  }

  lemma FirstNotStuck(out: text, mine: Outcome, rest: Outcome)
    requires Join(Text(out), Join(mine, rest)) != Stuck
    ensures mine != Stuck
  {
  }

  lemma Failed(out: text, lead: text, output: Outcome)
    requires Join(Text(out + lead), output) == Thrown
    ensures Join(Text(lead), output) == Thrown
  {
  }

  lemma Finished(out0: text, lead: text, output: Outcome, out: text)
    requires output.Text? && out0 + lead + output.s == out
    ensures Join(Text(lead), output) == Text(lead + output.s) && out0 + (lead + output.s) == out
  {
  }

  lemma Thrown0(out: text, output: Outcome)
    requires Join(Text(out), output) == Thrown
    ensures output == Thrown
  {
  }

  lemma Whole(out0: text, output: Outcome, out: text, s: text)
    requires Join(Text(out0), output) == Join(Text(out), Text(s))
    ensures output.Text? && out0 + output.s == out + s
  {
  }
}
