/** The section tree of a text: what recursive descent over its tags finds, which is what the
    compiled actions with their jump targets mean. */
module MustacheText {
  import opened Options
  import opened MustacheTree
  import opened MustacheActions
  import opened MustacheLex
  import opened MustacheBlocks
  import opened MustacheStandalone
  import opened MustacheParse

  /** The tree of the tags from i on, up to a closer that opens nothing here or to the end, and
      where that is. Jump targets are not used. */
  function Descend(t: Template, i: nat): (r: (seq<Piece>, nat))
    requires t.InRange() && i < |t.actions|
    ensures i <= r.1 < |t.actions| && (r.1 == |t.actions| - 1 || t.actions[r.1].t == CloseBlock)
    decreases |t.actions| - i
  {
    var plain, a := [t.FragmentPiece(i)], t.actions[i];
    if i == |t.actions| - 1 || a.t == CloseBlock then (plain, i)
    else
      var (pieces, j) := Descend(t, i + 1);
      if Simple(a) then
        (plain + (ActionPieces(t, i) + pieces), j)
      else if j == |t.actions| - 1 then (plain, j)
      else
        var (more, k) := Descend(t, j + 1);
        (plain + ([Section(t.TagName(i), a.t == ElseBlock, pieces)] + more), k)
  }

  lemma TreeUnfold(t: Template, lo: nat, hi: nat)
    requires t.InRange() && hi < |t.actions| && Closed(t.actions, lo, hi)
    ensures var plain, a := [t.FragmentPiece(lo)], t.actions[lo];
            TreeOf(t, lo, hi)
            == if lo == hi then plain
               else if Simple(a) then
                 plain + (ActionPieces(t, lo) + TreeOf(t, lo + 1, hi))
               else
                 plain + ([Section(t.TagName(lo), a.t == ElseBlock, TreeOf(t, lo + 1, a.pos))]
                          + TreeOf(t, a.pos + 1, hi))
  {
    hide Template.TagName, Template.FragmentPiece, ActionPieces;
  }

  /** Where jump targets match openers with closers, descent finds the same tree. */
  lemma {:induction false} DescendIsTree(t: Template, lo: nat, hi: nat)
    requires t.InRange() && hi < |t.actions| && Closed(t.actions, lo, hi)
    requires hi == |t.actions| - 1 || t.actions[hi].t == CloseBlock
    ensures Descend(t, lo) == (TreeOf(t, lo, hi), hi)
    decreases hi - lo
  {
    hide Descend, TreeOf, Template.TagName, Template.FragmentPiece, ActionPieces;
    DescendUnfold(t, lo);
    TreeUnfold(t, lo, hi);
    if lo < hi {
      var a := t.actions[lo];
      if Simple(a) {
        DescendIsTree(t, lo + 1, hi);
      } else {
        DescendIsTree(t, lo + 1, a.pos);
        DescendIsTree(t, a.pos + 1, hi);
      }
    }
  }

  /** The same text, fragments and tags, whatever the jump targets of blocks. */
  predicate SameTags(t: Template, u: Template) {
    && t.body == u.body && t.fragments == u.fragments && |t.actions| == |u.actions|
    && forall i | 0 <= i < |t.actions| - 1 ::
         && u.actions[i] == t.actions[i].(pos := u.actions[i].pos)
         && (t.actions[i].t == Partial ==> u.actions[i].pos == t.actions[i].pos)
  }

  lemma SameAt(t: Template, u: Template, i: nat)
    requires SameTags(t, u) && t.InRange() && u.InRange() && i < |t.actions|
    ensures |t.actions| == |u.actions| && t.FragmentPiece(i) == u.FragmentPiece(i)
    ensures i < |t.actions| - 1 ==> t.actions[i].t == u.actions[i].t && t.TagName(i) == u.TagName(i)
    ensures i < |t.actions| - 1 && Simple(t.actions[i]) ==>
              Simple(u.actions[i]) && ActionPieces(t, i) == ActionPieces(u, i)
    ensures i < |t.actions| - 1 && !Simple(t.actions[i]) ==> !Simple(u.actions[i])
  {
    hide Substr;
    if i < |t.actions| - 1 { assert u.actions[i] == t.actions[i].(pos := u.actions[i].pos); }
  }

  lemma DescendUnfold(t: Template, i: nat)
    requires t.InRange() && i < |t.actions|
    ensures var plain, a := [t.FragmentPiece(i)], t.actions[i];
            Descend(t, i)
            == if i == |t.actions| - 1 || a.t == CloseBlock then (plain, i)
               else
                 var (pieces, j) := Descend(t, i + 1);
                 if Simple(a) then
                   (plain + (ActionPieces(t, i) + pieces), j)
                 else if j == |t.actions| - 1 then (plain, j)
                 else
                   var (more, k) := Descend(t, j + 1);
                   (plain + ([Section(t.TagName(i), a.t == ElseBlock, pieces)] + more), k)
  {
    hide Substr, Simple;
  }

  lemma {:induction false} DescendSame(t: Template, u: Template, i: nat)
    requires SameTags(t, u) && t.InRange() && u.InRange() && i < |t.actions|
    ensures Descend(t, i) == Descend(u, i)
    decreases |t.actions| - i
  {
    hide Descend, Template.TagName, Template.FragmentPiece, ActionPieces, Simple, SameTags, Template.InRange;
    SameAt(t, u, i);
    DescendUnfold(t, i);
    DescendUnfold(u, i);
    if i < |t.actions| - 1 {
      DescendSame(t, u, i + 1);
      var j := Descend(t, i + 1).1;
      if j < |t.actions| - 1 { DescendSame(t, u, j + 1); }
    }
  }

  // ---------- the tags of a text ----------

  function FragmentAt(s: text, n: nat, k: nat): (f: Fragment)
    requires EndsAt(s, n) && k <= n
    ensures f.first <= f.second <= |s|
  {
    if k < n then
      TagsBefore(s, n, k);
      LexedInside(s, StateAfter(s, k).value);
      NthToken(s, k).value.f
    else
      LexedInside(s, StateAfter(s, n).value);
      NthToken(s, n).value.rest
  }

  function ActionAt(s: text, n: nat, k: nat): (a: Action)
    requires EndsAt(s, n) && k <= n
    ensures a.start <= |s| && a.pos == 0
  {
    if k < n then
      TagsBefore(s, n, k);
      TagAt(s, k).value
    else Action(0, 0, 0, Ignore)
  }

  function FragmentsOf(s: text, n: nat): (fs: seq<Fragment>)
    requires EndsAt(s, n)
    ensures Ordered(s, fs)
  {
    seq(n + 1, k requires 0 <= k <= n => FragmentAt(s, n, k))
  }

  function ActionsOf(s: text, n: nat): (acts: seq<Action>)
    requires EndsAt(s, n)
    ensures |acts| == n + 1 && forall i | 0 <= i <= n :: acts[i].start <= |s|
  {
    seq(n + 1, k requires 0 <= k <= n => ActionAt(s, n, k))
  }

  /** The text as a template without jump targets: its tags, and the fragments between them
      without the lines of standalone tags. */
  function Untargeted(s: text, n: nat): (t: Template)
    requires EndsAt(s, n)
    ensures t.InRange() && |t.actions| == n + 1
  {
    var fs, acts := FragmentsOf(s, n), ActionsOf(s, n);
    Sizes(s, fs, acts);
    FragmentsInside(s, fs, acts);
    Template(s, WithoutLines(s, fs, acts), Indented(s, fs, acts))
  }

  /** The section tree of a text. */
  function TextTree(s: text, n: nat): seq<Piece>
    requires EndsAt(s, n)
  {
    Descend(Untargeted(s, n), 0).0
  }

  /** What a text is as a template. */
  ghost function SourceOf(s: text): Source {
    if exists n: nat :: EndsAt(s, n) then
      var n: nat :| EndsAt(s, n);
      if OpenAfter(s, n) == Some([]) then Tree(TextTree(s, n)) else LeftOpen
    else NoTemplate
  }

  lemma TextOfIs(s: text, whole: seq<Fragment>, actions: seq<Action>)
    requires TextOf(s, whole, actions) && EndsAt(s, |actions| - 1)
    ensures whole == FragmentsOf(s, |actions| - 1)
    ensures forall k: nat | k < |actions| - 1 :: actions[k].(pos := 0) == ActionAt(s, |actions| - 1, k)
  {
    hide NthToken, OpenAfter;
    var n := |actions| - 1;
    forall k: nat | k < n
      ensures whole[k] == FragmentAt(s, n, k) && actions[k].(pos := 0) == ActionAt(s, n, k)
    {
      assert whole[..n][k] == whole[k] && actions[..n][k] == actions[k];
    }
    assert forall k: nat | k <= n :: whole[k] == FragmentAt(s, n, k);
  }

  /** A compiled template has the tree of its text. */
  lemma CompiledTree(s: text, t: Template, whole: seq<Fragment>)
    requires t.body == s && t.InRange() && TextOf(s, whole, t.actions) && Ordered(s, whole)
    requires t.fragments == WithoutLines(s, whole, t.actions) && Insets(s, whole, t.actions)
    requires EndsAt(s, |t.actions| - 1) && Closed(t.actions, 0, |t.actions| - 1)
    ensures TreeOf(t, 0, |t.actions| - 1) == TextTree(s, |t.actions| - 1)
  {
    hide Closed, Descend, TreeOf, WithoutLines, EndsAt;
    var n := |t.actions| - 1;
    CompiledTags(s, t, whole);
    DescendIsTree(t, 0, n);
    DescendSame(t, Untargeted(s, n), 0);
  }

  lemma CompiledTags(s: text, t: Template, whole: seq<Fragment>)
    requires t.body == s && t.InRange() && TextOf(s, whole, t.actions) && Ordered(s, whole)
    requires t.fragments == WithoutLines(s, whole, t.actions) && Insets(s, whole, t.actions)
    requires EndsAt(s, |t.actions| - 1)
    ensures SameTags(t, Untargeted(s, |t.actions| - 1))
  {
    hide WithoutLines, Indented, EndsAt, Inset, NthToken, TagsOf, ActionAt, FragmentAt;
    var n := |t.actions| - 1;
    var acts := ActionsOf(s, n);
    TextOfIs(s, whole, t.actions);
    Sizes(s, whole, acts);
    IndentedInsets(s, whole, acts);
    var u := Indented(s, whole, acts);
    forall i | 0 <= i <= n ensures t.actions[i].t == acts[i].t == u[i].t {
      assert u[i] == acts[i].(pos := u[i].pos);
      if i < n { assert t.actions[i].(pos := 0) == acts[i]; } else { LastIgnored(s, n); }
    }
    SameKinds(s, whole, t.actions, acts);
    forall i | 0 <= i < n
      ensures u[i] == t.actions[i].(pos := u[i].pos) && (t.actions[i].t == Partial ==> u[i].pos == t.actions[i].pos)
    {
      assert t.actions[i].(pos := 0) == acts[i] && u[i] == acts[i].(pos := u[i].pos);
      SameInset(s, whole, t.actions, u, i);
    }
  }

  lemma LastIgnored(s: text, n: nat)
    requires EndsAt(s, n)
    ensures ActionsOf(s, n)[n].t == Ignore
  {
    hide EndsAt;
  }

  /** What compiling finds out about a text. */
  lemma SourceOfText(s: text, n: nat)
    requires EndsAt(s, n)
    ensures SourceOf(s) == if OpenAfter(s, n) == Some([]) then Tree(TextTree(s, n)) else LeftOpen
  {
    hide EndsAt, OpenAfter, TextTree;
    forall m: nat | EndsAt(s, m) ensures m == n { OneEnd(s, m, n); }
  }

  lemma SourceRefused(s: text, problem: Problem)
    requires RefusedText(s, problem)
    ensures SourceOf(s) == NoTemplate
  {
    hide EndsAt, RefusedText, OpenAfter, TextTree;
    forall n: nat | EndsAt(s, n) ensures false { NotRefused(s, n, problem); }
  }

  lemma OneEnd(s: text, n: nat, m: nat)
    requires EndsAt(s, n) && EndsAt(s, m)
    ensures n == m
  {
    RefusedOrEnds(s, n, m);
  }
}
