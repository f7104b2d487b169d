/** Standalone tags: a tag alone on its line takes the line with it. Which tags stand alone
    and what is dropped is said here of all tags at once; the compiler finds out from the
    last tag to the first, in place. */
module MustacheStandalone {
  import opened MustacheTree
  import opened MustacheActions

  predicate White(s: text, from: nat, to: nat) {
    to <= |s| && forall k | from <= k < to :: s[k] == ' ' || s[k] == '\r' || s[k] == '\n'
  }

  /** What white-space removal may do to a fragment. */
  predicate Trimmed(body: text, was: Fragment, now: Fragment) {
    was.first <= now.first && now.second <= was.second && White(body, was.first, now.first)
    && White(body, now.second, was.second)
  }

  predicate Ordered(body: text, fragments: seq<Fragment>) {
    forall i | 0 <= i < |fragments| :: fragments[i].first <= fragments[i].second <= |body|
  }

  /** Where the spaces before i begin, at `first` or later. */
  function SpacesBack(s: text, first: nat, i: nat): (r: nat)
    requires first <= i <= |s|
    ensures first <= r <= i
  {
    if i > first && s[i - 1] == ' ' then SpacesBack(s, first, i - 1) else i
  }

  /** Where the spaces from i on end, at hi or earlier. */
  function SpacesOn(s: text, i: nat, hi: nat): (r: nat)
    requires i <= hi <= |s|
    ensures i <= r <= hi
    decreases hi - i
  {
    if i < hi && s[i] == ' ' then SpacesOn(s, i + 1, hi) else i
  }

  predicate LineEndAt(s: text, k: nat) {
    k < |s| && (s[k] == '\n' || (s[k] == '\r' && k + 1 < |s| && s[k + 1] == '\n'))
  }

  /** Only spaces lie between the start of a line, or of the text, and the end of the fragment. */
  predicate StartsLine(body: text, f: Fragment, isFirst: bool)
    requires f.first <= f.second <= |body|
  {
    var j := SpacesBack(body, f.first, f.second);
    if j == f.first then isFirst else body[j - 1] == '\n'
  }

  /** Only spaces lie between the start of the fragment and the end of a line, or of the text. */
  predicate EndsLine(body: text, f: Fragment, isLast: bool)
    requires f.first <= f.second <= |body|
  {
    var k := SpacesOn(body, f.first, f.second);
    if k == f.second then isLast else LineEndAt(body, k)
  }

  /** A tag that prints nothing, alone between the two fragments beside it. */
  predicate Standalone(body: text, before: Fragment, after: Fragment, t: ActionType, isFirst: bool, isLast: bool)
    requires before.first <= before.second <= |body| && after.first <= after.second <= |body|
  {
    t != Tag && t != UnescapeTag && StartsLine(body, before, isFirst) && EndsLine(body, after, isLast)
  }

  /** The position after the line end that follows the tag. */
  function PastLine(body: text, f: Fragment): (r: nat)
    requires f.first <= f.second <= |body|
  {
    var k := SpacesOn(body, f.first, f.second);
    if k == f.second then f.first else if body[k] == '\n' then k + 1 else k + 2
  }

  predicate AloneAt(body: text, fragments: seq<Fragment>, actions: seq<Action>, i: nat)
    requires Ordered(body, fragments) && |fragments| == |actions|
  {
    i + 1 < |actions| && Standalone(body, fragments[i], fragments[i + 1], actions[i].t, i == 0, i + 2 == |actions|)
  }

  /** The fragments without the lines of standalone tags. */
  function WithoutLines(body: text, fragments: seq<Fragment>, actions: seq<Action>): (r: seq<Fragment>)
    requires Ordered(body, fragments) && |fragments| == |actions|
  {
    seq(|fragments|, i requires 0 <= i < |fragments| =>
      Fragment(if i > 0 && AloneAt(body, fragments, actions, i - 1) then PastLine(body, fragments[i])
               else fragments[i].first,
               if AloneAt(body, fragments, actions, i) then SpacesBack(body, fragments[i].first, fragments[i].second)
               else fragments[i].second))
  }

  /** The actions with the indentation of standalone partials. */
  function Indented(body: text, fragments: seq<Fragment>, actions: seq<Action>): (r: seq<Action>)
    requires Ordered(body, fragments) && |fragments| == |actions|
  {
    seq(|actions|, i requires 0 <= i < |actions| =>
      if actions[i].t == Partial && AloneAt(body, fragments, actions, i)
      then actions[i].(pos := fragments[i].second - SpacesBack(body, fragments[i].first, fragments[i].second))
      else actions[i])
  }

  /** The indentation of every partial is that of its line if it stands alone, and none otherwise. */
  ghost predicate Insets(body: text, fragments: seq<Fragment>, actions: seq<Action>)
    requires Ordered(body, fragments) && |fragments| == |actions|
  {
    forall i | 0 <= i < |actions| && actions[i].t == Partial :: actions[i].pos == Inset(body, fragments, actions, i)
  }

  function Inset(body: text, fragments: seq<Fragment>, actions: seq<Action>, i: nat): nat
    requires Ordered(body, fragments) && |fragments| == |actions| && i < |actions|
  {
    if AloneAt(body, fragments, actions, i)
    then fragments[i].second - SpacesBack(body, fragments[i].first, fragments[i].second) else 0
  }

  lemma Sizes(body: text, fragments: seq<Fragment>, actions: seq<Action>)
    requires Ordered(body, fragments) && |fragments| == |actions|
    ensures |WithoutLines(body, fragments, actions)| == |fragments| == |Indented(body, fragments, actions)|
    ensures var r := Indented(body, fragments, actions);
            && (forall i | 0 <= i < |r| :: r[i] == actions[i].(pos := r[i].pos))
            && (forall i | 0 <= i < |r| && actions[i].t != Partial :: r[i] == actions[i])
  {
    hide AloneAt, SpacesBack, PastLine;
  }

  lemma {:induction false} BackIsSpaces(s: text, first: nat, i: nat)
    requires first <= i <= |s|
    ensures forall k | SpacesBack(s, first, i) <= k < i :: s[k] == ' '
    ensures SpacesBack(s, first, i) > first ==> s[SpacesBack(s, first, i) - 1] != ' '
    decreases i
  {
    if i > first && s[i - 1] == ' ' { BackIsSpaces(s, first, i - 1); }
  }

  lemma {:induction false} OnIsSpaces(s: text, i: nat, hi: nat)
    requires i <= hi <= |s|
    ensures forall k | i <= k < SpacesOn(s, i, hi) :: s[k] == ' '
    ensures SpacesOn(s, i, hi) < hi ==> s[SpacesOn(s, i, hi)] != ' '
    decreases hi - i
  {
    if i < hi && s[i] == ' ' { OnIsSpaces(s, i + 1, hi); }
  }

  /** The text that a standalone tag takes with it is spaces and its line end. */
  lemma OnlyWhiteDropped(body: text, fragments: seq<Fragment>, actions: seq<Action>, i: nat)
    requires Ordered(body, fragments) && |fragments| == |actions| && i < |fragments|
    ensures Trimmed(body, fragments[i], WithoutLines(body, fragments, actions)[i])
    ensures WithoutLines(body, fragments, actions)[i].first <= |body|
  {
    hide SpacesBack, SpacesOn;
    BackIsSpaces(body, fragments[i].first, fragments[i].second);
    OnIsSpaces(body, fragments[i].first, fragments[i].second);
  }

  /** Spaces end before any other character. */
  lemma {:induction false} SpacesStop(s: text, i: nat, m: nat, hi: nat, hi': nat)
    requires i <= m < hi <= hi' <= |s| && s[m] != ' '
    ensures SpacesOn(s, i, hi) == SpacesOn(s, i, hi') <= m
    decreases hi - i
  {
    if i < hi && s[i] == ' ' { SpacesStop(s, i + 1, m, hi, hi'); }
  }

  /** A fragment that has lost the spaces before a standalone tag still ends, or does not
      end, the line of the tag before it: the order in which tags are looked at is of no
      importance. */
  lemma TrimmingKeepsLineEnd(body: text, f: Fragment)
    requires f.first <= f.second <= |body| && StartsLine(body, f, false)
    ensures var g := f.(second := SpacesBack(body, f.first, f.second));
            EndsLine(body, g, false) == EndsLine(body, f, false) && PastLine(body, g) == PastLine(body, f)
  {
    hide SpacesBack, SpacesOn;
    var j := SpacesBack(body, f.first, f.second);
    SpacesStop(body, f.first, j - 1, j, f.second);
  }

  /** Which tags stand alone depends on the kinds of the actions only. */
  lemma SameKinds(body: text, fragments: seq<Fragment>, a: seq<Action>, b: seq<Action>)
    requires Ordered(body, fragments) && |fragments| == |a| == |b| && forall i | 0 <= i < |a| :: a[i].t == b[i].t
    ensures WithoutLines(body, fragments, a) == WithoutLines(body, fragments, b)
  {
    hide Standalone;
    assert forall i: nat :: AloneAt(body, fragments, a, i) == AloneAt(body, fragments, b, i);
  }

  lemma SameInset(body: text, fragments: seq<Fragment>, a: seq<Action>, b: seq<Action>, i: nat)
    requires Ordered(body, fragments) && |fragments| == |a| == |b| && i < |a|
    requires forall i | 0 <= i < |a| :: a[i].t == b[i].t
    ensures Inset(body, fragments, a, i) == Inset(body, fragments, b, i)
  {
    hide Standalone, SpacesBack;
  }

  /** Where no partial was indented before. */
  lemma IndentedInsets(body: text, fragments: seq<Fragment>, actions: seq<Action>)
    requires Ordered(body, fragments) && |fragments| == |actions|
    requires forall i | 0 <= i < |actions| && actions[i].t == Partial :: actions[i].pos == 0
    ensures Insets(body, fragments, Indented(body, fragments, actions))
  {
    hide AloneAt, SpacesBack, Inset;
    var r := Indented(body, fragments, actions);
    Sizes(body, fragments, actions);
    forall i | 0 <= i < |r| && r[i].t == Partial ensures r[i].pos == Inset(body, fragments, r, i) {
      LinesAt(body, fragments, actions, i);
      InsetIs(body, fragments, actions, i);
      SameInset(body, fragments, actions, r, i);
    }
  }

  lemma InsetIs(body: text, fragments: seq<Fragment>, actions: seq<Action>, i: nat)
    requires Ordered(body, fragments) && |fragments| == |actions| && i < |actions|
    ensures Inset(body, fragments, actions, i)
            == if AloneAt(body, fragments, actions, i)
               then fragments[i].second - SpacesBack(body, fragments[i].first, fragments[i].second) else 0
  {
    hide AloneAt, SpacesBack;
  }

  /** The actions and fragments when the tags from i on have been looked at. */
  ghost predicate Looked(body: text, was: seq<Fragment>, acts: seq<Action>, now: seq<Fragment>, actions: seq<Action>,
                         i: nat)
    requires Ordered(body, was) && |was| == |acts|
  {
    && |now| == |actions| == |was|
    && (forall k | 0 <= k < |now| ::
          && now[k].first == (if k > i then WithoutLines(body, was, acts)[k].first else was[k].first)
          && now[k].second == (if k >= i then WithoutLines(body, was, acts)[k].second else was[k].second))
    && (forall k | 0 <= k < |now| :: actions[k] == if k >= i then Indented(body, was, acts)[k] else acts[k])
  }

  /** What looking at one tag does to the fragments beside it. */
  function LookedAt(body: text, before: Fragment, after: Fragment, a: Action, isFirst: bool, isLast: bool)
    : (Fragment, Fragment, Action)
    requires before.first <= before.second <= |body| && after.first <= after.second <= |body|
  {
    if Standalone(body, before, after, a.t, isFirst, isLast) then
      var j := SpacesBack(body, before.first, before.second);
      (before.(second := j), after.(first := PastLine(body, after)),
       if a.t == Partial then a.(pos := before.second - j) else a)
    else (before, after, a)
  }

  lemma LookBegins(body: text, was: seq<Fragment>, acts: seq<Action>)
    requires Ordered(body, was) && |was| == |acts| > 0
    ensures Looked(body, was, acts, was, acts, |was| - 1)
  {
    hide Standalone;
  }

  lemma LookEnds(body: text, was: seq<Fragment>, acts: seq<Action>, now: seq<Fragment>, actions: seq<Action>)
    requires Ordered(body, was) && |was| == |acts| > 0 && Looked(body, was, acts, now, actions, 0)
    ensures now == WithoutLines(body, was, acts) && actions == Indented(body, was, acts)
  {
    hide Standalone, AloneAt;
    assert now[0] == WithoutLines(body, was, acts)[0];
  }

  /** The fragments beside a tag when its turn comes. */
  lemma AtItsTurn(body: text, was: seq<Fragment>, acts: seq<Action>, now: seq<Fragment>, actions: seq<Action>, i: nat)
    requires Ordered(body, was) && |was| == |acts| && i + 1 < |was| && Looked(body, was, acts, now, actions, i + 1)
    ensures now[i] == was[i] && actions[i] == acts[i]
    ensures now[i + 1].first <= now[i + 1].second <= |body|
    ensures EndsLine(body, now[i + 1], i + 2 == |was|) == EndsLine(body, was[i + 1], i + 2 == |was|)
    ensures PastLine(body, now[i + 1]) == PastLine(body, was[i + 1])
  {
    hide SpacesBack, SpacesOn, EndsLine, PastLine;
    if AloneAt(body, was, acts, i + 1) { TrimmingKeepsLineEnd(body, was[i + 1]); }
  }

  lemma LinesAt(body: text, was: seq<Fragment>, acts: seq<Action>, k: nat)
    requires Ordered(body, was) && |was| == |acts| && k < |was|
    ensures WithoutLines(body, was, acts)[k].first
            == if k > 0 && AloneAt(body, was, acts, k - 1) then PastLine(body, was[k]) else was[k].first
    ensures WithoutLines(body, was, acts)[k].second
            == if AloneAt(body, was, acts, k) then SpacesBack(body, was[k].first, was[k].second) else was[k].second
    ensures Indented(body, was, acts)[k]
            == if acts[k].t == Partial && AloneAt(body, was, acts, k)
               then acts[k].(pos := was[k].second - SpacesBack(body, was[k].first, was[k].second)) else acts[k]
  {
    hide AloneAt, SpacesBack, PastLine;
  }

  lemma LookGoesOn(body: text, was: seq<Fragment>, acts: seq<Action>, now: seq<Fragment>, actions: seq<Action>, i: nat)
    requires Ordered(body, was) && |was| == |acts| && i + 1 < |was| && Looked(body, was, acts, now, actions, i + 1)
    ensures now[i].first <= now[i].second <= |body| && now[i + 1].first <= now[i + 1].second <= |body|
    ensures var r := LookedAt(body, now[i], now[i + 1], actions[i], i == 0, i + 2 == |was|);
            Looked(body, was, acts, now[i := r.0][i + 1 := r.1], actions[i := r.2], i)
  {
    hide SpacesBack, SpacesOn, StartsLine, EndsLine, PastLine, WithoutLines, Indented;
    AtItsTurn(body, was, acts, now, actions, i);
    Sizes(body, was, acts);
    var r := LookedAt(body, now[i], now[i + 1], actions[i], i == 0, i + 2 == |was|);
    var alone := AloneAt(body, was, acts, i);
    assert alone == Standalone(body, now[i], now[i + 1], actions[i].t, i == 0, i + 2 == |was|);
    LinesAt(body, was, acts, i);
    LinesAt(body, was, acts, i + 1);
    var now', actions' := now[i := r.0][i + 1 := r.1], actions[i := r.2];
    forall k | 0 <= k < |now'|
      ensures now'[k].first == if k > i then WithoutLines(body, was, acts)[k].first else was[k].first
      ensures now'[k].second == if k >= i then WithoutLines(body, was, acts)[k].second else was[k].second
      ensures actions'[k] == if k >= i then Indented(body, was, acts)[k] else acts[k]
    {
      hide AloneAt, Standalone, LookedAt;
      if k != i && k != i + 1 { assert now'[k] == now[k] && actions'[k] == actions[k]; }
    }
  }
}
