/** Actions while a template is parsed: which blocks are still open, and that a closer
    completes the innermost one. */
module MustacheNesting {
  import opened MustacheActions

  /** Up to hi only the listed blocks are open, the innermost last. */
  ghost predicate OpenUpTo(actions: seq<Action>, blocks: seq<nat>, hi: nat)
    requires hi <= |actions|
    decreases |blocks|
  {
    if blocks == [] then Closed(actions, 0, hi)
    else
      var b := blocks[|blocks| - 1];
      b < hi && Opens(actions[b]) && Closed(actions, b + 1, hi) && OpenUpTo(actions, blocks[..|blocks| - 1], b)
  }

  /** The same kinds and jump targets between two positions. */
  predicate SameActions(a: seq<Action>, b: seq<Action>, lo: nat, hi: nat) {
    hi <= |a| && hi <= |b| && forall i | lo <= i < hi :: a[i].t == b[i].t && (Opens(a[i]) ==> a[i].pos == b[i].pos)
  }

  lemma {:induction false} ClosedFrame(a: seq<Action>, b: seq<Action>, lo: nat, hi: nat)
    requires hi <= |a| && hi <= |b| && SameActions(a, b, lo, hi) && Closed(a, lo, hi)
    ensures Closed(b, lo, hi)
    decreases hi - lo
  {
    if lo < hi {
      if Simple(a[lo]) {
        ClosedFrame(a, b, lo + 1, hi);
      } else {
        ClosedFrame(a, b, lo + 1, a[lo].pos);
        ClosedFrame(a, b, a[lo].pos + 1, hi);
      }
    }
  }

  lemma {:induction false} OpenFrame(a: seq<Action>, b: seq<Action>, blocks: seq<nat>, hi: nat)
    requires hi <= |a| && hi <= |b| && SameActions(a, b, 0, hi) && OpenUpTo(a, blocks, hi)
    ensures OpenUpTo(b, blocks, hi)
    decreases |blocks|
  {
    hide Closed;
    if blocks == [] {
      ClosedFrame(a, b, 0, hi);
    } else {
      var c := blocks[|blocks| - 1];
      ClosedFrame(a, b, c + 1, hi);
      OpenFrame(a, b, blocks[..|blocks| - 1], c);
    }
  }

  lemma {:induction false} ClosedConcat(a: seq<Action>, lo: nat, mid: nat, hi: nat)
    requires mid <= hi <= |a| && Closed(a, lo, mid) && Closed(a, mid, hi)
    ensures Closed(a, lo, hi)
    decreases mid - lo
  {
    if lo < mid {
      if Simple(a[lo]) {
        ClosedConcat(a, lo + 1, mid, hi);
      } else {
        ClosedConcat(a, a[lo].pos + 1, mid, hi);
      }
    }
  }

  /** An action that is no block goes into the innermost open block. */
  lemma AddSimple(a: seq<Action>, blocks: seq<nat>, action: Action)
    requires OpenUpTo(a, blocks, |a|) && Simple(action)
    ensures OpenUpTo(a + [action], blocks, |a| + 1)
  {
    hide Closed, OpenUpTo;
    ExtendOpen(a, a + [action], blocks, |a|, |a| + 1) by {
      OneSimple(a, action);
    }
  }

  lemma OneSimple(a: seq<Action>, action: Action)
    requires Simple(action)
    ensures Closed(a + [action], |a|, |a| + 1)
  {
  }

  /** What follows the innermost open block can be prolonged by a closed stretch. */
  lemma ExtendOpen(a: seq<Action>, b: seq<Action>, blocks: seq<nat>, mid: nat, hi: nat)
    requires mid <= |a| && mid <= hi <= |b| && SameActions(a, b, 0, mid) && OpenUpTo(a, blocks, mid)
    requires Closed(b, mid, hi)
    ensures OpenUpTo(b, blocks, hi)
  {
    hide Closed;
    OpenFrame(a, b, blocks, mid);
    ClosedConcat(b, if blocks == [] then 0 else blocks[|blocks| - 1] + 1, mid, hi);
  }

  lemma AddOpener(a: seq<Action>, blocks: seq<nat>, action: Action)
    requires OpenUpTo(a, blocks, |a|) && Opens(action)
    ensures OpenUpTo(a + [action], blocks + [|a|], |a| + 1)
  {
    hide Closed;
    OpenFrame(a, a + [action], blocks, |a|);
    assert (blocks + [|a|])[..|blocks|] == blocks;
    NothingClosed(a + [action], |a| + 1);
  }

  lemma NothingClosed(a: seq<Action>, hi: nat)
    requires hi <= |a|
    ensures Closed(a, hi, hi)
  {
  }

  /** A closer completes the innermost open block. */
  lemma AddCloser(a: seq<Action>, blocks: seq<nat>, close: Action)
    requires OpenUpTo(a, blocks, |a|) && blocks != [] && close.t == CloseBlock
    ensures var b := blocks[|blocks| - 1];
            b < |a| && Opens(a[b])
            && OpenUpTo(a[b := a[b].(pos := |a|)] + [close], blocks[..|blocks| - 1], |a| + 1)
  {
    hide Closed;
    var b := blocks[|blocks| - 1];
    var next := a[b := a[b].(pos := |a|)] + [close];
    ClosedFrame(a, next, b + 1, |a|);
    OneBlock(next, b);
    ExtendOpen(a, next, blocks[..|blocks| - 1], b, |a| + 1);
  }

  lemma OneBlock(a: seq<Action>, b: nat)
    requires b + 1 < |a| && Opens(a[b]) && a[b].pos == |a| - 1 && a[|a| - 1].t == CloseBlock
             && Closed(a, b + 1, |a| - 1)
    ensures Closed(a, b, |a|)
  {
    NothingClosed(a, |a|);
  }
}
