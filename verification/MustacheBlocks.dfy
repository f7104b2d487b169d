/** Which blocks the tags of a text leave open, and which tag is refused if any is. */
module MustacheBlocks {
  import opened Options
  import opened MustacheTree
  import opened MustacheActions
  import opened MustacheLex

  /** The names of an opener and of its closer are the same. */
  predicate SameName(body: text, a: Action, b: Action)
    requires a.start <= |body| && b.start <= |body|
  {
    Substr(body, a.start, a.end - a.start) == Substr(body, b.start, b.end - b.start)
  }

  function TagAt(s: text, k: nat): (a: Option<Action>)
    ensures a.Some? ==> a.value.start <= |s| && a.value.pos == 0
  {
    if NthToken(s, k).Some? && NthToken(s, k).value.Token? then
      LexedInside(s, StateAfter(s, k).value);
      Some(NthToken(s, k).value.a)
    else None
  }

  lemma LexedInside(s: text, st: LexState)
    requires StateOk(s, st)
    ensures match LexOne(s, st)
            case Stop(f) => f.first <= f.second <= |s|
            case Token(f, a, _) => f.first <= f.second <= |s| && a.start <= |s| && a.pos == 0
            case Wrong(p) => p != Fine
  {
  }

  /** A closer has the name of the innermost open block. */
  predicate Closes(s: text, a: Action, blocks: seq<nat>)
    requires a.start <= |s|
  {
    blocks != [] && TagAt(s, blocks[|blocks| - 1]).Some?
    && SameName(s, a, TagAt(s, blocks[|blocks| - 1]).value)
  }

  /** The open blocks after some tags, the innermost last; None if one of the tags is refused. */
  function OpenAfter(s: text, n: nat): Option<seq<nat>> {
    if n == 0 then Some([])
    else
      match (OpenAfter(s, n - 1), TagAt(s, n - 1))
      case (Some(blocks), Some(a)) =>
        if Opens(a) then Some(blocks + [n - 1])
        else if a.t != CloseBlock then Some(blocks)
        else if Closes(s, a, blocks) then Some(blocks[..|blocks| - 1])
        else None
      case _ => None
  }

  /** What is wrong with the tag that comes next: the tag itself, or it closes nothing, or it
      closes a block of another name. */
  function ProblemAt(s: text, n: nat, blocks: seq<nat>): Problem {
    match NthToken(s, n)
    case Some(Wrong(p)) => p
    case Some(Token(_, a, _)) =>
      if a.t != CloseBlock || Closes(s, TagAt(s, n).value, blocks) then Fine
      else if blocks == [] then NoOpenBlock
      else NotMatchedPair
    case _ => Fine
  }

  /** The first tag that is refused is refused for this reason. */
  ghost predicate RefusedText(s: text, problem: Problem) {
    problem != Fine && exists n: nat :: OpenAfter(s, n).Some? && ProblemAt(s, n, OpenAfter(s, n).value) == problem
  }

  /** The text has n tags, none refused, and then ends. */
  predicate EndsAt(s: text, n: nat) {
    OpenAfter(s, n).Some? && NthToken(s, n).Some? && NthToken(s, n).value.Stop?
  }

  lemma {:induction false} TagsBefore(s: text, n: nat, k: nat)
    requires OpenAfter(s, n).Some? && k < n
    ensures OpenAfter(s, k).Some? && OpenAfter(s, k + 1).Some? && TagAt(s, k).Some?
    decreases n
  {
    hide TagAt, Closes;
    if k < n - 1 { TagsBefore(s, n - 1, k); }
  }

  lemma OneTagOn(s: text, n: nat, blocks: seq<nat>)
    requires OpenAfter(s, n) == Some(blocks) && NthToken(s, n).Some? && NthToken(s, n).value.Token?
    ensures TagAt(s, n) == Some(NthToken(s, n).value.a)
    ensures var a := NthToken(s, n).value.a;
            && a.start <= |s|
            && (Opens(a) ==> OpenAfter(s, n + 1) == Some(blocks + [n]))
            && (Simple(a) ==> OpenAfter(s, n + 1) == Some(blocks))
            && (a.t == CloseBlock && Closes(s, a, blocks) ==> OpenAfter(s, n + 1) == Some(blocks[..|blocks| - 1]))
            && (a.t == CloseBlock && !Closes(s, a, blocks) ==>
                  ProblemAt(s, n, blocks) == if blocks == [] then NoOpenBlock else NotMatchedPair)
  {
    hide NthToken, Closes;
  }

  lemma TagOfAction(s: text, fragments: seq<Fragment>, actions: seq<Action>, i: nat)
    requires TagsOf(s, fragments, actions) && i < |actions|
    ensures TagAt(s, i) == Some(actions[i].(pos := 0))
  {
    hide NthToken;
  }

  lemma NoProblem(s: text, n: nat)
    requires OpenAfter(s, n).Some? && OpenAfter(s, n + 1).Some?
    ensures ProblemAt(s, n, OpenAfter(s, n).value) == Fine
  {
    hide Closes, StateAfter, LexOne;
  }

  /** A text is either refused, for one reason, or ends after one number of tags. */
  lemma RefusedOrEnds(s: text, n: nat, m: nat)
    requires EndsAt(s, n)
    requires OpenAfter(s, m).Some?
    ensures ProblemAt(s, m, OpenAfter(s, m).value) == Fine && (EndsAt(s, m) ==> n == m)
  {
    hide OpenAfter, NthToken;
    if m < n {
      TagsBefore(s, n, m);
      NoProblem(s, m);
    } else if n < m {
      TagsBefore(s, m, n);
    }
  }

  lemma NotRefused(s: text, n: nat, problem: Problem)
    requires EndsAt(s, n)
    ensures !RefusedText(s, problem)
  {
    hide EndsAt, OpenAfter, ProblemAt;
    if RefusedText(s, problem) {
      var m: nat :| OpenAfter(s, m).Some? && ProblemAt(s, m, OpenAfter(s, m).value) == problem;
      RefusedOrEnds(s, n, m);
    }
  }

  lemma OneProblem(s: text, p: Problem, q: Problem)
    requires RefusedText(s, p) && RefusedText(s, q)
    ensures p == q
  {
    hide OpenAfter, ProblemAt;
    var m: nat :| OpenAfter(s, m).Some? && ProblemAt(s, m, OpenAfter(s, m).value) == p;
    var n: nat :| OpenAfter(s, n).Some? && ProblemAt(s, n, OpenAfter(s, n).value) == q;
    if m < n {
      TagsBefore(s, n, m);
      NoProblem(s, m);
    } else if n < m {
      TagsBefore(s, m, n);
      NoProblem(s, n);
    }
  }
}
