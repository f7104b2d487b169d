/** Templates as section trees, and what such a tree renders to in a stack of contexts. */
module MustacheTree {
  import opened Options
  import opened Bytes
  import opened JsonDump

  type text = seq<byte>

  // ---------- looking up names ----------

  /** The first dot; the length if there is none. */
  function FirstDot(name: text, from: nat): (i: nat)
    requires from <= |name|
    ensures from <= i <= |name| && (i < |name| ==> name[i] == '.')
    ensures forall k | from <= k < i :: name[k] != '.'
    decreases |name| - from
  {
    if from == |name| || name[from] == '.' then from else FirstDot(name, from + 1)
  }

  /** The parts between the dots. */
  function Split(name: text): (names: seq<text>)
    ensures names != []
    decreases |name|
  {
    var i := FirstDot(name, 0);
    if i == |name| then [name] else [name[..i]] + Split(name[i + 1..])
  }

  /** Going down through objects by a list of keys. */
  function Follow(v: WValue, names: seq<text>): Option<WValue> {
    if names == [] then Some(v)
    else if v.WObject? && names[0] in v.members then Follow(v.members[names[0]], names[1..])
    else None
  }

  /** The innermost context in which the keys can be followed. */
  function Innermost(names: seq<text>, stack: seq<WValue>): Option<WValue> {
    if stack == [] then None
    else
      var top := stack[|stack| - 1];
      if Follow(top, names).Some? then Follow(top, names) else Innermost(names, stack[..|stack| - 1])
  }

  function Lookup(name: text, stack: seq<WValue>): Option<WValue>
    requires stack != []
  {
    if name == ['.'] then Some(stack[|stack| - 1]) else Innermost(Split(name), stack)
  }

  // ---------- rendering a tree ----------

  /** A text between tags, a variable, a section, or another template in its place. An overrun
      is a text between tags whose end lies before its start. */
  datatype Piece =
    | Plain(s: text, last: bool) | Overrun(s: text) | Variable(name: text, raw: bool)
    | Section(name: text, inverted: bool, body: seq<Piece>) | Insert(name: text, indent: nat)

  /** What a file is: a text that is refused, a template, or one that leaves a section open. */
  datatype Source = NoTemplate | Tree(pieces: seq<Piece>) | LeftOpen

  /** The indentation of every line, the files, and how deep templates may be inserted in one
      another. */
  datatype Env = Env(indent: nat, depth: nat, files: text -> Source)

  /** The text put out, or an exception. Stuck: templates are inserted deeper than looked at,
      or one of them leaves a section open. */
  datatype Outcome = Text(s: text) | Thrown | Stuck

  function EscapeHtmlChar(c: byte): text {
    match c
    case '&' => ['&', 'a', 'm', 'p', ';']
    case '<' => ['&', 'l', 't', ';']
    case '>' => ['&', 'g', 't', ';']
    case '"' => ['&', 'q', 'u', 'o', 't', ';']
    case '\'' => ['&', '#', '3', '9', ';']
    case '/' => ['&', '#', 'x', '2', 'F', ';']
    case _ => [c]
  }

  function EscapeHtml(s: text): text {
    if s == [] then [] else EscapeHtml(s[..|s| - 1]) + EscapeHtmlChar(s[|s| - 1])
  }

  function Spaces(n: nat): text {
    seq(n, _ => ' ')
  }

  /** A text with every line but its first indented; a line end that ends the template is
      followed by nothing. */
  function IndentLines(s: text, last: bool, indent: nat): text {
    if s == [] then []
    else
      var n := |s| - 1;
      IndentLines(s[..n], false, indent) + [s[n]] + (if s[n] == '\n' && !last then Spaces(indent) else [])
  }

  /** The text of a variable: a number as it is printed, a string, or nothing if the name is
      not found; any other value is an exception. */
  function VariableText(name: text, raw: bool, stack: seq<WValue>): Outcome
    requires stack != []
  {
    match Lookup(name, stack)
    case None => Text([])
    case Some(WNumber(d)) => Text(d)
    case Some(WString(s)) => Text(if raw then s else EscapeHtml(s))
    case Some(_) => Thrown
  }

  /** The contexts in which the body of a section is rendered, one after the other. */
  function SectionContexts(name: text, inverted: bool, stack: seq<WValue>): seq<WValue>
    requires stack != []
  {
    match Lookup(name, stack)
    case None => if inverted then [WNull] else []
    case Some(WList(items)) => if inverted then (if items == [] then [WNull] else []) else items
    case Some(WFalse) => if inverted then [WNull] else []
    case Some(WNull) => if inverted then [WNull] else []
    case Some(v) => if inverted then [] else [v]
  }

  /** What comes before the body each time: every item of a list starts with the indentation. */
  function SectionLead(name: text, inverted: bool, stack: seq<WValue>, indent: nat): text
    requires stack != []
  {
    if !inverted && Lookup(name, stack).Some? && Lookup(name, stack).value.WList? then Spaces(indent) else []
  }

  /** One output after the other; what follows an exception is not reached. */
  function Join(a: Outcome, b: Outcome): Outcome {
    if a.Text? && b.Text? then Text(a.s + b.s) else if a.Text? then b else a
  }

  /** Inside an inserted template. One that is not indented itself loses the indentation
      around it. */
  function Inserted(env: Env, indent: nat): Env
    requires env.depth > 0
  {
    Env(if indent > 0 then env.indent + indent else 0, env.depth - 1, env.files)
  }

  /** The output of a tree. */
  function RenderTree(pieces: seq<Piece>, stack: seq<WValue>, env: Env): Outcome
    requires stack != []
    decreases env.depth, pieces
  {
    if pieces == [] then Text([])
    else Join(RenderPiece(pieces[0], stack, env), RenderTree(pieces[1..], stack, env))
  }

  function RenderPiece(p: Piece, stack: seq<WValue>, env: Env): Outcome
    requires stack != []
    decreases env.depth, p, 1
  {
    match p
    case Plain(s, last) => Text(IndentLines(s, last, env.indent))
    case Overrun(s) => Text(if env.indent == 0 then s else [])
    case Variable(name, raw) => VariableText(name, raw, stack)
    case Section(name, inverted, body) =>
      RenderEach(p, SectionLead(name, inverted, stack, env.indent), SectionContexts(name, inverted, stack), stack, env)
    case Insert(name, indent) =>
      if env.depth == 0 then Stuck
      else
        match env.files(name)
        case NoTemplate => Thrown
        case LeftOpen => Stuck
        case Tree(pieces) =>
          var inner := Inserted(env, indent);
          Join(Text(Spaces(inner.indent)), RenderTree(pieces, stack, inner))
  }

  /** The body of a section in each of some contexts. */
  function RenderEach(section: Piece, lead: text, contexts: seq<WValue>, stack: seq<WValue>, env: Env): Outcome
    requires section.Section?
    decreases env.depth, section, 0, |contexts|
  {
    if contexts == [] then Text([])
    else Join(Join(Text(lead), RenderTree(section.body, stack + [contexts[0]], env)),
              RenderEach(section, lead, contexts[1..], stack, env))
  }

  // ---------- joining outputs ----------

  lemma JoinAssociates(a: Outcome, b: Outcome, c: Outcome)
    ensures Join(Join(a, b), c) == Join(a, Join(b, c))
  {
    if a.Text? && b.Text? && c.Text? {
      assert a.s + b.s + c.s == a.s + (b.s + c.s);
    }
  }

  lemma JoinNothing(a: Outcome)
    ensures Join(a, Text([])) == a && Join(Text([]), a) == a
  {
    if a.Text? { assert a.s + [] == a.s && [] + a.s == a.s; }
  }

  lemma {:induction false} RenderAppend(a: seq<Piece>, b: seq<Piece>, stack: seq<WValue>, env: Env)
    requires stack != []
    ensures RenderTree(a + b, stack, env) == Join(RenderTree(a, stack, env), RenderTree(b, stack, env))
    decreases |a|
  {
    hide Join, RenderPiece;
    if a == [] {
      assert a + b == b;
      JoinNothing(RenderTree(b, stack, env));
    } else {
      assert (a + b)[1..] == a[1..] + b;
      RenderAppend(a[1..], b, stack, env);
      JoinAssociates(RenderPiece(a[0], stack, env), RenderTree(a[1..], stack, env), RenderTree(b, stack, env));
    }
  }

  lemma {:induction false} NoIndent(s: text, last: bool)
    ensures IndentLines(s, last, 0) == s
    decreases |s|
  {
    if s != [] {
      NoIndent(s[..|s| - 1], false);
      assert s == s[..|s| - 1] + [s[|s| - 1]];
      assert s + [] == s;
    }
  }

  // ---------- how deep to look ----------

  /** An output does not depend on how deep one looks, as long as that is deep enough. */
  lemma {:induction false} DeepEnough(pieces: seq<Piece>, stack: seq<WValue>, env: Env, depth: nat)
    requires stack != [] && depth >= env.depth && RenderTree(pieces, stack, env) != Stuck
    ensures RenderTree(pieces, stack, env.(depth := depth)) == RenderTree(pieces, stack, env)
    decreases env.depth, pieces
  {
    hide RenderPiece;
    if pieces != [] {
      PieceDeepEnough(pieces[0], stack, env, depth);
      if RenderPiece(pieces[0], stack, env).Text? { DeepEnough(pieces[1..], stack, env, depth); }
    }
  }

  lemma {:induction false} PieceDeepEnough(p: Piece, stack: seq<WValue>, env: Env, depth: nat)
    requires stack != [] && depth >= env.depth && RenderPiece(p, stack, env) != Stuck
    ensures RenderPiece(p, stack, env.(depth := depth)) == RenderPiece(p, stack, env)
    decreases env.depth, p, 1
  {
    hide RenderTree, RenderEach, Lookup;
    if p.Section? {
      EachDeepEnough(p, SectionLead(p.name, p.inverted, stack, env.indent),
                     SectionContexts(p.name, p.inverted, stack), stack, env, depth);
    } else if p.Insert? && env.files(p.name).Tree? {
      DeepEnough(env.files(p.name).pieces, stack, Inserted(env, p.indent), depth - 1);
    }
  }

  lemma {:induction false} EachDeepEnough(section: Piece, lead: text, contexts: seq<WValue>, stack: seq<WValue>,
                                          env: Env, depth: nat)
    requires section.Section? && depth >= env.depth && RenderEach(section, lead, contexts, stack, env) != Stuck
    ensures RenderEach(section, lead, contexts, stack, env.(depth := depth))
            == RenderEach(section, lead, contexts, stack, env)
    decreases env.depth, section, 0, |contexts|
  {
    hide RenderTree;
    if contexts != [] {
      DeepEnough(section.body, stack + [contexts[0]], env, depth);
      if RenderTree(section.body, stack + [contexts[0]], env).Text? {
        EachDeepEnough(section, lead, contexts[1..], stack, env, depth);
      }
    }
  }

  // ---------- when rendering ends ----------

  /** Every file inserted has a rank below r and leaves no section open. */
  predicate InsertsBelow(pieces: seq<Piece>, files: text -> Source, rank: text -> nat, r: nat) {
    forall i | 0 <= i < |pieces| :: PieceBelow(pieces[i], files, rank, r)
  }

  predicate PieceBelow(p: Piece, files: text -> Source, rank: text -> nat, r: nat) {
    match p
    case Insert(name, _) => files(name) != LeftOpen && rank(name) < r
    case Section(_, _, body) => forall i | 0 <= i < |body| :: PieceBelow(body[i], files, rank, r)
    case _ => true
  }

  /** Templates insert only templates of lower rank. */
  ghost predicate Ranked(files: text -> Source, rank: text -> nat) {
    forall name :: files(name).Tree? ==> InsertsBelow(files(name).pieces, files, rank, rank(name))
  }

  lemma {:induction false} LargerRank(p: Piece, files: text -> Source, rank: text -> nat, r: nat, r': nat)
    requires PieceBelow(p, files, rank, r) && r <= r'
    ensures PieceBelow(p, files, rank, r')
  {
    if p.Section? {
      forall i | 0 <= i < |p.body| ensures PieceBelow(p.body[i], files, rank, r') {
        LargerRank(p.body[i], files, rank, r, r');
      }
    }
  }

  /** Where templates are inserted in one another without a cycle, rendering ends. */
  lemma {:induction false} RankedEnds(pieces: seq<Piece>, stack: seq<WValue>, env: Env, rank: text -> nat)
    requires stack != [] && Ranked(env.files, rank) && InsertsBelow(pieces, env.files, rank, env.depth)
    ensures RenderTree(pieces, stack, env) != Stuck
    decreases env.depth, pieces
  {
    hide RenderPiece, PieceBelow, Ranked;
    if pieces != [] {
      PieceEnds(pieces[0], stack, env, rank);
      RankedEnds(pieces[1..], stack, env, rank);
    }
  }

  lemma {:induction false} PieceEnds(p: Piece, stack: seq<WValue>, env: Env, rank: text -> nat)
    requires stack != [] && Ranked(env.files, rank) && PieceBelow(p, env.files, rank, env.depth)
    ensures RenderPiece(p, stack, env) != Stuck
    decreases env.depth, p, 1
  {
    hide RenderTree, RenderEach, Lookup;
    if p.Section? {
      EachEnds(p, SectionLead(p.name, p.inverted, stack, env.indent), SectionContexts(p.name, p.inverted, stack), stack,
               env, rank);
    } else if p.Insert? && env.files(p.name).Tree? {
      var pieces := env.files(p.name).pieces;
      forall i | 0 <= i < |pieces| ensures PieceBelow(pieces[i], env.files, rank, env.depth - 1) {
        LargerRank(pieces[i], env.files, rank, rank(p.name), env.depth - 1);
      }
      RankedEnds(pieces, stack, Inserted(env, p.indent), rank);
    }
  }

  lemma {:induction false} EachEnds(section: Piece, lead: text, contexts: seq<WValue>, stack: seq<WValue>, env: Env,
                                    rank: text -> nat)
    requires section.Section? && Ranked(env.files, rank) && PieceBelow(section, env.files, rank, env.depth)
    ensures RenderEach(section, lead, contexts, stack, env) != Stuck
    decreases env.depth, section, 0, |contexts|
  {
    hide RenderTree, Ranked;
    if contexts != [] {
      RankedEnds(section.body, stack + [contexts[0]], env, rank);
      EachEnds(section, lead, contexts[1..], stack, env, rank);
    }
  }

  /** A template that begins by inserting itself is never rendered to its end. */
  lemma {:induction false} InsertsItself(name: text, s: text, last: bool, indent: nat, more: seq<Piece>,
                                         stack: seq<WValue>, env: Env)
    requires stack != [] && env.files(name) == Tree([Plain(s, last), Insert(name, indent)] + more)
    ensures RenderTree(env.files(name).pieces, stack, env) == Stuck
    decreases env.depth
  {
    var pieces := env.files(name).pieces;
    assert pieces[1..][0] == Insert(name, indent);
    if env.depth > 0 { InsertsItself(name, s, last, indent, more, stack, Inserted(env, indent)); }
    assert RenderPiece(pieces[1], stack, env) == Stuck;
    assert RenderTree(pieces[1..], stack, env) == Stuck;
  }
}
