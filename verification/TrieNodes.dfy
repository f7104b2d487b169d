/** The nodes of the URL trie as a value: which rules they hold, and what happens to
    those when a node gets a child, a rule, or its children's children. */
module TrieNodes {
  import opened Options
  import opened UrlPatterns

  /** A rule index of 0 means no rule. */
  datatype Node = Node(ruleIndex: nat, params: map<ParamType, nat>, children: map<string, nat>) {
    predicate IsSimple() {
      ruleIndex == 0 && params == map[]
    }
  }

  const Blank := Node(0, map[], map[])

  /** No label is a prefix of another one. */
  ghost predicate PrefixFree(labels: set<string>) {
    forall k, l | k in labels && l in labels && k <= l :: k == l
  }

  /** Children come after their parents; labels are non-empty. */
  ghost predicate NodeOk(nodes: seq<Node>, i: nat)
    requires i < |nodes|
  {
    var n := nodes[i];
    && (forall t | t in n.params :: i < n.params[t] < |nodes|)
    && (forall k | k in n.children :: i < n.children[k] < |nodes| && k != [])
  }

  ghost predicate WellFormed(nodes: seq<Node>) {
    |nodes| > 0 && forall i: nat | i < |nodes| :: NodeOk(nodes, i)
  }

  /** Every edge is one character. */
  predicate Single(node: Node) {
    forall k | k in node.children :: |k| == 1
  }

  lemma SinglePrefixFree(node: Node)
    requires Single(node)
    ensures PrefixFree(node.children.Keys)
  {
    forall k, l | k in node.children && l in node.children && k <= l ensures k == l {
      assert |k| == |l| == 1;
    }
  }

  ghost predicate SimpleChildren(nodes: seq<Node>, i: nat)
    requires WellFormed(nodes) && i < |nodes|
  {
    assert NodeOk(nodes, i);
    forall k | k in nodes[i].children :: nodes[nodes[i].children[k]].IsSimple()
  }

  /** A node whose edges may still be merged has edges of one character, as they were added. */
  ghost predicate Settled(nodes: seq<Node>)
    requires WellFormed(nodes)
  {
    forall i: nat | i < |nodes| :: Single(nodes[i]) || !SimpleChildren(nodes, i)
  }

  /** The tokens lead from node i to node n. */
  ghost predicate Reach(nodes: seq<Node>, i: nat, toks: seq<Tok>, n: nat)
    requires WellFormed(nodes) && i < |nodes|
    decreases |nodes| - i
  {
    assert NodeOk(nodes, i);
    || (toks == [] && n == i)
    || (toks != [] && toks[0].Param? && toks[0].t in nodes[i].params
        && Reach(nodes, nodes[i].params[toks[0].t], toks[1..], n))
    || (exists k | k in nodes[i].children ::
          Text(k) <= toks && Reach(nodes, nodes[i].children[k], toks[|k|..], n))
  }

  /** ... the first step being the edge labelled k. */
  ghost predicate EdgeReach(nodes: seq<Node>, i: nat, k: string, toks: seq<Tok>, n: nat)
    requires WellFormed(nodes) && i < |nodes|
  {
    assert NodeOk(nodes, i);
    k in nodes[i].children && Text(k) <= toks && Reach(nodes, nodes[i].children[k], toks[|k|..], n)
  }

  /** From node i the trie holds rule r for these tokens. */
  ghost predicate Has(nodes: seq<Node>, i: nat, toks: seq<Tok>, r: nat)
    requires WellFormed(nodes) && i < |nodes|
  {
    r != 0 && exists n: nat :: n < |nodes| && nodes[n].ruleIndex == r && Reach(nodes, i, toks, n)
  }

  // ---------- one step down ----------

  ghost predicate HasParam(nodes: seq<Node>, i: nat, t: ParamType, toks: seq<Tok>, r: nat)
    requires WellFormed(nodes) && i < |nodes|
  {
    assert NodeOk(nodes, i);
    toks != [] && toks[0] == Param(t) && t in nodes[i].params
    && Has(nodes, nodes[i].params[t], toks[1..], r)
  }

  ghost predicate HasEdge(nodes: seq<Node>, i: nat, k: string, toks: seq<Tok>, r: nat)
    requires WellFormed(nodes) && i < |nodes|
  {
    assert NodeOk(nodes, i);
    k in nodes[i].children && Text(k) <= toks
    && Has(nodes, nodes[i].children[k], toks[|k|..], r)
  }

  /** What is held at a node itself or below one of its edges, and nothing else. */
  ghost predicate HasBelow(nodes: seq<Node>, i: nat, toks: seq<Tok>, r: nat)
    requires WellFormed(nodes) && i < |nodes|
  {
    || (toks == [] && nodes[i].ruleIndex == r && r != 0)
    || (toks != [] && toks[0].Param? && HasParam(nodes, i, toks[0].t, toks, r))
    || (exists k: string :: HasEdge(nodes, i, k, toks, r))
  }

  lemma HasGoesDown(nodes: seq<Node>, i: nat, toks: seq<Tok>, r: nat)
    requires WellFormed(nodes) && i < |nodes| && Has(nodes, i, toks, r)
    ensures HasBelow(nodes, i, toks, r)
  {
    assert NodeOk(nodes, i);
    var n: nat :| n < |nodes| && nodes[n].ruleIndex == r && Reach(nodes, i, toks, n);
    if k :| k in nodes[i].children && Text(k) <= toks && Reach(nodes, nodes[i].children[k], toks[|k|..], n) {
      assert HasEdge(nodes, i, k, toks, r);
    }
  }

  lemma HasViaParam(nodes: seq<Node>, i: nat, t: ParamType, toks: seq<Tok>, r: nat)
    requires WellFormed(nodes) && i < |nodes| && HasParam(nodes, i, t, toks, r)
    ensures Has(nodes, i, toks, r)
  {
    assert NodeOk(nodes, i);
    var n: nat :| n < |nodes| && nodes[n].ruleIndex == r && Reach(nodes, nodes[i].params[t], toks[1..], n);
    assert Reach(nodes, i, toks, n);
  }

  lemma HasViaEdge(nodes: seq<Node>, i: nat, k: string, toks: seq<Tok>, r: nat)
    requires WellFormed(nodes) && i < |nodes| && HasEdge(nodes, i, k, toks, r)
    ensures Has(nodes, i, toks, r)
  {
    assert NodeOk(nodes, i);
    var n: nat :| n < |nodes| && nodes[n].ruleIndex == r && Reach(nodes, nodes[i].children[k], toks[|k|..], n);
    assert Reach(nodes, i, toks, n);
  }

  lemma HasStep(nodes: seq<Node>, i: nat, toks: seq<Tok>, r: nat)
    requires WellFormed(nodes) && i < |nodes|
    ensures Has(nodes, i, toks, r) <==> HasBelow(nodes, i, toks, r)
  {
    hide Has, HasParam, HasEdge;
    if Has(nodes, i, toks, r) { HasGoesDown(nodes, i, toks, r); }
    if toks != [] && toks[0].Param? && HasParam(nodes, i, toks[0].t, toks, r) {
      HasViaParam(nodes, i, toks[0].t, toks, r);
    }
    if k: string :| HasEdge(nodes, i, k, toks, r) { HasViaEdge(nodes, i, k, toks, r); }
    HereHas(nodes, i, toks, r);
  }

  lemma HereHas(nodes: seq<Node>, i: nat, toks: seq<Tok>, r: nat)
    requires WellFormed(nodes) && i < |nodes|
    ensures toks == [] && nodes[i].ruleIndex == r && r != 0 ==> Has(nodes, i, toks, r)
  {
    if toks == [] { assert Reach(nodes, i, toks, i); }
  }

  /** Where labels are prefix-free, the tokens determine the node. */
  lemma {:induction false} ReachUnique(nodes: seq<Node>, i: nat, toks: seq<Tok>, n: nat, m: nat)
    requires WellFormed(nodes) && i < |nodes| && Reach(nodes, i, toks, n) && Reach(nodes, i, toks, m)
    requires forall j: nat | j < |nodes| :: PrefixFree(nodes[j].children.Keys)
    ensures n == m
    decreases |nodes| - i
  {
    assert NodeOk(nodes, i);
    if toks != [] {
      forall k | k in nodes[i].children && Text(k) <= toks ensures toks[0].Lit? {
        assert Text(k)[0] == toks[0];
      }
      if toks[0].Param? {
        ReachUnique(nodes, nodes[i].params[toks[0].t], toks[1..], n, m);
      } else {
        var k :| k in nodes[i].children && Text(k) <= toks && Reach(nodes, nodes[i].children[k], toks[|k|..], n);
        var l :| l in nodes[i].children && Text(l) <= toks && Reach(nodes, nodes[i].children[l], toks[|l|..], m);
        SameLabel(k, l, toks);
        ReachUnique(nodes, nodes[i].children[k], toks[|k|..], n, m);
      }
    }
  }

  lemma SameLabel(k: string, l: string, toks: seq<Tok>)
    requires Text(k) <= toks && Text(l) <= toks
    ensures k <= l || l <= k
  {
    var n := if |k| < |l| then |k| else |l|;
    forall i | 0 <= i < n ensures k[i] == l[i] {
      assert toks[i] == Text(k)[i] == Text(l)[i];
    }
  }

  /** Nodes after i decide what is reached from them. */
  lemma {:induction false} ReachFrame(nodes: seq<Node>, nodes': seq<Node>, i: nat, toks: seq<Tok>, n: nat)
    requires WellFormed(nodes) && WellFormed(nodes') && |nodes'| == |nodes| && i < |nodes|
    requires forall j | i <= j < |nodes| ::
             nodes'[j].params == nodes[j].params && nodes'[j].children == nodes[j].children
    ensures Reach(nodes', i, toks, n) <==> Reach(nodes, i, toks, n)
    decreases |nodes| - i
  {
    assert NodeOk(nodes, i);
    if toks != [] && toks[0].Param? && toks[0].t in nodes[i].params {
      ReachFrame(nodes, nodes', nodes[i].params[toks[0].t], toks[1..], n);
    }
    forall k | k in nodes[i].children && Text(k) <= toks
      ensures Reach(nodes', nodes[i].children[k], toks[|k|..], n)
              <==> Reach(nodes, nodes[i].children[k], toks[|k|..], n)
    {
      ReachFrame(nodes, nodes', nodes[i].children[k], toks[|k|..], n);
    }
  }

  // ---------- adding rules ----------

  /** The token path of every node: parameters and labels from the head on. */
  ghost predicate PathsOk(nodes: seq<Node>, paths: seq<seq<Tok>>)
    requires WellFormed(nodes)
  {
    && |paths| == |nodes| && paths[0] == []
    && (forall i: nat | i < |nodes| :: NodePathsOk(nodes, paths, i))
  }

  ghost predicate NodePathsOk(nodes: seq<Node>, paths: seq<seq<Tok>>, i: nat)
    requires WellFormed(nodes) && |paths| == |nodes| && i < |nodes|
  {
    assert NodeOk(nodes, i);
    && (forall t | t in nodes[i].params :: paths[nodes[i].params[t]] == paths[i] + [Param(t)])
    && (forall k | k in nodes[i].children :: paths[nodes[i].children[k]] == paths[i] + Text(k))
  }

  datatype FirstStep = Here | ByParam(t: ParamType) | ByEdge(k: string)

  /** The first step of a path from node i. */
  ghost predicate StepsBy(nodes: seq<Node>, i: nat, toks: seq<Tok>, n: nat, f: FirstStep)
    requires WellFormed(nodes) && i < |nodes|
  {
    assert NodeOk(nodes, i);
    match f
    case Here => toks == [] && n == i
    case ByParam(t) =>
      toks != [] && toks[0] == Param(t) && t in nodes[i].params && Reach(nodes, nodes[i].params[t], toks[1..], n)
    case ByEdge(k) => EdgeReach(nodes, i, k, toks, n)
  }

  lemma ReachSteps(nodes: seq<Node>, i: nat, toks: seq<Tok>, n: nat) returns (f: FirstStep)
    requires WellFormed(nodes) && i < |nodes| && Reach(nodes, i, toks, n)
    ensures StepsBy(nodes, i, toks, n, f)
  {
    assert NodeOk(nodes, i);
    if toks == [] && n == i {
      f := Here;
    } else if k :| k in nodes[i].children && Text(k) <= toks && Reach(nodes, nodes[i].children[k], toks[|k|..], n) {
      f := ByEdge(k);
    } else {
      f := ByParam(toks[0].t);
    }
  }

  lemma StepsReach(nodes: seq<Node>, i: nat, toks: seq<Tok>, n: nat, f: FirstStep)
    requires WellFormed(nodes) && i < |nodes| && StepsBy(nodes, i, toks, n, f)
    ensures Reach(nodes, i, toks, n)
  {
  }

  lemma {:induction false} ReachPath(nodes: seq<Node>, paths: seq<seq<Tok>>, i: nat, toks: seq<Tok>, n: nat)
    requires WellFormed(nodes) && PathsOk(nodes, paths) && i < |nodes| && Reach(nodes, i, toks, n)
    ensures n < |nodes| && paths[n] == paths[i] + toks
    decreases |nodes| - i
  {
    hide Reach, Text;
    assert NodeOk(nodes, i) && NodePathsOk(nodes, paths, i);
    var f := ReachSteps(nodes, i, toks, n);
    match f
    case Here => assert paths[i] + [] == paths[i];
    case ByParam(t) =>
      ReachPath(nodes, paths, nodes[i].params[t], toks[1..], n);
      assert toks == [Param(t)] + toks[1..];
      assert paths[i] + [Param(t)] + toks[1..] == paths[i] + toks;
    case ByEdge(k) =>
      ReachPath(nodes, paths, nodes[i].children[k], toks[|k|..], n);
      assert toks == Text(k) + toks[|k|..];
      assert paths[i] + Text(k) + toks[|k|..] == paths[i] + toks;
  }

  /** Reaching a node and stepping on. */
  lemma {:induction false} ReachAppend(nodes: seq<Node>, i: nat, toks: seq<Tok>, m: nat, more: seq<Tok>, n: nat)
    requires WellFormed(nodes) && i < |nodes| && m < |nodes| && Reach(nodes, i, toks, m) && Reach(nodes, m, more, n)
    ensures Reach(nodes, i, toks + more, n)
    decreases |nodes| - i
  {
    hide Reach, Text;
    assert NodeOk(nodes, i);
    var all := toks + more;
    var f := ReachSteps(nodes, i, toks, m);
    match f
    case Here => assert all == more;
    case ByParam(t) =>
      ReachAppend(nodes, nodes[i].params[t], toks[1..], m, more, n);
      assert all[1..] == toks[1..] + more;
      StepsReach(nodes, i, all, n, f);
    case ByEdge(k) =>
      ReachAppend(nodes, nodes[i].children[k], toks[|k|..], m, more, n);
      assert all[|k|..] == toks[|k|..] + more && Text(k) <= all;
      StepsReach(nodes, i, all, n, f);
  }

  /** The child of a node for one token, by a tag or by an edge of one character. */
  predicate HasChild(node: Node, tok: Tok) {
    match tok case Param(t) => t in node.params case Lit(c) => [c] in node.children
  }

  function Child(node: Node, tok: Tok): nat
    requires HasChild(node, tok)
  {
    match tok case Param(t) => node.params[t] case Lit(c) => node.children[[c]]
  }

  lemma ReachOne(nodes: seq<Node>, i: nat, tok: Tok, n: nat)
    requires WellFormed(nodes) && i < |nodes| && HasChild(nodes[i], tok) && Child(nodes[i], tok) == n
    ensures n < |nodes| && Reach(nodes, i, [tok], n)
  {
    assert NodeOk(nodes, i);
    assert Reach(nodes, n, [tok][1..], n);
    if tok.Lit? { assert Text([tok.c]) == [tok]; }
  }

  /** Where the tokens lead one at a time. */
  function Walk(nodes: seq<Node>, i: nat, toks: seq<Tok>): Option<nat>
    requires i < |nodes|
    decreases |toks|
  {
    if toks == [] then Some(i)
    else if HasChild(nodes[i], toks[0]) && Child(nodes[i], toks[0]) < |nodes| then
      Walk(nodes, Child(nodes[i], toks[0]), toks[1..])
    else None
  }

  lemma {:induction false} WalkReach(nodes: seq<Node>, i: nat, toks: seq<Tok>)
    requires WellFormed(nodes) && i < |nodes|
    ensures match Walk(nodes, i, toks) case None => true case Some(n) => n < |nodes| && Reach(nodes, i, toks, n)
    decreases |toks|
  {
    if toks != [] && Walk(nodes, i, toks).Some? {
      var n := Child(nodes[i], toks[0]);
      ReachOne(nodes, i, toks[0], n);
      WalkReach(nodes, n, toks[1..]);
      ReachAppend(nodes, i, [toks[0]], n, toks[1..], Walk(nodes, i, toks).value);
      assert [toks[0]] + toks[1..] == toks;
    }
  }

  lemma {:induction false} WalkOn(nodes: seq<Node>, i: nat, toks: seq<Tok>, tok: Tok)
    requires WellFormed(nodes) && i < |nodes|
    ensures match Walk(nodes, i, toks)
            case None => Walk(nodes, i, toks + [tok]) == None
            case Some(n) =>
              && n < |nodes|
              && Walk(nodes, i, toks + [tok])
                 == if HasChild(nodes[n], tok) then Some(Child(nodes[n], tok)) else None
    decreases |toks|
  {
    assert NodeOk(nodes, i);
    var all := toks + [tok];
    if toks == [] {
      assert all[1..] == [];
    } else {
      assert all[0] == toks[0] && all[1..] == toks[1..] + [tok];
      if HasChild(nodes[i], toks[0]) { WalkOn(nodes, Child(nodes[i], toks[0]), toks[1..], tok); }
    }
  }

  /** More nodes without rules, children of some nodes by new edges. */
  ghost predicate Extends(nodes: seq<Node>, nodes': seq<Node>) {
    && |nodes| <= |nodes'| && (forall i: nat | |nodes| <= i < |nodes'| :: nodes'[i].ruleIndex == 0)
    && (forall i: nat | i < |nodes| :: NodeExtends(nodes[i], nodes'[i], |nodes|))
  }

  ghost predicate NodeExtends(node: Node, node': Node, n: nat) {
    && node'.ruleIndex == node.ruleIndex
    && (forall tok | HasChild(node, tok) :: HasChild(node', tok))
    && forall tok | HasChild(node', tok) ::
         if HasChild(node, tok) then Child(node', tok) == Child(node, tok) else Child(node', tok) >= n
  }

  lemma GrownExtends(nodes0: seq<Node>, nodes: seq<Node>, nodes': seq<Node>)
    requires Extends(nodes0, nodes) && Grown(nodes, nodes')
    ensures Extends(nodes0, nodes')
  {
    forall i: nat | i < |nodes0| ensures NodeExtends(nodes0[i], nodes'[i], |nodes0|) {
      assert NodeExtends(nodes0[i], nodes[i], |nodes0|);
      forall tok | HasChild(nodes0[i], tok) ensures HasChild(nodes'[i], tok) {
        assert HasChild(nodes[i], tok);
      }
      forall tok | HasChild(nodes'[i], tok)
        ensures if HasChild(nodes0[i], tok) then Child(nodes'[i], tok) == Child(nodes0[i], tok)
                else Child(nodes'[i], tok) >= |nodes0|
      {
        GrownChild(nodes0, nodes, nodes', i, tok);
      }
    }
  }

  lemma GrownChild(nodes0: seq<Node>, nodes: seq<Node>, nodes': seq<Node>, i: nat, tok: Tok)
    requires Extends(nodes0, nodes) && Grown(nodes, nodes') && i < |nodes0| && HasChild(nodes'[i], tok)
    ensures if HasChild(nodes0[i], tok) then Child(nodes'[i], tok) == Child(nodes0[i], tok)
            else Child(nodes'[i], tok) >= |nodes0|
  {
    assert NodeExtends(nodes0[i], nodes[i], |nodes0|);
    if HasChild(nodes0[i], tok) { assert HasChild(nodes[i], tok); }
  }

  /** The same nodes with one blank node more, child of some of them by new edges. */
  ghost predicate Grown(nodes: seq<Node>, nodes': seq<Node>) {
    && |nodes'| == |nodes| + 1 && nodes'[|nodes|] == Blank
    && (forall i: nat | i < |nodes| ::
          && nodes'[i].ruleIndex == nodes[i].ruleIndex
          && (forall t | t in nodes[i].params :: t in nodes'[i].params && nodes'[i].params[t] == nodes[i].params[t])
          && (forall t | t in nodes'[i].params :: t in nodes[i].params || nodes'[i].params[t] == |nodes|)
          && (forall k | k in nodes[i].children ::
              k in nodes'[i].children && nodes'[i].children[k] == nodes[i].children[k])
          && (forall k | k in nodes'[i].children :: k in nodes[i].children || nodes'[i].children[k] == |nodes|))
  }

  lemma {:induction false} ReachGrown(nodes: seq<Node>, nodes': seq<Node>, i: nat, toks: seq<Tok>, n: nat)
    requires WellFormed(nodes) && WellFormed(nodes') && Grown(nodes, nodes') && i < |nodes| && n < |nodes|
    ensures Reach(nodes', i, toks, n) <==> Reach(nodes, i, toks, n)
    decreases |nodes| - i
  {
    assert NodeOk(nodes, i) && NodeOk(nodes', i);
    assert forall ts: seq<Tok> :: !Reach(nodes', |nodes|, ts, n);
    if toks != [] && toks[0].Param? && toks[0].t in nodes[i].params {
      ReachGrown(nodes, nodes', nodes[i].params[toks[0].t], toks[1..], n);
    }
    forall k | k in nodes[i].children && Text(k) <= toks
      ensures Reach(nodes', nodes[i].children[k], toks[|k|..], n)
              <==> Reach(nodes, nodes[i].children[k], toks[|k|..], n)
    {
      ReachGrown(nodes, nodes', nodes[i].children[k], toks[|k|..], n);
    }
  }

  function Linked(node: Node, tok: Tok, child: nat): Node {
    match tok
    case Param(t) => node.(params := node.params[t := child])
    case Lit(c) => node.(children := node.children[[c] := child])
  }

  lemma ChildAddedNode(nodes: seq<Node>, idx: nat, tok: Tok, i: nat)
    requires WellFormed(nodes) && idx < |nodes| && i <= |nodes|
    requires !HasChild(nodes[idx], tok)
    ensures NodeOk(nodes[idx := Linked(nodes[idx], tok, |nodes|)] + [Blank], i)
  {
    if i < |nodes| { assert NodeOk(nodes, i); }
  }

  /** A new child keeps what is single, and what cannot be merged. */
  lemma ChildAddedSettled(nodes: seq<Node>, idx: nat, tok: Tok, i: nat)
    requires WellFormed(nodes) && idx < |nodes| && i <= |nodes| && !HasChild(nodes[idx], tok)
    requires WellFormed(nodes[idx := Linked(nodes[idx], tok, |nodes|)] + [Blank])
    requires i < |nodes| ==> Single(nodes[i]) || !SimpleChildren(nodes, i)
    ensures var nodes' := nodes[idx := Linked(nodes[idx], tok, |nodes|)] + [Blank];
            && (Single(nodes'[i]) || !SimpleChildren(nodes', i))
            && (i < |nodes| && Single(nodes[i]) ==> Single(nodes'[i]))
  {
    var nodes' := nodes[idx := Linked(nodes[idx], tok, |nodes|)] + [Blank];
    if i < |nodes| && !SimpleChildren(nodes, i) {
      assert NodeOk(nodes, i) && NodeOk(nodes', i);
      var k :| k in nodes[i].children && !nodes[nodes[i].children[k]].IsSimple();
      var c := nodes[i].children[k];
      assert k in nodes'[i].children && nodes'[i].children[k] == c;
      LinkedNotSimple(nodes[c], tok, |nodes|);
    }
  }

  lemma LinkedNotSimple(node: Node, tok: Tok, child: nat)
    requires !node.IsSimple()
    ensures !Linked(node, tok, child).IsSimple()
  {
    if tok.Param? { assert tok.t in node.params[tok.t := child]; }
  }

  lemma ChildAddedPath(nodes: seq<Node>, paths: seq<seq<Tok>>, idx: nat, tok: Tok, i: nat)
    requires WellFormed(nodes) && PathsOk(nodes, paths) && idx < |nodes| && i <= |nodes|
    requires !HasChild(nodes[idx], tok)
    requires WellFormed(nodes[idx := Linked(nodes[idx], tok, |nodes|)] + [Blank])
    ensures NodePathsOk(nodes[idx := Linked(nodes[idx], tok, |nodes|)] + [Blank], paths + [paths[idx] + [tok]], i)
  {
    var paths' := paths + [paths[idx] + [tok]];
    assert tok.Lit? ==> Text([tok.c]) == [tok];
    if i < |nodes| {
      assert NodeOk(nodes, i) && NodePathsOk(nodes, paths, i);
      assert forall j | 0 <= j < |nodes| :: paths'[j] == paths[j];
    }
  }

  lemma BlankSingle()
    ensures Single(Blank)
  {
  }

  /** A node linked to a new blank node. */
  lemma ChildAdded(nodes: seq<Node>, paths: seq<seq<Tok>>, idx: nat, tok: Tok)
    requires WellFormed(nodes) && PathsOk(nodes, paths) && idx < |nodes|
    requires !HasChild(nodes[idx], tok)
    ensures var nodes' := nodes[idx := Linked(nodes[idx], tok, |nodes|)] + [Blank];
            && WellFormed(nodes') && Grown(nodes, nodes') && PathsOk(nodes', paths + [paths[idx] + [tok]])
            && (Settled(nodes) ==> Settled(nodes'))
            && ((forall i: nat | i < |nodes| :: Single(nodes[i])) ==> forall i: nat | i < |nodes'| :: Single(nodes'[i]))
  {
    hide NodePathsOk, NodeOk, SimpleChildren, Single;
    var nodes' := nodes[idx := Linked(nodes[idx], tok, |nodes|)] + [Blank];
    forall i: nat | i < |nodes'| ensures NodeOk(nodes', i) {
      ChildAddedNode(nodes, idx, tok, i);
    }
    assert Single(Blank) by { BlankSingle(); }
    if Settled(nodes) {
      forall i: nat | i < |nodes'| ensures Single(nodes'[i]) || !SimpleChildren(nodes', i) {
        ChildAddedSettled(nodes, idx, tok, i);
      }
    }
    if forall i: nat | i < |nodes| :: Single(nodes[i]) {
      forall i: nat | i < |nodes'| ensures Single(nodes'[i]) {
        ChildAddedSettled(nodes, idx, tok, i);
      }
    }
    forall i: nat | i < |nodes'| ensures NodePathsOk(nodes', paths + [paths[idx] + [tok]], i) {
      ChildAddedPath(nodes, paths, idx, tok, i);
    }
  }

  /** A new blank node changes no rule. */
  lemma HasGrown(nodes: seq<Node>, nodes': seq<Node>, toks: seq<Tok>, r: nat)
    requires WellFormed(nodes) && WellFormed(nodes') && Grown(nodes, nodes')
    ensures Has(nodes', 0, toks, r) <==> Has(nodes, 0, toks, r)
  {
    forall n: nat | n < |nodes| ensures Reach(nodes', 0, toks, n) <==> Reach(nodes, 0, toks, n) {
      ReachGrown(nodes, nodes', 0, toks, n);
    }
  }

  /** A rule at a node whose path is toks is the rule of toks. */
  lemma HasRuleSet(nodes: seq<Node>, paths: seq<seq<Tok>>, idx: nat, toks: seq<Tok>, rule: nat, ts: seq<Tok>, r: nat)
    requires WellFormed(nodes) && PathsOk(nodes, paths) && idx < |nodes|
    requires Reach(nodes, 0, toks, idx) && nodes[idx].ruleIndex == 0
    requires WellFormed(nodes[idx := nodes[idx].(ruleIndex := rule)])
    ensures Has(nodes[idx := nodes[idx].(ruleIndex := rule)], 0, ts, r)
            <==> Has(nodes, 0, ts, r) || (ts == toks && r == rule && r != 0)
  {
    var nodes' := nodes[idx := nodes[idx].(ruleIndex := rule)];
    forall n: nat ensures Reach(nodes', 0, ts, n) <==> Reach(nodes, 0, ts, n) {
      ReachFrame(nodes, nodes', 0, ts, n);
    }
    if Reach(nodes, 0, ts, idx) {
      ReachPath(nodes, paths, 0, ts, idx);
      ReachPath(nodes, paths, 0, toks, idx);
      assert [] + ts == ts && [] + toks == toks;
    }
    if Has(nodes', 0, ts, r) {
      var n: nat :| n < |nodes| && nodes'[n].ruleIndex == r && Reach(nodes', 0, ts, n);
      if n != idx { assert nodes[n].ruleIndex == r; }
    }
    if Has(nodes, 0, ts, r) {
      var n: nat :| n < |nodes| && nodes[n].ruleIndex == r && Reach(nodes, 0, ts, n);
      assert nodes'[n].ruleIndex == r;
    }
    if ts == toks && r == rule { assert nodes'[idx].ruleIndex == r; }
  }
}
