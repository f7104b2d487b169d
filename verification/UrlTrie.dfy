/** The URL trie: rules are added one character or tag at a time, `validate` merges
    edges, and `find` searches with backtracking. */
module UrlTrie {
  import opened Options
  import opened UrlPatterns
  import opened TrieNodes
  import opened TrieMerge
  import opened TrieSearch

  const PARAM_TYPES := [INT, UINT, DOUBLE, STRING, PATH]

  /** `routing_params`: grows and shrinks while the search goes down and back up. */
  class RoutingParams {
    var all: Params

    constructor ()
      ensures all == NoParams
    {
      all := NoParams;
    }
  }

  class Trie {
    var nodes: seq<Node>
    /** The token path of every node. */
    ghost var paths: seq<seq<Tok>>

    /** What holds before and after every call: rules may be added and edges merged in any order. */
    ghost predicate Valid()
      reads this
    {
      WellFormed(nodes) && PathsOk(nodes, paths) && Settled(nodes)
    }

    /** No edge has been merged: every edge is one character. */
    ghost predicate Building()
      reads this
    {
      forall i: nat | i < |nodes| :: Single(nodes[i])
    }

    constructor ()
      ensures Valid() && Building()
      ensures forall toks, r :: !Has(nodes, 0, toks, r)
    {
      nodes := [Blank];
      paths := [[]];
    }

    /** A new blank child of node idx, by a tag or a character. */
    method NewChild(idx: nat, tok: Tok) returns (child: nat)
      requires Valid() && idx < |nodes| && !HasChild(nodes[idx], tok)
      modifies this
      ensures Valid() && child == |old(nodes)| < |nodes| && Grown(old(nodes), nodes)
      ensures old(Building()) ==> Building()
      ensures HasChild(nodes[idx], tok) && Child(nodes[idx], tok) == child
    {
      hide NodePathsOk, NodeOk, Grown, Settled, Single;
      ChildAdded(nodes, paths, idx, tok);
      child := |nodes|;
      var node := nodes[idx];
      match tok {
        case Param(t) => node := node.(params := node.params[t := child]);
        case Lit(c) => node := node.(children := node.children[[c] := child]);
      }
      nodes := nodes[idx := node] + [Blank];
      paths := paths + [paths[idx] + [tok]];
    }

    /** The child of node idx for this token, created if it is missing. */
    method Descend(idx: nat, tok: Tok, ghost nodes0: seq<Node>, ghost done: seq<Tok>) returns (child: nat)
      requires Valid() && WellFormed(nodes0) && Extends(nodes0, nodes)
      requires idx < |nodes| && Reach(nodes, 0, done, idx) && WalkedTo(nodes0, done, idx)
      modifies this
      ensures Valid() && Extends(nodes0, nodes)
      ensures child < |nodes| && Reach(nodes, 0, done + [tok], child) && WalkedTo(nodes0, done + [tok], child)
      ensures old(Building()) ==> Building()
      ensures forall toks, r :: Has(nodes, 0, toks, r) <==> Has(old(nodes), 0, toks, r)
    {
      hide Reach, Has, Settled, Single, PathsOk, Extends, Grown;
      assert NodeOk(nodes, idx);
      if !HasChild(nodes[idx], tok) {
        child := NewChild(idx, tok);
        GrownExtends(nodes0, old(nodes), nodes);
        ReachGrown(old(nodes), nodes, 0, done, idx);
        forall toks, r ensures Has(nodes, 0, toks, r) <==> Has(old(nodes), 0, toks, r) {
          HasGrown(old(nodes), nodes, toks, r);
        }
      }
      child := Child(nodes[idx], tok);
      ReachOne(nodes, idx, tok, child);
      ReachAppend(nodes, 0, done, idx, [tok], child);
      WalkedOn(nodes0, nodes, done, idx, tok);
    }

    /** Adds a rule; refuses, as the code does by throwing, if these tokens lead one at a time to
        a node with a rule. Until edges are merged that is so exactly if the tokens have a rule. */
    method Add(url: string, ruleIndex: nat) returns (ok: bool)
      requires Valid() && Tokens(url, 0).Some?
      modifies this
      ensures Valid() && (old(Building()) ==> Building())
      ensures ok <==> !Taken(old(nodes), Tokens(url, 0).value)
      ensures !ok ==> exists r :: Has(old(nodes), 0, Tokens(url, 0).value, r)
      ensures old(Building()) ==> (ok <==> forall r :: !Has(old(nodes), 0, Tokens(url, 0).value, r))
      ensures forall toks, r ::
                Has(nodes, 0, toks, r) <==>
                Has(old(nodes), 0, toks, r) || (ok && toks == Tokens(url, 0).value && r == ruleIndex && r != 0)
    {
      hide Reach, Has, Text, Tokens, TagAt, WellFormed, PathsOk, Settled, Single, Extends, Walk;
      ghost var toks, nodes0 := Tokens(url, 0).value, nodes;
      var idx: nat := 0;
      ghost var done: seq<Tok> := [];
      RootReach(nodes);
      var i: nat := 0;
      while i < |url|
        invariant i <= |url| && Valid() && idx < |nodes| && (old(Building()) ==> Building())
        invariant Tokens(url, i).Some? && toks == done + Tokens(url, i).value
        invariant Reach(nodes, 0, done, idx) && Extends(nodes0, nodes) && WalkedTo(nodes0, done, idx)
        invariant forall ts, r :: Has(nodes, 0, ts, r) <==> Has(nodes0, 0, ts, r)
      {
        TokensStep(url, i);
        ghost var tail := Tokens(url, i).value;
        assert done + tail == done + [tail[0]] + tail[1..];
        if url[i] == '<' {
          var k := FindTag(url, i);
          idx := Descend(idx, Param(TAGS[k].1), nodes0, done);
          i := i + |TAGS[k].0| - 1;
        } else {
          idx := Descend(idx, Lit(url[i]), nodes0, done);
        }
        done := done + [tail[0]];
        i := i + 1;
      }
      TokensEnd(url);
      assert done == toks;
      WalkedTaken(nodes0, nodes, toks, idx);
      if Building() { HolderHas(nodes, toks, idx); }
      if nodes[idx].ruleIndex != 0 {
        HeldHere(nodes, toks, idx);
        return false;
      }
      RuleSet(nodes, paths, idx, toks, ruleIndex);
      nodes := nodes[idx := nodes[idx].(ruleIndex := ruleIndex)];
      ok := true;
    }

    /** Merges edges of the node and below wherever all children are simple. The floor
        is below every child of the node; it grows with each merge. */
    method OptimizeNode(node: nat, ghost floor: nat)
      requires WellFormed(nodes) && Mergeable(nodes) && node < floor <= |nodes|
      requires forall k | k in nodes[node].children :: floor <= nodes[node].children[k]
      modifies this`nodes
      ensures Optimized(old(nodes), nodes) && Touched(old(nodes), nodes) && AllCompact(nodes, node)
      ensures forall j | 0 <= j < node :: nodes[j] == old(nodes)[j]
      decreases |nodes| - node, |nodes| - floor + 1
    {
      hide Has, SimpleChildren, IsMerged, AllCompact, Mergeable, PathsOk, Touched, Compact;
      ghost var nodes0 := nodes;
      ghost var finished := OptimizeParams(node);
      if nodes[node].children == map[] {
        NoEdgesCompact(nodes, node);
        CompactHere(nodes, node, finished);
        return;
      }
      var mergeWithChild := AllSimple(nodes, node);
      if mergeWithChild {
        MergeableHere(nodes, node);
        var merged := MergeChildren(nodes, node);
        ghost var before := nodes;
        MergedFloor(nodes, node, merged, floor);
        MergedIsOptimized(nodes, node, merged);
        nodes := nodes[node := nodes[node].(children := merged)];
        FinishedKept(nodes0, before, nodes, {});
        ghost var once := nodes;
        OptimizeNode(node, floor + 1);
        FinishedKept(nodes0, once, nodes, {});
        AllCompactHere(nodes, node);
        TouchedAt(before, once, nodes, node);
        OptimizedTwice(before, once, nodes);
        TouchedTwice(nodes0, before, nodes);
      } else {
        ghost var before := nodes;
        SomeNotSimple(nodes, node);
        finished := OptimizeChildren(node, finished);
        FinishedKept(nodes0, before, nodes, {});
        CompactKept(before, nodes, node);
        CompactHere(nodes, node, finished);
        TouchedTwice(nodes0, before, nodes);
      }
    }

    method OptimizeParams(node: nat) returns (ghost finished: set<nat>)
      requires WellFormed(nodes) && Mergeable(nodes) && node < |nodes|
      modifies this`nodes
      ensures Optimized(old(nodes), nodes) && Touched(old(nodes), nodes) && Finished(nodes, finished)
      ensures forall j | 0 <= j <= node :: nodes[j] == old(nodes)[j]
      ensures nodes[node].params.Values <= finished
      decreases |nodes| - node, 0
    {
      hide Optimized, Finished, WellFormed, Touched, Mergeable;
      ghost var nodes0 := nodes;
      assert NodeOk(nodes, node) by { NodesOk(nodes); }
      var params := nodes[node].params;
      finished := {};
      NothingOptimized(nodes);
      for t := 0 to |PARAM_TYPES|
        invariant WellFormed(nodes) && Mergeable(nodes) && |nodes| == |nodes0|
        invariant Optimized(nodes0, nodes) && Touched(nodes0, nodes) && Finished(nodes, finished)
        invariant forall j | 0 <= j <= node :: nodes[j] == nodes0[j]
        invariant forall u | 0 <= u < t && PARAM_TYPES[u] in params :: params[PARAM_TYPES[u]] in finished
      {
        if PARAM_TYPES[t] in params {
          OptimizeChild(nodes0, params[PARAM_TYPES[t]], finished);
          finished := finished + {params[PARAM_TYPES[t]]};
        }
      }
      forall t | t in params ensures params[t] in finished {
        TypeListed(t);
      }
    }

    method OptimizeChildren(node: nat, ghost done: set<nat>) returns (ghost finished: set<nat>)
      requires WellFormed(nodes) && Mergeable(nodes) && node < |nodes| && Finished(nodes, done)
      modifies this`nodes
      ensures Optimized(old(nodes), nodes) && Touched(old(nodes), nodes) && Finished(nodes, finished)
      ensures done <= finished && forall j | 0 <= j <= node :: nodes[j] == old(nodes)[j]
      ensures nodes[node].children.Values <= finished
      decreases |nodes| - node, 0
    {
      hide Optimized, Finished, WellFormed, Touched, Mergeable;
      ghost var nodes0 := nodes;
      assert NodeOk(nodes, node) by { NodesOk(nodes); }
      var children := nodes[node].children;
      var keys := children.Keys;
      finished := done;
      NothingOptimized(nodes);
      while keys != {}
        invariant WellFormed(nodes) && Mergeable(nodes) && |nodes| == |nodes0|
        invariant Optimized(nodes0, nodes) && Touched(nodes0, nodes) && Finished(nodes, finished)
        invariant keys <= children.Keys && done <= finished
        invariant forall j | 0 <= j <= node :: nodes[j] == nodes0[j]
        invariant forall k | k in children && k !in keys :: children[k] in finished
        decreases |keys|
      {
        var k :| k in keys;
        OptimizeChild(nodes0, children[k], finished);
        finished := finished + {children[k]};
        keys := keys - {k};
      }
    }

    /** Optimizes one child, keeping what is finished already. */
    method OptimizeChild(ghost nodes0: seq<Node>, x: nat, ghost finished: set<nat>)
      requires WellFormed(nodes0) && WellFormed(nodes) && Optimized(nodes0, nodes) && Touched(nodes0, nodes)
      requires Mergeable(nodes) && Finished(nodes, finished) && x < |nodes|
      modifies this`nodes
      ensures WellFormed(nodes) && Optimized(nodes0, nodes) && Touched(nodes0, nodes) && Mergeable(nodes)
      ensures Finished(nodes, finished + {x})
      ensures |nodes| == |old(nodes)| && forall j | 0 <= j < x :: nodes[j] == old(nodes)[j]
      decreases |nodes| - x, |nodes| + 1
    {
      hide Has, Compact, AllCompact, Mergeable, PathsOk, Touched;
      assert NodeOk(nodes, x);
      OptimizeNode(x, x + 1);
      TouchedTwice(nodes0, old(nodes), nodes);
      FinishedKept(nodes0, old(nodes), nodes, finished);
    }

    /** The best rule for the URL from pos on, below a node. The parameters are as before
        when it returns. */
    method Find(num: Numbers, url: string, node: nat, pos: nat, params: RoutingParams)
      returns (found: nat, matchParams: Params)
      requires WellFormed(nodes) && node < |nodes| && pos <= |url|
      modifies params
      ensures params.all == old(params.all)
      ensures Best(nodes, num, node, url, pos, params.all, found, matchParams)
      decreases |nodes| - node, 2
    {
      hide Best, BestVia, ParamAt, Has, Match, Text;
      if pos == |url| {
        AtEnd(nodes, num, node, url, params.all);
        return nodes[node].ruleIndex, params.all;
      }
      found, matchParams := 0, NoParams;
      ghost var steps: set<FirstStep> := {};
      NoBranches(nodes, num, node, url, pos, params.all);
      for i := 0 to |PARAM_TYPES|
        invariant params.all == old(params.all)
        invariant BestVia(nodes, num, node, url, pos, params.all, steps, found, matchParams)
        invariant forall u | 0 <= u < i :: ByParam(PARAM_TYPES[u]) in steps
        invariant Here !in steps
      {
        var f, p := FindByParam(num, url, node, pos, PARAM_TYPES[i], params);
        BetterIsBest(nodes, num, node, url, pos, params.all, steps, found, matchParams, {ByParam(PARAM_TYPES[i])}, f,
                     p);
        if f != 0 && (found == 0 || found > f) { found, matchParams := f, p; }
        steps := steps + {ByParam(PARAM_TYPES[i])};
      }
      forall t ensures ByParam(t) in steps { TypeListed(t); }
      var children := nodes[node].children;
      var keys := children.Keys;
      while keys != {}
        invariant params.all == old(params.all) && keys <= children.Keys
        invariant BestVia(nodes, num, node, url, pos, params.all, steps, found, matchParams)
        invariant forall t :: ByParam(t) in steps
        invariant forall k | k in children && k !in keys :: ByEdge(k) in steps
        invariant Here !in steps
        decreases |keys|
      {
        var k :| k in keys;
        keys := keys - {k};
        var f, p := FindByEdge(num, url, node, pos, k, params);
        BetterIsBest(nodes, num, node, url, pos, params.all, steps, found, matchParams, {ByEdge(k)}, f, p);
        if f != 0 && (found == 0 || found > f) { found, matchParams := f, p; }
        steps := steps + {ByEdge(k)};
      }
      AllBranches(nodes, num, node, url, pos, params.all, steps, found, matchParams);
    }

    /** The branch of one parameter kind. */
    method FindByParam(num: Numbers, url: string, node: nat, pos: nat, t: ParamType, params: RoutingParams)
      returns (found: nat, matchParams: Params)
      requires WellFormed(nodes) && node < |nodes| && pos < |url|
      modifies params
      ensures params.all == old(params.all)
      ensures BestVia(nodes, num, node, url, pos, params.all, {ByParam(t)}, found, matchParams)
      decreases |nodes| - node, 1
    {
      hide Best, BestVia, ParamAt, Has, Match, Text;
      if t in nodes[node].params {
        assert NodeOk(nodes, node);
        var m := ScanParam(num, t, url, pos);
        if m.Some? {
          var v, end := m.value.0, m.value.1;
          PushPop(params.all, v);
          params.all := params.all.Push(v);
          found, matchParams := Find(num, url, nodes[node].params[t], end, params);
          params.all := params.all.Pop(v);
          ParamBranch(nodes, num, node, url, pos, params.all, t, v, end, found, matchParams);
          return;
        }
      }
      found, matchParams := 0, NoParams;
      NoParamBranch(nodes, num, node, url, pos, params.all, t);
    }

    /** The branch of one edge label. */
    method FindByEdge(num: Numbers, url: string, node: nat, pos: nat, k: string, params: RoutingParams)
      returns (found: nat, matchParams: Params)
      requires WellFormed(nodes) && node < |nodes| && pos <= |url| && k in nodes[node].children
      modifies params
      ensures params.all == old(params.all)
      ensures BestVia(nodes, num, node, url, pos, params.all, {ByEdge(k)}, found, matchParams)
      decreases |nodes| - node, 1
    {
      hide Best, BestVia, Has, Match, Text;
      if TextAt(url, pos, k) {
        assert NodeOk(nodes, node);
        found, matchParams := Find(num, url, nodes[node].children[k], pos + |k|, params);
        EdgeBranch(nodes, num, node, url, pos, params.all, k, found, matchParams);
        return;
      }
      found, matchParams := 0, NoParams;
      NoEdgeBranch(nodes, num, node, url, pos, params.all, k);
    }

    /** Merges edges everywhere; refuses, as the code does by throwing, when the head holds
        a rule or a parameter. */
    method Validate() returns (ok: bool)
      requires Valid()
      modifies this`nodes
      ensures Valid()
      ensures ok <==> old(nodes[0].IsSimple())
      ensures !ok ==> nodes == old(nodes)
      ensures ok ==> Optimized(old(nodes), nodes) && AllCompact(nodes, 0)
    {
      hide Has, Compact, AllCompact, Settled, PathsOk, Mergeable, Touched;
      if !nodes[0].IsSimple() { return false; }
      assert NodeOk(nodes, 0);
      SettledMergeable(nodes);
      OptimizeNode(0, 1);
      TouchedSettled(old(nodes), nodes);
      ok := true;
    }
  }

  /** Where a walk along the tokens in the nodes that were there before leads: to this node, or
      nowhere if it is a new one. */
  ghost predicate WalkedTo(nodes0: seq<Node>, done: seq<Tok>, idx: nat)
    requires |nodes0| > 0
  {
    match Walk(nodes0, 0, done)
    case None => idx >= |nodes0|
    case Some(n) => n == idx < |nodes0|
  }

  lemma WalkedOn(nodes0: seq<Node>, nodes: seq<Node>, done: seq<Tok>, idx: nat, tok: Tok)
    requires WellFormed(nodes0) && WellFormed(nodes) && Extends(nodes0, nodes)
    requires idx < |nodes| && WalkedTo(nodes0, done, idx) && HasChild(nodes[idx], tok)
    ensures WalkedTo(nodes0, done + [tok], Child(nodes[idx], tok))
  {
    hide Walk;
    assert NodeOk(nodes, idx);
    WalkOn(nodes0, 0, done, tok);
    if idx < |nodes0| { assert NodeOk(nodes0, idx) && NodeExtends(nodes0[idx], nodes[idx], |nodes0|); }
  }

  /** The tokens lead one at a time to a node with a rule. */
  ghost predicate Taken(nodes: seq<Node>, toks: seq<Tok>)
    requires WellFormed(nodes)
  {
    WalkReach(nodes, 0, toks);
    match Walk(nodes, 0, toks)
    case None => false
    case Some(n) => nodes[n].ruleIndex != 0
  }

  lemma WalkedTaken(nodes0: seq<Node>, nodes: seq<Node>, toks: seq<Tok>, idx: nat)
    requires WellFormed(nodes0) && Extends(nodes0, nodes) && idx < |nodes| && WalkedTo(nodes0, toks, idx)
    ensures nodes[idx].ruleIndex != 0 <==> Taken(nodes0, toks)
  {
    hide Walk;
    if idx < |nodes0| { assert NodeExtends(nodes0[idx], nodes[idx], |nodes0|); }
  }

  /** The rule "/a" when its edges are merged. */
  const MERGED_RULE := [Node(0, map[], map["/a" := 2]), Node(0, map[], map["a" := 2]), Node(2, map[], map[])]

  lemma MergedRuleOk()
    ensures WellFormed(MERGED_RULE) && Settled(MERGED_RULE)
  {
    var nodes := MERGED_RULE;
    forall i: nat | i < |nodes| ensures NodeOk(nodes, i) {
      assert i == 0 || i == 1 || i == 2;
    }
    assert "/a" in nodes[0].children && !nodes[2].IsSimple();
    forall i: nat | i < |nodes| ensures Single(nodes[i]) || !SimpleChildren(nodes, i) {
      assert i == 0 || i == 1 || i == 2;
    }
  }

  /** It is held, but adding the same rule once more is not refused. */
  lemma MergedRuleNotTaken()
    ensures WellFormed(MERGED_RULE) && Settled(MERGED_RULE)
    ensures var toks := [Lit('/'), Lit('a')]; Has(MERGED_RULE, 0, toks, 2) && !Taken(MERGED_RULE, toks)
  {
    hide Reach, Has, WellFormed, NodeOk, Settled;
    var nodes, toks := MERGED_RULE, [Lit('/'), Lit('a')];
    MergedRuleOk();
    HereHas(nodes, 2, [], 2);
    assert Text("/a") == toks && toks[2..] == [];
    assert HasEdge(nodes, 0, "/a", toks, 2);
    HasViaEdge(nodes, 0, "/a", toks, 2);
    assert |"/a"| == 2 && ['/'] !in nodes[0].children;
  }

  lemma HeldHere(nodes: seq<Node>, toks: seq<Tok>, idx: nat)
    requires WellFormed(nodes) && idx < |nodes| && Reach(nodes, 0, toks, idx) && nodes[idx].ruleIndex != 0
    ensures Has(nodes, 0, toks, nodes[idx].ruleIndex)
  {
    hide Reach;
  }

  lemma NoEdgesCompact(nodes: seq<Node>, i: nat)
    requires WellFormed(nodes) && i < |nodes| && nodes[i].children == map[]
    ensures Compact(nodes, i)
  {
  }

  lemma MergeableHere(nodes: seq<Node>, i: nat)
    requires WellFormed(nodes) && i < |nodes| && Mergeable(nodes) && SimpleChildren(nodes, i)
    ensures PrefixFree(nodes[i].children.Keys)
  {
    hide PrefixFree, SimpleChildren;
  }

  lemma SomeNotSimple(nodes: seq<Node>, i: nat)
    requires WellFormed(nodes) && i < |nodes| && !SimpleChildren(nodes, i)
    ensures Compact(nodes, i)
  {
    hide SimpleChildren;
  }

  lemma AllCompactHere(nodes: seq<Node>, i: nat)
    requires WellFormed(nodes) && i < |nodes| && AllCompact(nodes, i)
    ensures Compact(nodes, i)
  {
    hide Compact;
  }

  lemma NodesOk(nodes: seq<Node>)
    requires WellFormed(nodes)
    ensures forall i: nat | i < |nodes| :: NodeOk(nodes, i)
  {
  }

  lemma NothingOptimized(nodes: seq<Node>)
    requires WellFormed(nodes)
    ensures Optimized(nodes, nodes) && Touched(nodes, nodes) && Finished(nodes, {})
  {
  }

  method AllSimple(nodes: seq<Node>, node: nat) returns (all: bool)
    requires WellFormed(nodes) && node < |nodes|
    ensures all <==> SimpleChildren(nodes, node)
  {
    assert NodeOk(nodes, node);
    var keys := nodes[node].children.Keys;
    while keys != {}
      invariant keys <= nodes[node].children.Keys
      invariant forall k | k in nodes[node].children && k !in keys :: nodes[nodes[node].children[k]].IsSimple()
      decreases |keys|
    {
      var k :| k in keys;
      if !nodes[nodes[node].children[k]].IsSimple() { return false; }
      keys := keys - {k};
    }
    all := true;
  }

  /** The merged edges; no label is written twice. */
  method MergeChildren(nodes: seq<Node>, node: nat) returns (merged: map<string, nat>)
    requires WellFormed(nodes) && node < |nodes| && PrefixFree(nodes[node].children.Keys)
    ensures IsMerged(nodes, node, merged)
  {
    hide PrefixFree;
    assert NodeOk(nodes, node);
    ghost var done := {};
    merged := map[];
    var keys := nodes[node].children.Keys;
    while keys != {}
      invariant keys <= nodes[node].children.Keys && MergedSoFar(nodes, node, done, merged)
      invariant forall k, l :: (k, l) in done <==> Grandchild(nodes, node, k, l) && k !in keys
      decreases |keys|
    {
      var k :| k in keys;
      keys := keys - {k};
      var child := nodes[node].children[k];
      var childKeys := nodes[child].children.Keys;
      ghost var before := done;
      while childKeys != {}
        invariant childKeys <= nodes[child].children.Keys && MergedSoFar(nodes, node, done, merged)
        invariant forall k', l ::
                    (k', l) in done <==> (k', l) in before || (k' == k && l in nodes[child].children && l !in childKeys)
        decreases |childKeys|
      {
        var l :| l in childKeys;
        childKeys := childKeys - {l};
        MergeOneMore(nodes, node, done, merged, k, l);
        merged := merged[k + l := nodes[child].children[l]];
        done := done + {(k, l)};
      }
    }
  }

  /** The parameter of one kind at a position, as the code scans it. */
  method ScanParam(num: Numbers, t: ParamType, url: string, pos: nat) returns (m: Option<(ParamValue, nat)>)
    requires pos < |url|
    ensures m == ParamAt(num, t, url, pos)
  {
    if t == STRING {
      var epos := pos;
      while epos < |url| && url[epos] != '/'
        invariant pos <= epos <= |url| && SegmentEnd(url, pos) == SegmentEnd(url, epos)
      {
        epos := epos + 1;
      }
      m := if epos != pos then Some((StringV(url[pos..epos]), epos)) else None;
    } else {
      m := ParamAt(num, t, url, pos);
    }
  }

  lemma PushPop(ps: Params, v: ParamValue)
    ensures ps.Push(v).Pop(v) == ps
  {
    match v
    case IntV(i) => assert (ps.ints + [i])[..|ps.ints|] == ps.ints;
    case UintV(u) => assert (ps.uints + [u])[..|ps.uints|] == ps.uints;
    case DoubleV(d) => assert (ps.doubles + [d])[..|ps.doubles|] == ps.doubles;
    case StringV(s) => assert (ps.strings + [s])[..|ps.strings|] == ps.strings;
  }

  lemma TypeListed(t: ParamType)
    ensures exists u | 0 <= u < |PARAM_TYPES| :: PARAM_TYPES[u] == t
  {
    var u: nat := if t == INT then 0 else if t == UINT then 1 else if t == DOUBLE then 2 else if t == STRING then 3
        else 4;
    assert PARAM_TYPES[u] == t;
  }

  /** The tag that stands at a position of a rule. */
  method FindTag(url: string, i: nat) returns (k: nat)
    requires TagAt(url, i, 0).Some?
    ensures TagAt(url, i, 0) == Some(k) && k < |TAGS|
  {
    k := 0;
    while k < |TAGS| && !TextAt(url, i, TAGS[k].0)
      invariant k <= |TAGS| && TagAt(url, i, 0) == TagAt(url, i, k)
    {
      k := k + 1;
    }
  }

  lemma TokensStep(url: string, i: nat)
    requires i < |url| && Tokens(url, i).Some?
    ensures var toks := Tokens(url, i).value;
            && toks != []
            && if url[i] == '<' then
                 && TagAt(url, i, 0).Some?
                 && var tag := TAGS[TagAt(url, i, 0).value];
                    && i + |tag.0| <= |url| && |tag.0| > 0
                    && toks[0] == Param(tag.1) && Tokens(url, i + |tag.0|) == Some(toks[1..])
               else toks[0] == Lit(url[i]) && Tokens(url, i + 1) == Some(toks[1..])
  {
    TagsAreTags();
  }

  lemma TokensEnd(url: string)
    ensures Tokens(url, |url|) == Some([])
  {
  }

  lemma RuleSet(nodes: seq<Node>, paths: seq<seq<Tok>>, idx: nat, toks: seq<Tok>, rule: nat)
    requires WellFormed(nodes) && PathsOk(nodes, paths) && idx < |nodes|
    requires Reach(nodes, 0, toks, idx) && nodes[idx].ruleIndex == 0
    ensures var nodes' := nodes[idx := nodes[idx].(ruleIndex := rule)];
            && WellFormed(nodes') && PathsOk(nodes', paths) && (Settled(nodes) ==> Settled(nodes'))
            && (forall i: nat | i < |nodes| :: Single(nodes'[i]) <==> Single(nodes[i]))
            && forall ts, r :: Has(nodes', 0, ts, r) <==> Has(nodes, 0, ts, r) || (ts == toks && r == rule && r != 0)
  {
    hide Has, Reach;
    var nodes' := nodes[idx := nodes[idx].(ruleIndex := rule)];
    forall j: nat | j < |nodes| ensures NodeOk(nodes', j) {
      assert NodeOk(nodes, j);
    }
    forall j: nat | j < |nodes| ensures NodePathsOk(nodes', paths, j) {
      assert NodeOk(nodes, j) && NodePathsOk(nodes, paths, j);
    }
    if Settled(nodes) { RuleSettled(nodes, idx, rule); }
    forall ts, r ensures Has(nodes', 0, ts, r) <==> Has(nodes, 0, ts, r) || (ts == toks && r == rule && r != 0) {
      HasRuleSet(nodes, paths, idx, toks, rule, ts, r);
    }
  }

  lemma RuleSettled(nodes: seq<Node>, idx: nat, rule: nat)
    requires WellFormed(nodes) && Settled(nodes) && idx < |nodes| && nodes[idx].ruleIndex == 0
    requires WellFormed(nodes[idx := nodes[idx].(ruleIndex := rule)])
    ensures Settled(nodes[idx := nodes[idx].(ruleIndex := rule)])
  {
    var nodes' := nodes[idx := nodes[idx].(ruleIndex := rule)];
    forall i: nat | i < |nodes'| ensures Single(nodes'[i]) || !SimpleChildren(nodes', i) {
      assert NodeOk(nodes, i);
      if !SimpleChildren(nodes, i) {
        var k :| k in nodes[i].children && !nodes[nodes[i].children[k]].IsSimple();
        assert !nodes'[nodes'[i].children[k]].IsSimple();
      }
    }
  }

  lemma RootReach(nodes: seq<Node>)
    requires WellFormed(nodes)
    ensures |nodes| > 0 && Reach(nodes, 0, [], 0) && Extends(nodes, nodes) && WalkedTo(nodes, [], 0)
  {
  }

  /** The rule of the node that the tokens reach is the only rule of the tokens. */
  lemma HolderHas(nodes: seq<Node>, toks: seq<Tok>, idx: nat)
    requires WellFormed(nodes) && idx < |nodes| && Reach(nodes, 0, toks, idx)
    requires forall i: nat | i < |nodes| :: Single(nodes[i])
    ensures forall r :: Has(nodes, 0, toks, r) <==> r != 0 && nodes[idx].ruleIndex == r
  {
    forall i: nat | i < |nodes| ensures PrefixFree(nodes[i].children.Keys) { SinglePrefixFree(nodes[i]); }
    forall n: nat | Reach(nodes, 0, toks, n) ensures n == idx {
      ReachUnique(nodes, 0, toks, n, idx);
    }
  }
}
