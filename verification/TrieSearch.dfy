/** What a search of the trie must answer, and how the answers of the branches combine. */
module TrieSearch {
  import opened Options
  import opened UrlPatterns
  import opened TrieNodes

  /** The trie holds rule r for some tokens that match the rest of the URL with these parameters. */
  ghost predicate Finds(nodes: seq<Node>, num: Numbers, i: nat, url: string, pos: nat, ps: Params,
                        toks: seq<Tok>, r: nat, out: Params)
    requires WellFormed(nodes) && i < |nodes| && pos <= |url|
  {
    Has(nodes, i, toks, r) && Match(num, toks, url, pos, ps) == Some(out)
  }

  /** The smallest rule that matches, with the parameters of one of its matches; 0 if none does. */
  ghost predicate Best(nodes: seq<Node>, num: Numbers, i: nat, url: string, pos: nat, ps: Params,
                       found: nat, out: Params)
    requires WellFormed(nodes) && i < |nodes| && pos <= |url|
  {
    && (forall toks: seq<Tok>, r: nat, o | Finds(nodes, num, i, url, pos, ps, toks, r, o) :: 0 < found <= r)
    && (found != 0 ==> exists toks :: Finds(nodes, num, i, url, pos, ps, toks, found, out))
  }

  /** The same for the rules held behind one first step. */
  ghost predicate Via(nodes: seq<Node>, i: nat, f: FirstStep, toks: seq<Tok>, r: nat)
    requires WellFormed(nodes) && i < |nodes|
  {
    match f
    case Here => toks == [] && nodes[i].ruleIndex == r && r != 0
    case ByParam(t) => HasParam(nodes, i, t, toks, r)
    case ByEdge(k) => HasEdge(nodes, i, k, toks, r)
  }

  ghost predicate FindsVia(nodes: seq<Node>, num: Numbers, i: nat, url: string, pos: nat, ps: Params,
                           f: FirstStep, toks: seq<Tok>, r: nat, out: Params)
    requires WellFormed(nodes) && i < |nodes| && pos <= |url|
  {
    Via(nodes, i, f, toks, r) && Match(num, toks, url, pos, ps) == Some(out)
  }

  ghost predicate BestVia(nodes: seq<Node>, num: Numbers, i: nat, url: string, pos: nat, ps: Params,
                          steps: set<FirstStep>, found: nat, out: Params)
    requires WellFormed(nodes) && i < |nodes| && pos <= |url|
  {
    && (forall f, toks, r, o | f in steps && FindsVia(nodes, num, i, url, pos, ps, f, toks, r, o) :: 0 < found <= r)
    && (found != 0 ==> exists f, toks :: f in steps && FindsVia(nodes, num, i, url, pos, ps, f, toks, found, out))
  }

  /** What `update_found` keeps of two answers. */
  function Better(found: nat, out: Params, found': nat, out': Params): (nat, Params) {
    if found' != 0 && (found == 0 || found > found') then (found', out') else (found, out)
  }

  lemma NoBranches(nodes: seq<Node>, num: Numbers, i: nat, url: string, pos: nat, ps: Params)
    requires WellFormed(nodes) && i < |nodes| && pos <= |url|
    ensures BestVia(nodes, num, i, url, pos, ps, {}, 0, NoParams)
  {
  }

  lemma BetterIsBest(nodes: seq<Node>, num: Numbers, i: nat, url: string, pos: nat, ps: Params,
                     steps: set<FirstStep>, found: nat, out: Params, steps': set<FirstStep>, found': nat, out': Params)
    requires WellFormed(nodes) && i < |nodes| && pos <= |url|
    requires BestVia(nodes, num, i, url, pos, ps, steps, found, out)
    requires BestVia(nodes, num, i, url, pos, ps, steps', found', out')
    ensures var b := Better(found, out, found', out');
            BestVia(nodes, num, i, url, pos, ps, steps + steps', b.0, b.1)
  {
    hide FindsVia, WellFormed;
  }

  /** A parameter branch: the child's answer from the end of the parameter. */
  lemma ParamBranch(nodes: seq<Node>, num: Numbers, i: nat, url: string, pos: nat, ps: Params, t: ParamType,
                    v: ParamValue, end: nat, found: nat, out: Params)
    requires WellFormed(nodes) && i < |nodes| && pos < |url| && t in nodes[i].params
    requires ParamAt(num, t, url, pos) == Some((v, end))
    requires nodes[i].params[t] < |nodes|
    requires Best(nodes, num, nodes[i].params[t], url, end, ps.Push(v), found, out)
    ensures BestVia(nodes, num, i, url, pos, ps, {ByParam(t)}, found, out)
  {
    hide Has, WellFormed, ParamAt;
    var child := nodes[i].params[t];
    forall toks: seq<Tok>, r: nat, o | FindsVia(nodes, num, i, url, pos, ps, ByParam(t), toks, r, o)
      ensures 0 < found <= r {
      assert Finds(nodes, num, child, url, end, ps.Push(v), toks[1..], r, o);
    }
    if found != 0 {
      var toks :| Finds(nodes, num, child, url, end, ps.Push(v), toks, found, out);
      var all := [Param(t)] + toks;
      assert all[1..] == toks;
      assert FindsVia(nodes, num, i, url, pos, ps, ByParam(t), all, found, out);
    }
  }

  /** A parameter branch that is missing, or whose parameter does not match. */
  lemma NoParamBranch(nodes: seq<Node>, num: Numbers, i: nat, url: string, pos: nat, ps: Params, t: ParamType)
    requires WellFormed(nodes) && i < |nodes| && pos < |url|
    requires t !in nodes[i].params || ParamAt(num, t, url, pos) == None
    ensures BestVia(nodes, num, i, url, pos, ps, {ByParam(t)}, 0, NoParams)
  {
    hide Has, WellFormed, ParamAt;
  }

  lemma EdgeBranch(nodes: seq<Node>, num: Numbers, i: nat, url: string, pos: nat, ps: Params, k: string,
                   found: nat, out: Params)
    requires WellFormed(nodes) && i < |nodes| && pos <= |url| && k in nodes[i].children
    requires TextAt(url, pos, k) && nodes[i].children[k] < |nodes|
    requires Best(nodes, num, nodes[i].children[k], url, pos + |k|, ps, found, out)
    ensures BestVia(nodes, num, i, url, pos, ps, {ByEdge(k)}, found, out)
  {
    hide Has, WellFormed, Match, Text;
    var child := nodes[i].children[k];
    forall toks: seq<Tok>, r: nat, o | FindsVia(nodes, num, i, url, pos, ps, ByEdge(k), toks, r, o)
      ensures 0 < found <= r {
      assert toks == Text(k) + toks[|k|..];
      MatchText(num, k, toks[|k|..], url, pos, ps);
      assert Finds(nodes, num, child, url, pos + |k|, ps, toks[|k|..], r, o);
    }
    if found != 0 {
      var toks :| Finds(nodes, num, child, url, pos + |k|, ps, toks, found, out);
      var all := Text(k) + toks;
      assert all[|k|..] == toks;
      MatchText(num, k, toks, url, pos, ps);
      assert FindsVia(nodes, num, i, url, pos, ps, ByEdge(k), all, found, out);
    }
  }

  lemma NoEdgeBranch(nodes: seq<Node>, num: Numbers, i: nat, url: string, pos: nat, ps: Params, k: string)
    requires WellFormed(nodes) && i < |nodes| && pos <= |url|
    requires !TextAt(url, pos, k)
    ensures BestVia(nodes, num, i, url, pos, ps, {ByEdge(k)}, 0, NoParams)
  {
    hide Has, WellFormed, Match, Text;
    forall toks: seq<Tok>, r: nat, o | FindsVia(nodes, num, i, url, pos, ps, ByEdge(k), toks, r, o) ensures false {
      assert toks == Text(k) + toks[|k|..];
      MatchText(num, k, toks[|k|..], url, pos, ps);
    }
  }

  /** Before the end of the URL the parameter and edge branches are all there is. */
  lemma AllBranches(nodes: seq<Node>, num: Numbers, i: nat, url: string, pos: nat, ps: Params,
                    steps: set<FirstStep>, found: nat, out: Params)
    requires WellFormed(nodes) && i < |nodes| && pos < |url|
    requires BestVia(nodes, num, i, url, pos, ps, steps, found, out)
    requires forall t :: ByParam(t) in steps
    requires forall k | k in nodes[i].children :: ByEdge(k) in steps
    requires Here !in steps
    ensures Best(nodes, num, i, url, pos, ps, found, out)
  {
    hide Has, WellFormed, Text;
    forall toks: seq<Tok>, r: nat, o | Finds(nodes, num, i, url, pos, ps, toks, r, o) ensures 0 < found <= r {
      HasStep(nodes, i, toks, r);
      if toks[0].Param? && HasParam(nodes, i, toks[0].t, toks, r) {
        assert FindsVia(nodes, num, i, url, pos, ps, ByParam(toks[0].t), toks, r, o);
      } else {
        var k :| HasEdge(nodes, i, k, toks, r);
        assert FindsVia(nodes, num, i, url, pos, ps, ByEdge(k), toks, r, o);
      }
    }
    if found != 0 {
      var f, toks :| f in steps && FindsVia(nodes, num, i, url, pos, ps, f, toks, found, out);
      HasStep(nodes, i, toks, found);
      assert Finds(nodes, num, i, url, pos, ps, toks, found, out);
    }
  }

  /** At the end of the URL the node's own rule is the answer. */
  lemma AtEnd(nodes: seq<Node>, num: Numbers, i: nat, url: string, ps: Params)
    requires WellFormed(nodes) && i < |nodes|
    ensures Best(nodes, num, i, url, |url|, ps, nodes[i].ruleIndex, ps)
  {
    hide Has, Text;
    forall toks: seq<Tok>, r: nat, o | Finds(nodes, num, i, url, |url|, ps, toks, r, o)
      ensures r == nodes[i].ruleIndex != 0 {
      HasStep(nodes, i, toks, r);
      assert toks == [] && NodeOk(nodes, i);
      assert forall k | k in nodes[i].children :: |Text(k)| == |k| > 0;
    }
    if nodes[i].ruleIndex != 0 {
      HasStep(nodes, i, [], nodes[i].ruleIndex);
      assert Finds(nodes, num, i, url, |url|, ps, [], nodes[i].ruleIndex, ps);
    }
  }
}
