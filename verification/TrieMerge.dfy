/** What merging a node's edges with those of its children keeps: every rule of every node. */
module TrieMerge {
  import opened UrlPatterns
  import opened TrieNodes

  /** The edges of all children of node i, each label prolonged by the label above it. */
  ghost predicate IsMerged(nodes: seq<Node>, i: nat, merged: map<string, nat>)
    requires WellFormed(nodes) && i < |nodes|
  {
    && (forall k, l | Grandchild(nodes, i, k, l) :: k + l in merged && merged[k + l] == GrandchildAt(nodes, i, k, l))
    && (forall m | m in merged :: exists k, l :: Grandchild(nodes, i, k, l) && m == k + l)
  }

  ghost predicate Grandchild(nodes: seq<Node>, i: nat, k: string, l: string)
    requires WellFormed(nodes) && i < |nodes|
  {
    assert NodeOk(nodes, i);
    k in nodes[i].children && l in nodes[nodes[i].children[k]].children
  }

  ghost function GrandchildAt(nodes: seq<Node>, i: nat, k: string, l: string): (c: nat)
    requires WellFormed(nodes) && i < |nodes| && Grandchild(nodes, i, k, l)
    ensures nodes[i].children[k] < c < |nodes|
  {
    assert NodeOk(nodes, i);
    var c := nodes[i].children[k];
    assert NodeOk(nodes, c);
    nodes[c].children[l]
  }

  lemma HeadsComparable(k: string, l: string, k': string, l': string)
    requires k + l <= k' + l'
    ensures k <= k' || k' <= k
  {
    var n := if |k| <= |k'| then |k| else |k'|;
    assert k[..n] == (k + l)[..n] == (k' + l')[..n] == k'[..n];
  }

  /** Two merged labels of which one is a prefix of the other come from the same edge of the
      node, and from the same edge of the child if its labels are prefix-free too. */
  lemma MergedLabels(nodes: seq<Node>, i: nat, k: string, l: string, k': string, l': string)
    requires WellFormed(nodes) && i < |nodes| && PrefixFree(nodes[i].children.Keys)
    requires Grandchild(nodes, i, k, l) && Grandchild(nodes, i, k', l') && k + l <= k' + l'
    ensures k == k' && l <= l' && nodes[i].children[k] < |nodes|
    ensures PrefixFree(nodes[nodes[i].children[k]].children.Keys) ==> l == l'
  {
    assert NodeOk(nodes, i) && NodeOk(nodes, nodes[i].children[k]);
    HeadsComparable(k, l, k', l');
    assert l == (k + l)[|k|..] && l' == (k' + l')[|k|..];
  }

  /** A node whose edges may be merged has prefix-free labels. */
  ghost predicate Mergeable(nodes: seq<Node>)
    requires WellFormed(nodes)
  {
    forall i: nat | i < |nodes| :: PrefixFree(nodes[i].children.Keys) || !SimpleChildren(nodes, i)
  }

  lemma SettledMergeable(nodes: seq<Node>)
    requires WellFormed(nodes) && Settled(nodes)
    ensures Mergeable(nodes)
  {
    hide PrefixFree, SimpleChildren, Single;
    forall i: nat | i < |nodes| ensures PrefixFree(nodes[i].children.Keys) || !SimpleChildren(nodes, i) {
      if Single(nodes[i]) { SinglePrefixFree(nodes[i]); }
    }
  }

  /** The merged edges of some of the grandchildren. */
  ghost predicate MergedSoFar(nodes: seq<Node>, i: nat, done: set<(string, string)>, merged: map<string, nat>)
    requires WellFormed(nodes) && i < |nodes|
  {
    && (forall k, l | (k, l) in done ::
          Grandchild(nodes, i, k, l) && k + l in merged && merged[k + l] == GrandchildAt(nodes, i, k, l))
    && (forall m | m in merged :: exists k, l :: (k, l) in done && m == k + l)
  }

  lemma SameTails(k: string, l: string, l': string)
    requires k + l == k + l'
    ensures l == l'
  {
    assert (k + l)[|k|..] == l && (k + l')[|k|..] == l';
  }

  lemma MergeOneMore(nodes: seq<Node>, i: nat, done: set<(string, string)>, merged: map<string, nat>,
                     k: string, l: string)
    requires WellFormed(nodes) && i < |nodes| && MergedSoFar(nodes, i, done, merged)
    requires Grandchild(nodes, i, k, l) && (k, l) !in done && PrefixFree(nodes[i].children.Keys)
    ensures k + l !in merged
    ensures MergedSoFar(nodes, i, done + {(k, l)}, merged[k + l := GrandchildAt(nodes, i, k, l)])
  {
    hide PrefixFree, WellFormed;
    if k + l in merged {
      var k', l' :| (k', l') in done && k + l == k' + l';
      MergedLabels(nodes, i, k, l, k', l');
      SameTails(k, l, l');
      assert false;
    }
    var done', merged' := done + {(k, l)}, merged[k + l := GrandchildAt(nodes, i, k, l)];
    forall m | m in merged' ensures exists k', l' :: (k', l') in done' && m == k' + l' {
      if m != k + l {
        var k', l' :| (k', l') in done && m == k' + l';
        assert (k', l') in done';
      } else {
        assert (k, l) in done';
      }
    }
  }

  lemma MergedOk(nodes: seq<Node>, i: nat, merged: map<string, nat>)
    requires WellFormed(nodes) && i < |nodes| && IsMerged(nodes, i, merged)
    ensures WellFormed(nodes[i := nodes[i].(children := merged)])
  {
    var nodes' := nodes[i := nodes[i].(children := merged)];
    forall m | m in merged ensures i < merged[m] < |nodes| && m != [] {
      var k, l :| Grandchild(nodes, i, k, l) && m == k + l;
      assert NodeOk(nodes, i) && GrandchildAt(nodes, i, k, l) == merged[m];
    }
    forall j: nat | j < |nodes| ensures NodeOk(nodes', j) {
      assert NodeOk(nodes, j);
    }
  }

  /** Merged labels are prefix-free, or below them is a node that cannot be merged away. */
  lemma MergedMergeable(nodes: seq<Node>, i: nat, merged: map<string, nat>)
    requires WellFormed(nodes) && i < |nodes| && IsMerged(nodes, i, merged)
    requires Mergeable(nodes) && SimpleChildren(nodes, i)
    requires WellFormed(nodes[i := nodes[i].(children := merged)])
    ensures Mergeable(nodes[i := nodes[i].(children := merged)])
  {
    hide PrefixFree, SimpleChildren;
    var nodes' := nodes[i := nodes[i].(children := merged)];
    forall j: nat | j < |nodes| ensures PrefixFree(nodes'[j].children.Keys) || !SimpleChildren(nodes', j) {
      if j != i {
        SameSimple(nodes, nodes', j);
      } else if SimpleChildren(nodes', i) {
        MergedPrefixFree(nodes, i, merged);
      }
    }
  }

  lemma SameSimple(nodes: seq<Node>, nodes': seq<Node>, j: nat)
    requires WellFormed(nodes) && WellFormed(nodes') && |nodes'| == |nodes| && j < |nodes|
    requires nodes'[j] == nodes[j]
    requires forall m: nat | m < |nodes| :: nodes'[m].IsSimple() == nodes[m].IsSimple()
    ensures SimpleChildren(nodes', j) == SimpleChildren(nodes, j)
  {
    assert NodeOk(nodes, j);
  }

  lemma MergedPrefixFree(nodes: seq<Node>, i: nat, merged: map<string, nat>)
    requires WellFormed(nodes) && i < |nodes| && IsMerged(nodes, i, merged)
    requires Mergeable(nodes) && SimpleChildren(nodes, i)
    requires WellFormed(nodes[i := nodes[i].(children := merged)])
    requires SimpleChildren(nodes[i := nodes[i].(children := merged)], i)
    ensures PrefixFree(merged.Keys)
  {
    forall m, m' | m in merged && m' in merged && m <= m' ensures m == m' {
      var k, l :| Grandchild(nodes, i, k, l) && m == k + l;
      var k', l' :| Grandchild(nodes, i, k', l') && m' == k' + l';
      ChildMergeable(nodes, i, merged, k);
      MergedLabels(nodes, i, k, l, k', l');
    }
  }

  /** If the merged edges all lead to simple nodes, so did those of each child. */
  lemma ChildMergeable(nodes: seq<Node>, i: nat, merged: map<string, nat>, k: string)
    requires WellFormed(nodes) && i < |nodes| && IsMerged(nodes, i, merged)
    requires Mergeable(nodes) && k in nodes[i].children && nodes[i].children[k] < |nodes|
    requires WellFormed(nodes[i := nodes[i].(children := merged)])
    requires SimpleChildren(nodes[i := nodes[i].(children := merged)], i)
    ensures PrefixFree(nodes[nodes[i].children[k]].children.Keys)
  {
    hide PrefixFree;
    assert NodeOk(nodes, i);
    var c := nodes[i].children[k];
    assert NodeOk(nodes, c);
    forall l | l in nodes[c].children ensures nodes[nodes[c].children[l]].IsSimple() {
      assert Grandchild(nodes, i, k, l) && GrandchildAt(nodes, i, k, l) == nodes[c].children[l];
      var m := merged[k + l];
      assert k + l in nodes[i := nodes[i].(children := merged)][i].children;
      assert m == nodes[c].children[l] && m > i && nodes[i := nodes[i].(children := merged)][m] == nodes[m];
    }
  }

  /** Merged edges lead along the same paths. */
  lemma MergedPaths(nodes: seq<Node>, i: nat, merged: map<string, nat>, paths: seq<seq<Tok>>)
    requires WellFormed(nodes) && i < |nodes| && IsMerged(nodes, i, merged) && PathsOk(nodes, paths)
    requires WellFormed(nodes[i := nodes[i].(children := merged)])
    ensures PathsOk(nodes[i := nodes[i].(children := merged)], paths)
  {
    hide Text;
    var nodes' := nodes[i := nodes[i].(children := merged)];
    forall j: nat | j < |nodes| ensures NodePathsOk(nodes', paths, j) {
      assert NodePathsOk(nodes, paths, j) && NodeOk(nodes', j);
      if j == i {
        forall m | m in merged ensures paths[merged[m]] == paths[i] + Text(m) {
          var k, l :| Grandchild(nodes, i, k, l) && m == k + l;
          MergedPath(nodes, i, merged, paths, k, l);
        }
      }
    }
  }

  lemma MergedPath(nodes: seq<Node>, i: nat, merged: map<string, nat>, paths: seq<seq<Tok>>, k: string, l: string)
    requires WellFormed(nodes) && i < |nodes| && IsMerged(nodes, i, merged) && PathsOk(nodes, paths)
    requires Grandchild(nodes, i, k, l)
    ensures paths[merged[k + l]] == paths[i] + Text(k + l)
  {
    hide Text;
    assert NodeOk(nodes, i) && NodePathsOk(nodes, paths, i);
    var c := nodes[i].children[k];
    assert NodeOk(nodes, c) && NodePathsOk(nodes, paths, c);
    assert merged[k + l] == GrandchildAt(nodes, i, k, l) == nodes[c].children[l];
    TextOfBoth(k, l);
    assert paths[i] + Text(k) + Text(l) == paths[i] + (Text(k) + Text(l));
  }

  lemma TextOfBoth(k: string, l: string)
    ensures Text(k + l) == Text(k) + Text(l)
  {
  }

  /** The nodes from j on decide what is held from them. */
  lemma HasFrame(nodes: seq<Node>, nodes': seq<Node>, j: nat, toks: seq<Tok>, r: nat)
    requires WellFormed(nodes) && WellFormed(nodes') && |nodes'| == |nodes| && j < |nodes|
    requires forall m: nat | j <= m < |nodes| :: nodes'[m] == nodes[m]
    ensures Has(nodes', j, toks, r) <==> Has(nodes, j, toks, r)
  {
    hide Reach;
    forall n: nat ensures Reach(nodes', j, toks, n) <==> Reach(nodes, j, toks, n) {
      ReachFrame(nodes, nodes', j, toks, n);
    }
    ReachLater(nodes, j, toks);
    ReachLater(nodes', j, toks);
  }

  lemma {:induction false} ReachLater(nodes: seq<Node>, i: nat, toks: seq<Tok>)
    requires WellFormed(nodes) && i < |nodes|
    ensures forall n: nat | Reach(nodes, i, toks, n) :: i <= n < |nodes|
    decreases |nodes| - i
  {
    assert NodeOk(nodes, i);
    if toks != [] && toks[0].Param? && toks[0].t in nodes[i].params {
      ReachLater(nodes, nodes[i].params[toks[0].t], toks[1..]);
    }
    forall k | k in nodes[i].children && Text(k) <= toks
      ensures forall n: nat | Reach(nodes, nodes[i].children[k], toks[|k|..], n) :: i <= n < |nodes|
    {
      ReachLater(nodes, nodes[i].children[k], toks[|k|..]);
    }
  }

  lemma TextPlus(k: string, l: string, toks: seq<Tok>)
    ensures Text(k + l) <= toks <==> Text(k) <= toks && Text(l) <= toks[|k|..]
    ensures Text(k) <= toks ==> |k| <= |toks|
    ensures Text(k + l) <= toks ==> toks[|k|..][|l|..] == toks[|k + l|..]
  {
    hide Text;
    assert Text(k + l) == Text(k) + Text(l);
    if Text(k) <= toks {
      assert toks == Text(k) + toks[|k|..];
      if Text(l) <= toks[|k|..] {
        assert toks[|k|..] == Text(l) + toks[|k|..][|l|..];
        assert toks == Text(k + l) + toks[|k|..][|l|..];
      }
    }
    if Text(k + l) <= toks {
      assert toks == Text(k) + (Text(l) + toks[|k + l|..]);
    }
  }

  /** An edge and an edge below it hold what the merged edge holds. */
  lemma MergedEdge(nodes: seq<Node>, nodes': seq<Node>, i: nat, k: string, l: string, toks: seq<Tok>, r: nat)
    requires WellFormed(nodes) && i < |nodes| && Grandchild(nodes, i, k, l)
    requires |nodes'| == |nodes| && WellFormed(nodes') && forall j: nat | i < j < |nodes| :: nodes'[j] == nodes[j]
    requires IsMerged(nodes, i, nodes'[i].children)
    ensures HasEdge(nodes', i, k + l, toks, r)
            <==> Text(k) <= toks && HasEdge(nodes, nodes[i].children[k], l, toks[|k|..], r)
  {
    hide Has, Text, PrefixFree;
    assert NodeOk(nodes, i) && NodeOk(nodes, nodes[i].children[k]) && NodeOk(nodes', i);
    TextPlus(k, l, toks);
    var c := GrandchildAt(nodes, i, k, l);
    if Text(k + l) <= toks {
      HasFrame(nodes, nodes', c, toks[|k + l|..], r);
    }
  }

  lemma MergedDown(nodes: seq<Node>, nodes': seq<Node>, i: nat, toks: seq<Tok>, r: nat)
    requires WellFormed(nodes) && i < |nodes| && SimpleChildren(nodes, i)
    requires |nodes'| == |nodes| && WellFormed(nodes') && forall j: nat | i < j < |nodes| :: nodes'[j] == nodes[j]
    requires IsMerged(nodes, i, nodes'[i].children)
    requires exists k :: HasEdge(nodes, i, k, toks, r)
    ensures exists m :: HasEdge(nodes', i, m, toks, r)
  {
    hide Has, Text, PrefixFree, IsMerged;
    assert NodeOk(nodes, i);
    var k :| HasEdge(nodes, i, k, toks, r);
    var c := nodes[i].children[k];
    assert |Text(k)| == |k|;
    HasStep(nodes, c, toks[|k|..], r);
    var l :| HasEdge(nodes, c, l, toks[|k|..], r);
    assert Grandchild(nodes, i, k, l);
    MergedEdge(nodes, nodes', i, k, l, toks, r);
  }

  lemma MergedUp(nodes: seq<Node>, nodes': seq<Node>, i: nat, toks: seq<Tok>, r: nat)
    requires WellFormed(nodes) && i < |nodes|
    requires |nodes'| == |nodes| && WellFormed(nodes') && forall j: nat | i < j < |nodes| :: nodes'[j] == nodes[j]
    requires IsMerged(nodes, i, nodes'[i].children)
    requires exists m :: HasEdge(nodes', i, m, toks, r)
    ensures exists k :: HasEdge(nodes, i, k, toks, r)
  {
    hide Has, Text, PrefixFree;
    assert NodeOk(nodes, i) && NodeOk(nodes', i);
    var m :| HasEdge(nodes', i, m, toks, r);
    var k, l :| Grandchild(nodes, i, k, l) && m == k + l;
    MergedEdge(nodes, nodes', i, k, l, toks, r);
    assert |Text(k)| == |k|;
    HasStep(nodes, nodes[i].children[k], toks[|k|..], r);
    assert HasEdge(nodes, i, k, toks, r);
  }

  /** Merging keeps what the node holds. */
  lemma MergedHas(nodes: seq<Node>, nodes': seq<Node>, i: nat, toks: seq<Tok>, r: nat)
    requires WellFormed(nodes) && i < |nodes| && SimpleChildren(nodes, i)
    requires |nodes'| == |nodes| && WellFormed(nodes') && forall j: nat | i < j < |nodes| :: nodes'[j] == nodes[j]
    requires nodes'[i].ruleIndex == nodes[i].ruleIndex && nodes'[i].params == nodes[i].params
    requires IsMerged(nodes, i, nodes'[i].children)
    ensures Has(nodes', i, toks, r) <==> Has(nodes, i, toks, r)
  {
    hide Has, HasEdge, Text, IsMerged, SimpleChildren, PrefixFree;
    HasStep(nodes, i, toks, r);
    HasStep(nodes', i, toks, r);
    if exists k :: HasEdge(nodes, i, k, toks, r) { MergedDown(nodes, nodes', i, toks, r); }
    if exists k :: HasEdge(nodes', i, k, toks, r) { MergedUp(nodes, nodes', i, toks, r); }
    assert NodeOk(nodes, i);
    if toks != [] && toks[0].Param? && toks[0].t in nodes[i].params {
      HasFrame(nodes, nodes', nodes[i].params[toks[0].t], toks[1..], r);
    }
  }

  /** When one node is rewritten and keeps what it holds, so does every node above it. */
  lemma {:induction false} HasAbove(nodes: seq<Node>, nodes': seq<Node>, i: nat, j: nat, toks: seq<Tok>, r: nat)
    requires WellFormed(nodes) && WellFormed(nodes') && |nodes'| == |nodes| && i < |nodes| && j < |nodes|
    requires forall m: nat | m < |nodes| && m != i :: nodes'[m] == nodes[m]
    requires forall ts, q :: Has(nodes', i, ts, q) <==> Has(nodes, i, ts, q)
    ensures Has(nodes', j, toks, r) <==> Has(nodes, j, toks, r)
    decreases |nodes| - j
  {
    hide Has, Text, PrefixFree;
    if j < i {
      assert NodeOk(nodes, j);
      HasStep(nodes, j, toks, r);
      HasStep(nodes', j, toks, r);
      if toks != [] && toks[0].Param? && toks[0].t in nodes[j].params {
        HasAbove(nodes, nodes', i, nodes[j].params[toks[0].t], toks[1..], r);
      }
      forall k: string ensures HasEdge(nodes', j, k, toks, r) <==> HasEdge(nodes, j, k, toks, r) {
        if k in nodes[j].children && Text(k) <= toks {
          assert |Text(k)| == |k|;
          HasAbove(nodes, nodes', i, nodes[j].children[k], toks[|k|..], r);
        }
      }
    } else if j > i {
      HasFrame(nodes, nodes', j, toks, r);
    }
  }

  // ---------- a trie that is fully merged ----------

  /** No edge of node i can be merged with those below it. */
  ghost predicate Compact(nodes: seq<Node>, i: nat)
    requires WellFormed(nodes) && i < |nodes|
  {
    nodes[i].children == map[] || !SimpleChildren(nodes, i)
  }

  ghost predicate AllCompact(nodes: seq<Node>, i: nat)
    requires WellFormed(nodes) && i < |nodes|
    decreases |nodes| - i
  {
    assert NodeOk(nodes, i);
    && Compact(nodes, i)
    && (forall t | t in nodes[i].params :: AllCompact(nodes, nodes[i].params[t]))
    && (forall k | k in nodes[i].children :: AllCompact(nodes, nodes[i].children[k]))
  }

  /** What optimizing keeps: rules, parameters, finished nodes, what may be merged, paths, and
      every rule held anywhere. */
  ghost predicate Optimized(nodes: seq<Node>, nodes': seq<Node>)
    requires WellFormed(nodes)
  {
    && WellFormed(nodes') && |nodes'| == |nodes|
    && (forall j: nat | j < |nodes| ::
          nodes'[j].ruleIndex == nodes[j].ruleIndex && nodes'[j].params == nodes[j].params)
    && (forall j: nat | j < |nodes| && Compact(nodes, j) :: nodes'[j] == nodes[j])
    && (Mergeable(nodes) ==> Mergeable(nodes'))
    && (forall paths | PathsOk(nodes, paths) :: PathsOk(nodes', paths))
    && (forall j: nat, toks, r | j < |nodes| :: Has(nodes', j, toks, r) <==> Has(nodes, j, toks, r))
  }

  lemma CompactKept(nodes: seq<Node>, nodes': seq<Node>, i: nat)
    requires WellFormed(nodes) && Optimized(nodes, nodes') && i < |nodes| && Compact(nodes, i)
    ensures Compact(nodes', i)
  {
    hide Has;
    assert NodeOk(nodes, i);
    if k :| k in nodes[i].children && !nodes[nodes[i].children[k]].IsSimple() {
      assert k in nodes'[i].children && !nodes'[nodes'[i].children[k]].IsSimple();
    }
  }

  lemma OptimizedTwice(a: seq<Node>, b: seq<Node>, c: seq<Node>)
    requires WellFormed(a) && Optimized(a, b) && Optimized(b, c)
    ensures Optimized(a, c)
  {
    hide Has, Compact, Mergeable, PathsOk;
    forall j: nat | j < |a| && Compact(a, j) ensures c[j] == a[j] {
      CompactKept(a, b, j);
    }
    forall j: nat, toks, r | j < |a| ensures Has(c, j, toks, r) <==> Has(a, j, toks, r) {
      assert Has(b, j, toks, r) <==> Has(a, j, toks, r);
    }
  }

  lemma {:induction false} AllCompactKept(nodes: seq<Node>, nodes': seq<Node>, i: nat)
    requires WellFormed(nodes) && Optimized(nodes, nodes') && i < |nodes| && AllCompact(nodes, i)
    ensures AllCompact(nodes', i)
    decreases |nodes| - i
  {
    hide Has, Compact, PrefixFree;
    assert NodeOk(nodes, i);
    CompactKept(nodes, nodes', i);
    forall t | t in nodes[i].params ensures AllCompact(nodes', nodes[i].params[t]) {
      AllCompactKept(nodes, nodes', nodes[i].params[t]);
    }
    forall k | k in nodes[i].children ensures AllCompact(nodes', nodes[i].children[k]) {
      AllCompactKept(nodes, nodes', nodes[i].children[k]);
    }
  }

  /** Merging the edges of a node all of whose children are simple. */
  lemma MergedIsOptimized(nodes: seq<Node>, i: nat, merged: map<string, nat>)
    requires WellFormed(nodes) && i < |nodes| && SimpleChildren(nodes, i) && nodes[i].children != map[]
    requires Mergeable(nodes) && IsMerged(nodes, i, merged)
    ensures Optimized(nodes, nodes[i := nodes[i].(children := merged)])
  {
    hide Has, IsMerged, SimpleChildren, WellFormed, Mergeable, PathsOk;
    var nodes' := nodes[i := nodes[i].(children := merged)];
    MergedOk(nodes, i, merged);
    MergedMergeable(nodes, i, merged);
    forall paths | PathsOk(nodes, paths) ensures PathsOk(nodes', paths) { MergedPaths(nodes, i, merged, paths); }
    forall toks, r ensures Has(nodes', i, toks, r) <==> Has(nodes, i, toks, r) {
      MergedHas(nodes, nodes', i, toks, r);
    }
    forall j: nat, toks, r | j < |nodes| ensures Has(nodes', j, toks, r) <==> Has(nodes, j, toks, r) {
      HasAbove(nodes, nodes', i, j, toks, r);
    }
  }

  /** Every node is as it was or has been merged to the end. */
  ghost predicate Touched(nodes: seq<Node>, nodes': seq<Node>)
    requires WellFormed(nodes) && WellFormed(nodes')
  {
    |nodes'| == |nodes| && forall j: nat | j < |nodes| :: nodes'[j] == nodes[j] || Compact(nodes', j)
  }

  lemma TouchedTwice(a: seq<Node>, b: seq<Node>, c: seq<Node>)
    requires WellFormed(a) && WellFormed(b) && Touched(a, b) && Optimized(b, c) && Touched(b, c)
    ensures Touched(a, c)
  {
    hide Has, Compact, Mergeable, PathsOk;
    forall j: nat | j < |a| ensures c[j] == a[j] || Compact(c, j) {
      if Compact(b, j) { CompactKept(b, c, j); }
    }
  }

  /** A merge at a node that is merged on until nothing is left. */
  lemma TouchedAt(a: seq<Node>, b: seq<Node>, c: seq<Node>, i: nat)
    requires WellFormed(a) && WellFormed(b) && |a| == |b| && i < |a| && Optimized(b, c) && Touched(b, c)
    requires (forall j: nat | j < |a| && j != i :: b[j] == a[j]) && Compact(c, i)
    ensures Touched(a, c)
  {
    hide Has, Compact, Mergeable, PathsOk;
  }

  lemma TouchedSettled(a: seq<Node>, b: seq<Node>)
    requires WellFormed(a) && Settled(a) && Optimized(a, b) && Touched(a, b)
    ensures Settled(b)
  {
    hide Has, Mergeable, PathsOk, SimpleChildren, Single, WellFormed;
    forall i: nat | i < |b| ensures Single(b[i]) || !SimpleChildren(b, i) {
      if b[i] == a[i] {
        SameSimple(a, b, i);
      } else {
        NoEdges(b[i]);
      }
    }
  }

  lemma NoEdges(node: Node)
    ensures node.children == map[] ==> Single(node)
  {
  }

  /** The nodes at and below which nothing is left to merge. */
  ghost predicate Finished(nodes: seq<Node>, finished: set<nat>)
    requires WellFormed(nodes)
  {
    forall j | j in finished :: j < |nodes| && AllCompact(nodes, j)
  }

  /** One more node optimized keeps those that are finished. */
  lemma FinishedKept(nodes0: seq<Node>, before: seq<Node>, after: seq<Node>, finished: set<nat>)
    requires WellFormed(nodes0) && Optimized(nodes0, before) && Optimized(before, after)
    requires Finished(before, finished)
    ensures Optimized(nodes0, after) && Finished(after, finished)
  {
    hide AllCompact, Has, Compact;
    OptimizedTwice(nodes0, before, after);
    forall j | j in finished ensures AllCompact(after, j) {
      AllCompactKept(before, after, j);
    }
  }

  /** Merged children come later than the children they replace. */
  lemma MergedFloor(nodes: seq<Node>, i: nat, merged: map<string, nat>, floor: nat)
    requires WellFormed(nodes) && i < |nodes| && IsMerged(nodes, i, merged) && nodes[i].children != map[]
    requires forall k | k in nodes[i].children :: floor <= nodes[i].children[k]
    ensures floor + 1 <= |nodes| && forall m | m in merged :: floor + 1 <= merged[m]
  {
    assert NodeOk(nodes, i);
    assert exists k :: k in nodes[i].children;
    forall m | m in merged ensures floor + 1 <= merged[m] {
      var k, l :| Grandchild(nodes, i, k, l) && m == k + l;
      assert GrandchildAt(nodes, i, k, l) == merged[m];
    }
  }

  lemma CompactHere(nodes: seq<Node>, i: nat, finished: set<nat>)
    requires WellFormed(nodes) && i < |nodes| && Compact(nodes, i)
    requires Finished(nodes, finished)
    requires nodes[i].params.Values + nodes[i].children.Values <= finished
    ensures AllCompact(nodes, i)
  {
    assert NodeOk(nodes, i);
    forall t | t in nodes[i].params ensures AllCompact(nodes, nodes[i].params[t]) {
      assert nodes[i].params[t] in nodes[i].params.Values;
    }
    forall k | k in nodes[i].children ensures AllCompact(nodes, nodes[i].children[k]) {
      assert nodes[i].children[k] in nodes[i].children.Values;
    }
  }
}
