/** The router: rules with an optional trailing slash, and which rule answers a URL. */
module UrlRouter {
  import opened Options
  import opened UrlPatterns
  import opened TrieNodes
  import opened TrieMerge
  import opened TrieSearch
  import opened UrlTrie

  /** The index that stands for "redirect to the URL with a slash appended". */
  const RULE_SPECIAL_REDIRECT_SLASH := 1

  /** Rule indices by token list. */
  type Table = map<seq<Tok>, nat>

  /** Trying every rule in turn: a rule of the table that matches the URL, with what it extracts. */
  predicate Matches(table: Table, num: Numbers, url: string, toks: seq<Tok>, r: nat, out: Params) {
    toks in table && table[toks] == r && Match(num, toks, url, 0, NoParams) == Some(out)
  }

  ghost predicate Smallest(table: Table, num: Numbers, url: string, found: nat, out: Params) {
    if found == 0 then forall toks, r, o :: !Matches(table, num, url, toks, r, o)
    else && (exists toks :: Matches(table, num, url, toks, found, out))
         && (forall toks, r, o | Matches(table, num, url, toks, r, o) :: found <= r)
  }

  datatype Response = NotFound | Redirect(location: string) | Serve(rule: nat, params: Params)

  /** The URL with a slash appended, absolute if the host is known. */
  function RedirectTarget(host: string, url: string): string {
    (if host == "" then "" else "http://" + host) + url + "/"
  }

  /** What `handle` answers, up to calling the rule. */
  ghost predicate Answers(table: Table, rules: seq<set<nat>>, num: Numbers, url: string, host: string, meth: nat,
                          res: Response) {
    match res
    case NotFound =>
      || (forall toks, r, o :: !Matches(table, num, url, toks, r, o))
      || (exists r: nat, o :: Smallest(table, num, url, r, o) && 1 < r < |rules| && meth !in rules[r])
    case Redirect(location) =>
      location == RedirectTarget(host, url) && exists o :: Smallest(table, num, url, RULE_SPECIAL_REDIRECT_SLASH, o)
    case Serve(r, params) =>
      1 < r < |rules| && meth in rules[r] && Smallest(table, num, url, r, params)
  }

  /** Indices are positive and stand for one rule each, the redirect index excepted; an entry
      that redirects is a rule of the table without its trailing slash. */
  ghost predicate TableOk(table: Table) {
    && (forall toks | toks in table :: 0 < table[toks])
    && OneEntryARule(table)
    && (forall toks | toks in table && table[toks] == RULE_SPECIAL_REDIRECT_SLASH :: HasSlashRule(table, toks))
  }

  predicate HasSlashRule(table: Table, toks: seq<Tok>) {
    toks + [Lit('/')] in table
  }

  /** One entry more; of two for the same tokens the smaller index is the one ever found. */
  function Put(table: Table, toks: seq<Tok>, n: nat): Table {
    if toks in table && table[toks] <= n then table else table[toks := n]
  }

  /** The entries of a trie for the same tokens, and the table of the smallest. */
  ghost predicate Holding(nodes: seq<Node>, table: Table)
    requires WellFormed(nodes)
  {
    && (forall toks, r | Has(nodes, 0, toks, r) :: toks in table && table[toks] <= r)
    && (forall toks | toks in table :: Has(nodes, 0, toks, table[toks]))
  }

  /** What adding a rule does: it is entered, and without its trailing slash for a redirect. An
      entry that is taken is refused for certain only until edges are merged. */
  ghost predicate RuleAdded(before: Table, building: bool, rule: string, n: nat, ok: bool, table: Table)
    requires Tokens(rule, 0).Some?
  {
    var toks := Tokens(rule, 0).value;
    if |rule| > 1 && rule[|rule| - 1] == '/' then
      toks != [] &&
      var short := toks[..|toks| - 1];
      && toks == short + [Lit('/')]
      && (ok ==> table == Put(Put(before, toks, n), short, RULE_SPECIAL_REDIRECT_SLASH))
      && (!ok ==> table == before || table == Put(before, toks, n))
      && (toks !in before && short !in before ==> ok)
      && (building ==>
            && (ok <==> toks !in before && short !in before)
            && table == if toks in before then before
                        else if ok then before[toks := n][short := RULE_SPECIAL_REDIRECT_SLASH]
                        else before[toks := n])
    else
      && table == (if ok then Put(before, toks, n) else before)
      && (toks !in before ==> ok) && (building && toks in before ==> !ok)
  }

  /** One entry tried: refused when taken, for certain only until edges are merged. */
  ghost predicate EntryTried(before: Table, building: bool, toks: seq<Tok>, n: nat, ok: bool, table: Table) {
    && (toks !in before ==> ok) && (building && toks in before ==> !ok)
    && table == if ok then Put(before, toks, n) else before
  }

  lemma NewIndex(table: Table, n: nat)
    requires forall ts | ts in table :: table[ts] < n
    ensures forall ts | ts in table :: table[ts] != n
  {
  }

  lemma OneEntry(before: Table, building: bool, rule: string, n: nat, ok: bool, table: Table)
    requires Tokens(rule, 0).Some? && EntryTried(before, building, Tokens(rule, 0).value, n, ok, table)
    requires !(|rule| > 1 && rule[|rule| - 1] == '/')
    ensures RuleAdded(before, building, rule, n, ok, table)
  {
    hide Tokens, Put;
  }

  lemma TwoEntries(before: Table, building: bool, rule: string, n: nat, added: bool, once: Table, ok: bool,
                   table: Table)
    requires Tokens(rule, 0).Some? && |rule| > 1 && rule[|rule| - 1] == '/'
    requires var toks := Tokens(rule, 0).value;
             && toks != [] && toks == toks[..|toks| - 1] + [Lit('/')]
             && EntryTried(before, building, toks, n, added, once)
             && if added then EntryTried(once, building, toks[..|toks| - 1], RULE_SPECIAL_REDIRECT_SLASH, ok, table)
                else !ok && table == once
    ensures RuleAdded(before, building, rule, n, ok, table)
  {
    hide Tokens, Put;
    var toks := Tokens(rule, 0).value;
    PutNew(before, toks, n);
    if added { PutNew(once, toks[..|toks| - 1], RULE_SPECIAL_REDIRECT_SLASH); }
  }

  class Router {
    const trie: Trie
    /** One entry a rule, the first two unused; the methods the rule accepts. */
    var rules: seq<set<nat>>
    ghost var table: Table

    ghost predicate Holds()
      reads this, trie
    {
      && trie.Valid() && |rules| >= 2
      && (forall toks | toks in table :: table[toks] < |rules|)
      && Holding(trie.nodes, table) && TableOk(table)
    }

    constructor ()
      ensures Holds() && trie.Building() && fresh(trie) && table == map[] && |rules| == 2
    {
      trie := new Trie();
      rules := [{}, {}];
      table := map[];
    }

    /** `internal_add_rule_object`: a rule, and for "/x/" a redirect from "/x". Fails, as
        the code does by throwing, at the first of the two that is taken already. Once edges are
        merged, one that is taken may go unnoticed; then the smaller index counts. */
    method AddRule(rule: string, methods: set<nat>) returns (ok: bool)
      requires Holds() && Tokens(rule, 0).Some?
      modifies this, trie
      ensures Holds() && rules == old(rules) + [methods] && (old(trie.Building()) ==> trie.Building())
      ensures RuleAdded(old(table), old(trie.Building()), rule, |old(rules)|, ok, table)
    {
      hide Has, Tokens, Put, TableOk, Trie.Building, Taken, RuleAdded, WellFormed, Settled, Holding;
      ghost var toks, before, building := Tokens(rule, 0).value, table, trie.Building();
      var n := |rules|;
      NewIndex(before, n);
      rules := rules + [methods];
      ok := AddEntry(rule, n);
      if |rule| > 1 && rule[|rule| - 1] == '/' {
        TokensDropSlash(rule, 0);
        ghost var once, added := table, ok;
        if ok {
          PutNew(before, toks, n);
          ok := AddEntry(rule[..|rule| - 1], RULE_SPECIAL_REDIRECT_SLASH);
        }
        TwoEntries(before, building, rule, n, added, once, ok, table);
      } else {
        OneEntry(before, building, rule, n, ok, table);
      }
    }

    /** One entry of the trie and of the table. */
    method AddEntry(rule: string, n: nat) returns (ok: bool)
      requires Holds() && Tokens(rule, 0).Some? && 0 < n < |rules|
      requires if n == RULE_SPECIAL_REDIRECT_SLASH then HasSlashRule(table, Tokens(rule, 0).value)
               else forall ts | ts in table :: table[ts] != n
      modifies this`table, trie
      ensures Holds() && (old(trie.Building()) ==> trie.Building())
      ensures ok <==> !Taken(old(trie.nodes), Tokens(rule, 0).value)
      ensures EntryTried(old(table), old(trie.Building()), Tokens(rule, 0).value, n, ok, table)
    {
      hide Has, Tokens, WellFormed, Settled, Trie.Building, Taken;
      ghost var toks := Tokens(rule, 0).value;
      ok := trie.Add(rule, n);
      HeldOrNot(old(trie.nodes), table, toks);
      EntryAdded(old(trie.nodes), trie.nodes, table, toks, n, ok);
      if ok {
        PutOk(table, toks, n);
        table := Put(table, toks, n);
      }
    }

    /** `validate` */
    method Validate() returns (ok: bool)
      requires Holds()
      modifies trie`nodes
      ensures Holds() && table == old(table)
      ensures ok <==> old(trie.nodes[0].IsSimple())
      ensures ok ==> AllCompact(trie.nodes, 0)
    {
      hide Has, AllCompact, Compact, Mergeable, PathsOk, Settled;
      ok := trie.Validate();
    }

    /** The rule for a URL, as trying every rule in turn would choose it. */
    method Find(num: Numbers, url: string) returns (found: nat, params: Params)
      requires Holds()
      ensures Smallest(table, num, url, found, params)
      ensures found < |rules|
    {
      hide Has, Match;
      var empty := new RoutingParams();
      found, params := trie.Find(num, url, 0, 0, empty);
      BestIsSmallest(trie.nodes, table, num, url, found, params);
    }

    /** `handle`, up to calling the rule. `host` is the Host header, empty if there is none. */
    method Dispatch(num: Numbers, url: string, host: string, meth: nat) returns (res: Response)
      requires Holds()
      ensures Answers(table, rules, num, url, host, meth, res)
    {
      var found, params := Find(num, url);
      if found == 0 { return NotFound; }
      if found == RULE_SPECIAL_REDIRECT_SLASH { return Redirect(RedirectTarget(host, url)); }
      if meth !in rules[found] { return NotFound; }
      res := Serve(found, params);
    }
  }

  lemma HeldOrNot(nodes: seq<Node>, table: Table, toks: seq<Tok>)
    requires WellFormed(nodes) && Holding(nodes, table)
    ensures toks in table <==> exists r :: Has(nodes, 0, toks, r)
  {
    hide Has;
    if toks in table { assert Has(nodes, 0, toks, table[toks]); }
  }

  lemma EntryAdded(nodes: seq<Node>, nodes': seq<Node>, table: Table, toks: seq<Tok>, n: nat, ok: bool)
    requires WellFormed(nodes) && WellFormed(nodes') && n != 0 && Holding(nodes, table)
    requires forall ts, r :: Has(nodes', 0, ts, r) <==> Has(nodes, 0, ts, r) || (ok && ts == toks && r == n && r != 0)
    ensures Holding(nodes', if ok then Put(table, toks, n) else table)
  {
    hide Has;
    var table' := if ok then Put(table, toks, n) else table;
    forall ts | ts in table' ensures Has(nodes', 0, ts, table'[ts]) {
      if ts in table { assert Has(nodes, 0, ts, table[ts]); }
    }
  }

  lemma PutNew(table: Table, toks: seq<Tok>, n: nat)
    ensures toks !in table ==> Put(table, toks, n) == table[toks := n]
    ensures toks in Put(table, toks, n) && Put(table, toks, n)[toks] <= n
    ensures forall ts | ts in Put(table, toks, n) && ts != toks :: ts in table && Put(table, toks, n)[ts] == table[ts]
    ensures forall ts | ts in table :: ts in Put(table, toks, n)
  {
  }

  lemma PutOk(table: Table, toks: seq<Tok>, n: nat)
    requires TableOk(table) && n > 0
    requires if n == RULE_SPECIAL_REDIRECT_SLASH then HasSlashRule(table, toks)
             else forall ts | ts in table :: table[ts] != n
    ensures TableOk(Put(table, toks, n))
  {
  }

  /** Only the redirect index stands for several token lists. */
  ghost predicate OneEntryARule(table: Table) {
    forall ts, us | ts in table && us in table && table[ts] == table[us] != RULE_SPECIAL_REDIRECT_SLASH :: ts == us
  }

  lemma BestIsSmallest(nodes: seq<Node>, table: Table, num: Numbers, url: string, found: nat, out: Params)
    requires WellFormed(nodes) && Best(nodes, num, 0, url, 0, NoParams, found, out)
    requires Holding(nodes, table)
    ensures Smallest(table, num, url, found, out)
  {
    hide Has, Match;
    forall toks, r, o | Matches(table, num, url, toks, r, o) ensures 0 < found <= r {
      assert Finds(nodes, num, 0, url, 0, NoParams, toks, r, o);
    }
    if found != 0 {
      var toks :| Finds(nodes, num, 0, url, 0, NoParams, toks, found, out);
      assert Finds(nodes, num, 0, url, 0, NoParams, toks, table[toks], out);
      assert Matches(table, num, url, toks, found, out);
    }
  }

  /** For an ordinary rule the parameters are those of its own left-to-right match. */
  lemma OwnParameters(table: Table, num: Numbers, url: string, found: nat, out: Params, toks: seq<Tok>)
    requires OneEntryARule(table) && Smallest(table, num, url, found, out)
    requires found > RULE_SPECIAL_REDIRECT_SLASH && toks in table && table[toks] == found
    ensures Match(num, toks, url, 0, NoParams) == Some(out)
  {
    hide Match;
    var ts :| Matches(table, num, url, ts, found, out);
    assert ts == toks;
  }

  // ---------- the redirect of rules with a trailing slash ----------

  lemma {:induction false} TokensDropSlash(rule: string, i: nat)
    requires i < |rule| && rule[|rule| - 1] == '/' && Tokens(rule, i).Some?
    ensures var toks := Tokens(rule, i).value;
            && toks != [] && toks == toks[..|toks| - 1] + [Lit('/')]
            && Tokens(rule[..|rule| - 1], i) == Some(toks[..|toks| - 1])
    decreases |rule| - i
  {
    var short := rule[..|rule| - 1];
    var toks := Tokens(rule, i).value;
    if i == |short| {
      assert Tokens(rule, i + 1) == Some([]);
    } else if rule[i] == '<' {
      TagBeforeSlash(rule, i, 0);
      var k := TagAt(rule, i, 0).value;
      TagsAreTags();
      TokensDropSlash(rule, i + |TAGS[k].0|);
      assert toks[..|toks| - 1] == [toks[0]] + toks[1..][..|toks| - 2];
    } else {
      TokensDropSlash(rule, i + 1);
      assert toks[..|toks| - 1] == [toks[0]] + toks[1..][..|toks| - 2];
    }
  }

  lemma {:induction false} TagBeforeSlash(rule: string, i: nat, k: nat)
    requires i < |rule| && rule[|rule| - 1] == '/' && k <= |TAGS|
    ensures TagAt(rule[..|rule| - 1], i, k) == TagAt(rule, i, k)
    ensures TagAt(rule, i, k).Some? ==> i + |TAGS[TagAt(rule, i, k).value].0| < |rule|
    decreases |TAGS| - k
  {
    if k < |TAGS| {
      TagBeforeSlash(rule, i, k + 1);
      var tag := TAGS[k].0;
      TagEnds(k);
      TextBeforeSlash(rule, i, tag);
    }
  }

  lemma TextBeforeSlash(rule: string, i: nat, tag: string)
    requires i < |rule| && rule[|rule| - 1] == '/' && tag != [] && tag[|tag| - 1] == '>'
    ensures TextAt(rule[..|rule| - 1], i, tag) == TextAt(rule, i, tag)
    ensures TextAt(rule, i, tag) ==> i + |tag| < |rule|
  {
    if i + |tag| == |rule| {
      assert rule[i..i + |tag|][|tag| - 1] == '/';
    } else if i + |tag| < |rule| {
      assert rule[..|rule| - 1][i..i + |tag|] == rule[i..i + |tag|];
    }
  }

  lemma TagEnds(k: nat)
    requires k < |TAGS|
    ensures |TAGS[k].0| > 0 && TAGS[k].0[|TAGS[k].0| - 1] == '>'
  {
    assert k == 0 || k == 1 || k == 2 || k == 3 || k == 4 || k == 5 || k == 6;
  }
}
