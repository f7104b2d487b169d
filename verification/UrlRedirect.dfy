/** What becomes of a redirect: the URL with a slash appended is dispatched again. */
module UrlRedirect {
  import opened Options
  import opened UrlPatterns
  import opened UrlRouter

  /** The number scanners do not look past a slash appended to the URL. */
  ghost predicate SlashEndsNumbers(num: Numbers, url: string) {
    forall pos: nat | pos < |url| ::
      && num.strtoll(url + "/", pos) == num.strtoll(url, pos) && num.strtoull(url + "/", pos) == num.strtoull(url, pos)
      && num.strtod(url + "/", pos) == num.strtod(url, pos)
      && ScansWithin(num, url, pos)
  }

  ghost predicate ScansWithin(num: Numbers, url: string, pos: nat) {
    && (num.strtoll(url, pos).Some? ==> num.strtoll(url, pos).value.1 <= |url|)
    && (num.strtoull(url, pos).Some? ==> num.strtoull(url, pos).value.1 <= |url|)
    && (num.strtod(url, pos).Some? ==> num.strtod(url, pos).value.1 <= |url|)
  }

  lemma {:induction false} SegmentEndSlash(url: string, pos: nat)
    requires pos <= |url|
    ensures SegmentEnd(url + "/", pos) == SegmentEnd(url, pos)
    decreases |url| - pos
  {
    if pos < |url| && url[pos] != '/' { SegmentEndSlash(url, pos + 1); }
  }

  /** A URL that a rule without its slash matches: with a slash appended it is matched by the
      rule with the slash, with the same parameters, exactly if the rule has no path parameter. */
  lemma {:induction false} RedirectLands(num: Numbers, toks: seq<Tok>, url: string, pos: nat, ps: Params, out: Params)
    requires pos <= |url| && Match(num, toks, url, pos, ps) == Some(out)
    requires SlashEndsNumbers(num, url)
    ensures Match(num, toks + [Lit('/')], url + "/", pos, ps) == if Param(PATH) in toks then None else Some(out)
    decreases |toks|
  {
    var url', toks' := url + "/", toks + [Lit('/')];
    if toks == [] {
      assert toks' == [Lit('/')] && toks'[1..] == [];
    } else {
      assert toks'[1..] == toks[1..] + [Lit('/')] && toks'[0] == toks[0] && url'[pos] == url[pos];
      match toks[0]
      case Lit(c) => RedirectLands(num, toks[1..], url, pos + 1, ps, out);
      case Param(t) =>
        if t == PATH {
          assert toks[1..] == [] && toks'[1..] == [Lit('/')];
        } else {
          ParamAtSlash(num, t, url, pos);
          var v, end := ParamAt(num, t, url, pos).value.0, ParamAt(num, t, url, pos).value.1;
          RedirectLands(num, toks[1..], url, end, ps.Push(v), out);
        }
    }
  }

  lemma ParamAtSlash(num: Numbers, t: ParamType, url: string, pos: nat)
    requires pos < |url| && t != PATH && SlashEndsNumbers(num, url)
    ensures ParamAt(num, t, url + "/", pos) == ParamAt(num, t, url, pos)
  {
    SegmentEndSlash(url, pos);
    assert (url + "/")[pos..SegmentEnd(url, pos)] == url[pos..SegmentEnd(url, pos)];
    assert ScansWithin(num, url, pos);
  }

  /** A rule with a path parameter takes an appended slash into the parameter. */
  lemma {:induction false} PathTakesSlash(num: Numbers, toks: seq<Tok>, url: string, pos: nat, ps: Params)
    requires pos <= |url| && Match(num, toks, url, pos, ps).Some? && Param(PATH) in toks
    requires SlashEndsNumbers(num, url)
    ensures Match(num, toks, url + "/", pos, ps).Some?
    decreases |toks|
  {
    var url' := url + "/";
    assert toks == [toks[0]] + toks[1..] && url'[pos] == url[pos];
    match toks[0]
    case Lit(c) => PathTakesSlash(num, toks[1..], url, pos + 1, ps);
    case Param(t) =>
      if t == PATH {
        assert toks[1..] == [];
      } else {
        ParamAtSlash(num, t, url, pos);
        var v, end := ParamAt(num, t, url, pos).value.0, ParamAt(num, t, url, pos).value.1;
        PathTakesSlash(num, toks[1..], url, end, ps.Push(v));
      }
  }

  /** Some entry that redirects matches the URL. */
  ghost predicate RedirectMatches(table: Table, num: Numbers, url: string) {
    exists toks, out :: Matches(table, num, url, toks, RULE_SPECIAL_REDIRECT_SLASH, out)
  }

  /** ... one with a path parameter. */
  ghost predicate PathRedirectMatches(table: Table, num: Numbers, url: string) {
    exists toks, out :: Param(PATH) in toks && Matches(table, num, url, toks, RULE_SPECIAL_REDIRECT_SLASH, out)
  }

  /** The smallest match is the redirect exactly if a redirect entry matches at all. */
  lemma SmallestRedirects(table: Table, num: Numbers, url: string, found: nat, out: Params)
    requires TableOk(table) && Smallest(table, num, url, found, out)
    ensures found == RULE_SPECIAL_REDIRECT_SLASH <==> RedirectMatches(table, num, url)
  {
    hide Match;
    if RedirectMatches(table, num, url) {
      var toks, o :| Matches(table, num, url, toks, RULE_SPECIAL_REDIRECT_SLASH, o);
      assert found != 0;
      var ts :| Matches(table, num, url, ts, found, out);
    }
  }

  /** The answer to a redirected URL. It is redirected again if and only if a redirect entry
      matches the URL with the slash too, which is always so after a redirect by an entry with
      a path parameter. Otherwise the smallest matching rule answers, and there always is one:
      the rule whose slash was missing, or a smaller one. */
  lemma RedirectAnswered(table: Table, rules: seq<set<nat>>, num: Numbers, url: string, host: string, meth: nat,
                         res: Response, res': Response)
    requires TableOk(table) && SlashEndsNumbers(num, url)
    requires Answers(table, rules, num, url, host, meth, res) && res.Redirect?
    requires Answers(table, rules, num, url + "/", host, meth, res')
    ensures res'.Redirect? <==> RedirectMatches(table, num, url + "/")
    ensures PathRedirectMatches(table, num, url) ==> res'.Redirect?
    ensures res'.NotFound? ==>
            exists r: nat, o :: 1 < r < |rules| && meth !in rules[r] && Smallest(table, num, url + "/", r, o)
    ensures res'.Serve? ==>
              forall toks, o | Matches(table, num, url, toks, RULE_SPECIAL_REDIRECT_SLASH, o) ::
              res'.rule <= table[toks + [Lit('/')]]
  {
    hide Match;
    var out :| Smallest(table, num, url, RULE_SPECIAL_REDIRECT_SLASH, out);
    var toks :| Matches(table, num, url, toks, RULE_SPECIAL_REDIRECT_SLASH, out);
    SomethingMatches(table, num, url, toks, out);
    if PathRedirectMatches(table, num, url) {
      var ts, o :| Param(PATH) in ts && Matches(table, num, url, ts, RULE_SPECIAL_REDIRECT_SLASH, o);
      SomethingMatches(table, num, url, ts, o);
    }
    match res'
    case Redirect(_) =>
      var o :| Smallest(table, num, url + "/", RULE_SPECIAL_REDIRECT_SLASH, o);
      SmallestRedirects(table, num, url + "/", RULE_SPECIAL_REDIRECT_SLASH, o);
    case Serve(r, params) =>
      SmallestRedirects(table, num, url + "/", r, params);
      forall ts, o | Matches(table, num, url, ts, RULE_SPECIAL_REDIRECT_SLASH, o) ensures r <= table[ts + [Lit('/')]] {
        SomethingMatches(table, num, url, ts, o);
      }
    case NotFound =>
      var r: nat, o :| Smallest(table, num, url + "/", r, o) && 1 < r < |rules| && meth !in rules[r];
      SmallestRedirects(table, num, url + "/", r, o);
  }

  /** What matches once the slash is there. */
  lemma SomethingMatches(table: Table, num: Numbers, url: string, toks: seq<Tok>, out: Params)
    requires TableOk(table) && SlashEndsNumbers(num, url)
             && Matches(table, num, url, toks, RULE_SPECIAL_REDIRECT_SLASH, out)
    ensures HasSlashRule(table, toks)
    ensures if Param(PATH) in toks
            then exists o :: Matches(table, num, url + "/", toks, RULE_SPECIAL_REDIRECT_SLASH, o)
            else Matches(table, num, url + "/", toks + [Lit('/')], table[toks + [Lit('/')]], out)
  {
    RedirectLands(num, toks, url, 0, NoParams, out);
    if Param(PATH) in toks {
      PathTakesSlash(num, toks, url, 0, NoParams);
      var o := Match(num, toks, url + "/", 0, NoParams).value;
      assert Matches(table, num, url + "/", toks, RULE_SPECIAL_REDIRECT_SLASH, o);
    }
  }

  function Slashes(k: nat): string {
    if k == 0 then "" else Slashes(k - 1) + "/"
  }

  /** After one redirect by an entry with a path parameter every further request is
      redirected, without end. */
  lemma {:induction false} RedirectsForever(table: Table, num: Numbers, url: string, k: nat)
    requires TableOk(table) && (forall u :: SlashEndsNumbers(num, u)) && PathRedirectMatches(table, num, url)
    ensures PathRedirectMatches(table, num, url + Slashes(k)) && RedirectMatches(table, num, url + Slashes(k))
  {
    hide Match, SlashEndsNumbers;
    if k == 0 {
      assert url + Slashes(0) == url;
    } else {
      RedirectsForever(table, num, url, k - 1);
      var u := url + Slashes(k - 1);
      assert u + "/" == url + Slashes(k);
      var toks, o :| Param(PATH) in toks && Matches(table, num, u, toks, RULE_SPECIAL_REDIRECT_SLASH, o);
      SomethingMatches(table, num, u, toks, o);
    }
  }

  // ---------- two tables that redirect in a circle ----------

  const PATH_RULE := [Lit('/'), Param(PATH)]
  const STR_RULE := [Lit('/'), Param(STRING)]

  lemma PathRuleMatches(num: Numbers, url: string)
    requires |url| > 1 && url[0] == '/'
    ensures Match(num, PATH_RULE, url, 0, NoParams) == Some(Params([], [], [], [url[1..]]))
  {
    assert PATH_RULE[1..] == [Param(PATH)] && PATH_RULE[1..][1..] == [] && [] + [url[1..]] == [url[1..]];
    assert Match(num, [], url, |url|, Params([], [], [], [url[1..]])) == Some(Params([], [], [], [url[1..]]));
    assert Match(num, PATH_RULE[1..], url, 1, NoParams) == Some(Params([], [], [], [url[1..]]));
  }

  /** The rule "/<path>/" alone: "/x" is redirected to "/x/", which is redirected again. */
  lemma PathRedirectLoops(num: Numbers)
    ensures var table: Table := map[PATH_RULE + [Lit('/')] := 2, PATH_RULE := 1];
            && TableOk(table)
            && Smallest(table, num, "/x", 1, Params([], [], [], ["x"]))
            && Smallest(table, num, "/x/", 1, Params([], [], [], ["x/"]))
  {
    hide Match;
    var table: Table := map[PATH_RULE + [Lit('/')] := 2, PATH_RULE := 1];
    PathRuleMatches(num, "/x");
    PathRuleMatches(num, "/x/");
    assert |PATH_RULE + [Lit('/')]| == 3 && "/x"[1..] == "x" && "/x/"[1..] == "x/";
    assert table[PATH_RULE] == 1;
    assert Matches(table, num, "/x", PATH_RULE, 1, Params([], [], [], ["x"]));
    assert Matches(table, num, "/x/", PATH_RULE, 1, Params([], [], [], ["x/"]));
  }

  /** With "/<path>/" beside it the rule "/<str>/" is never reached by "/x/": that URL is
      redirected too. */
  lemma StrRedirectLoops(num: Numbers)
    ensures var table: Table := map[STR_RULE + [Lit('/')] := 2, STR_RULE := 1, PATH_RULE + [Lit('/')] := 3,
                                    PATH_RULE := 1];
            && TableOk(table)
            && (exists out :: Matches(table, num, "/x/", STR_RULE + [Lit('/')], 2, out))
            && Smallest(table, num, "/x/", 1, Params([], [], [], ["x/"]))
  {
    hide Match;
    var table: Table := map[STR_RULE + [Lit('/')] := 2, STR_RULE := 1, PATH_RULE + [Lit('/')] := 3, PATH_RULE := 1];
    var str, path := STR_RULE + [Lit('/')], PATH_RULE + [Lit('/')];
    assert |str| == |path| == 3 && STR_RULE[1] != PATH_RULE[1] && str[1] != path[1];
    PathRuleMatches(num, "/x/");
    StrSlashMatches(num);
    assert Matches(table, num, "/x/", str, 2, Params([], [], [], ["x"]));
    assert Matches(table, num, "/x/", PATH_RULE, 1, Params([], [], [], ["x/"])) by { assert "/x/"[1..] == "x/"; }
  }

  lemma StrSlashMatches(num: Numbers)
    ensures Match(num, STR_RULE + [Lit('/')], "/x/", 0, NoParams) == Some(Params([], [], [], ["x"]))
  {
    var toks, url := STR_RULE + [Lit('/')], "/x/";
    assert toks[1..] == [Param(STRING), Lit('/')] && toks[1..][1..] == [Lit('/')] && toks[1..][1..][1..] == [];
    assert SegmentEnd(url, 2) == 2 && SegmentEnd(url, 1) == 2 && url[1..2] == "x" && [] + ["x"] == ["x"];
    var ps := Params([], [], [], ["x"]);
    assert Match(num, [], url, 3, ps) == Some(ps);
    assert Match(num, [Lit('/')], url, 2, ps) == Some(ps);
    assert Match(num, [Param(STRING), Lit('/')], url, 1, NoParams) == Some(ps);
  }
}
