/** URL rules as token lists, and how one rule matches a URL from left to right. */
module UrlPatterns {
  import opened Bytes
  import opened Options

  datatype ParamType = INT | UINT | DOUBLE | STRING | PATH

  datatype Tok = Lit(c: char) | Param(t: ParamType)

  datatype ParamValue = IntV(i: int) | UintV(u: nat) | DoubleV(d: real) | StringV(s: string)

  /** The extracted parameters, one list per kind. */
  datatype Params = Params(ints: seq<int>, uints: seq<nat>, doubles: seq<real>, strings: seq<string>) {
    function Push(v: ParamValue): Params {
      match v
      case IntV(i) => this.(ints := ints + [i])
      case UintV(u) => this.(uints := uints + [u])
      case DoubleV(d) => this.(doubles := doubles + [d])
      case StringV(s) => this.(strings := strings + [s])
    }

    /** Drops the last parameter of a kind. */
    function Pop(v: ParamValue): Params
    {
      match v
      case IntV(_) => if ints == [] then this else this.(ints := ints[..|ints| - 1])
      case UintV(_) => if uints == [] then this else this.(uints := uints[..|uints| - 1])
      case DoubleV(_) => if doubles == [] then this else this.(doubles := doubles[..|doubles| - 1])
      case StringV(_) => if strings == [] then this else this.(strings := strings[..|strings| - 1])
    }
  }

  const NoParams := Params([], [], [], [])

  /** strtoll, strtoull and strtod at a position of a URL: the value and the end of the
      number, or nothing when no number is there or it is out of range. */
  datatype Numbers = Numbers(
    strtoll: (string, nat) -> Option<(int, nat)>,
    strtoull: (string, nat) -> Option<(nat, nat)>,
    strtod: (string, nat) -> Option<(real, nat)>)

  /** A scan that does not end after its start, or ends past the URL, is no number. */
  predicate Advances(url: string, pos: nat, end: nat) {
    pos < end <= |url|
  }

  function SegmentEnd(url: string, pos: nat): (end: nat)
    requires pos <= |url|
    ensures pos <= end <= |url|
    decreases |url| - pos
  {
    if pos == |url| || url[pos] == '/' then pos else SegmentEnd(url, pos + 1)
  }

  /** One parameter at a position: its value and its end. */
  function ParamAt(num: Numbers, t: ParamType, url: string, pos: nat): (m: Option<(ParamValue, nat)>)
    requires pos < |url|
    ensures m.Some? ==> pos < m.value.1 <= |url|
  {
    var c := url[pos];
    match t
    case INT =>
      if !(IsDigit(c) || c == '+' || c == '-') then None
      else (match num.strtoll(url, pos)
            case Some((v, end)) => if Advances(url, pos, end) then Some((IntV(v), end)) else None
            case None => None)
    case UINT =>
      if !(IsDigit(c) || c == '+') then None
      else (match num.strtoull(url, pos)
            case Some((v, end)) => if Advances(url, pos, end) then Some((UintV(v), end)) else None
            case None => None)
    case DOUBLE =>
      if !(IsDigit(c) || c == '+' || c == '-' || c == '.') then None
      else (match num.strtod(url, pos)
            case Some((v, end)) => if Advances(url, pos, end) then Some((DoubleV(v), end)) else None
            case None => None)
    case STRING =>
      var end := SegmentEnd(url, pos);
      if end == pos then None else Some((StringV(url[pos..end]), end))
    case PATH => Some((StringV(url[pos..]), |url|))
  }

  /** Matches a token list against the rest of a URL, adding to the parameters. */
  function Match(num: Numbers, toks: seq<Tok>, url: string, pos: nat, ps: Params): Option<Params>
    requires pos <= |url|
    decreases |toks|
  {
    if toks == [] then (if pos == |url| then Some(ps) else None)
    else if pos == |url| then None
    else
      match toks[0]
      case Lit(c) => if url[pos] == c then Match(num, toks[1..], url, pos + 1, ps) else None
      case Param(t) =>
        match ParamAt(num, t, url, pos)
        case Some((v, end)) => Match(num, toks[1..], url, end, ps.Push(v))
        case None => None
  }

  function Text(s: string): (toks: seq<Tok>)
    ensures |toks| == |s| && (forall i | 0 <= i < |s| :: toks[i] == Lit(s[i]))
  {
    if s == [] then [] else [Lit(s[0])] + Text(s[1..])
  }

  /** `req_url.compare(pos, k.size(), k) == 0` */
  predicate TextAt(url: string, pos: nat, k: string) {
    pos + |k| <= |url| && url[pos..pos + |k|] == k
  }

  lemma {:induction false} MatchText(num: Numbers, k: string, toks: seq<Tok>, url: string, pos: nat, ps: Params)
    requires pos <= |url|
    ensures Match(num, Text(k) + toks, url, pos, ps)
            == if TextAt(url, pos, k) then Match(num, toks, url, pos + |k|, ps) else None
    decreases |k|
  {
    var all := Text(k) + toks;
    if k == [] {
      assert all == toks && url[pos..pos] == k;
    } else {
      assert all[1..] == Text(k[1..]) + toks;
      if pos < |url| {
        MatchText(num, k[1..], toks, url, pos + 1, ps);
        if pos + |k| <= |url| {
          assert url[pos..pos + |k|] == [url[pos]] + url[pos + 1..pos + |k|];
        }
      }
    }
  }

  // ---------- the rule syntax ----------

  /** The tags of the rule syntax, in the order they are tried. */
  const TAGS: seq<(string, ParamType)> :=
    [("<int>", INT), ("<uint>", UINT), ("<float>", DOUBLE), ("<double>", DOUBLE),
     ("<str>", STRING), ("<string>", STRING), ("<path>", PATH)]

  /** The first tag, from the k-th on, that stands at this position. */
  function TagAt(rule: string, i: nat, k: nat): (n: Option<nat>)
    requires k <= |TAGS|
    ensures n.Some? ==> k <= n.value < |TAGS| && TextAt(rule, i, TAGS[n.value].0)
    decreases |TAGS| - k
  {
    if k == |TAGS| then None
    else if TextAt(rule, i, TAGS[k].0) then Some(k) else TagAt(rule, i, k + 1)
  }

  lemma TagsAreTags()
    ensures forall k | 0 <= k < |TAGS| :: |TAGS[k].0| > 0
  {
  }

  /** The tokens of a rule from a position; None if a '<' starts no known tag. */
  function Tokens(rule: string, i: nat): Option<seq<Tok>>
    requires i <= |rule|
    decreases |rule| - i
  {
    if i == |rule| then Some([])
    else if rule[i] == '<' then
      match TagAt(rule, i, 0)
      case None => None
      case Some(k) =>
        TagsAreTags();
        (match Tokens(rule, i + |TAGS[k].0|)
         case Some(rest) => Some([Param(TAGS[k].1)] + rest)
         case None => None)
    else
      match Tokens(rule, i + 1)
      case Some(rest) => Some([Lit(rule[i])] + rest)
      case None => None
  }

  // ---------- rules that can be added ----------

  /** Where the loop over a rule's characters is one round later: behind a tag or a character,
      or where it was, at a '<' that starts no known tag. */
  function Advance(rule: string, i: nat): (j: nat)
    requires i < |rule|
    ensures i <= j <= |rule|
  {
    if rule[i] != '<' then i + 1
    else
      match TagAt(rule, i, 0)
      case None => i
      case Some(k) => i + |TAGS[k].0|
  }

  /** ... some rounds later. */
  function Rounds(rule: string, i: nat, n: nat): (j: nat)
    requires i <= |rule|
    ensures j <= |rule|
    decreases n
  {
    if n == 0 || i == |rule| then i else Rounds(rule, Advance(rule, i), n - 1)
  }

  /** The loop ends exactly if every '<' starts a known tag. */
  lemma {:induction false} LoopEnds(rule: string, i: nat)
    requires i <= |rule|
    ensures (exists n: nat :: Rounds(rule, i, n) == |rule|) <==> Tokens(rule, i).Some?
    decreases |rule| - i
  {
    hide Advance, Rounds, Tokens;
    NoRounds(rule, i);
    if i == |rule| {
      TokensAdvance(rule, i);
    } else {
      var j := Advance(rule, i);
      TokensAdvance(rule, i);
      if j == i {
        forall n: nat ensures Rounds(rule, i, n) == i { StandsStill(rule, i, n); }
      } else {
        LoopEnds(rule, j);
        if n: nat :| Rounds(rule, j, n) == |rule| { OneRound(rule, i, n + 1); }
        if n: nat :| Rounds(rule, i, n) == |rule| { OneRound(rule, i, n); }
      }
    }
  }

  lemma NoRounds(rule: string, i: nat)
    requires i <= |rule|
    ensures Rounds(rule, i, 0) == i
  {
  }

  lemma OneRound(rule: string, i: nat, n: nat)
    requires i < |rule|
    ensures if n == 0 then Rounds(rule, i, n) == i else Rounds(rule, i, n) == Rounds(rule, Advance(rule, i), n - 1)
  {
    hide Advance;
  }

  /** There are tokens exactly if the loop goes on and there are tokens from there. */
  lemma TokensAdvance(rule: string, i: nat)
    requires i <= |rule|
    ensures Tokens(rule, i).Some?
            <==> i == |rule| || (Advance(rule, i) > i && Tokens(rule, Advance(rule, i)).Some?)
  {
    hide TagAt;
    TagsAreTags();
  }

  lemma {:induction false} StandsStill(rule: string, i: nat, n: nat)
    requires i < |rule| && Advance(rule, i) == i
    ensures Rounds(rule, i, n) == i
  {
    if n > 0 { StandsStill(rule, i, n - 1); }
  }
}
