/** The method of a request is the word it starts with, for every method and no other word.

    The first letter picks one method, and a letter out of place leads to another one that
    agrees with all letters before it; Guess says which method is assumed after how many. */
module HttpMethods {
  import opened Bytes
  import opened HttpTables
  import opened HttpTurns
  import opened HttpMachine
  import opened HttpInvariant

  /** The letters of the method read so far. */
  predicate Spelled(f: Fields, w: seq<byte>) {
    var name := MethodName(f.verb);
    f.state == ReqMethod && f.index == |w| && 0 < |w| <= |name| && forall i | 0 <= i < |w| :: name[i] == w[i]
  }

  lemma FirstLetter(m: Machine, ch: byte)
    requires m.end == Running && m.f.state == StartReq && ch != CR && ch != LF
    ensures OnByte(m, ch).end == Running ==> Spelled(OnByte(m, ch).f, [ch])
  {
    hide MethodName, MethodOf;
    NamesAreNames(MethodOf(ch).1);
  }

  lemma NextLetter(m: Machine, w: seq<byte>, ch: byte)
    requires m.end == Running && Spelled(m.f, w)
    ensures var r := OnByte(m, ch);
            r.end == Running ==>
              if ch == ' ' then r.f.state == SpacesBeforeUrl && r.f.verb == m.f.verb && |MethodName(r.f.verb)| == |w|
              else Spelled(r.f, w + [ch])
  {
    hide MethodName, Switch;
    NamesAreWords(m.f.verb, |w|);
    SwitchOk(m.f.verb, |w|, ch);
    NamesAreWords(Switch(m.f.verb, |w|, ch).1, |w|);
  }

  /** Names have no spaces and no NUL. */
  lemma NamesAreWords(v: Method, i: nat)
    ensures i < |MethodName(v)| ==> 'A' <= MethodName(v)[i] <= 'Z' || MethodName(v)[i] == '-'
  {
  }

  lemma {:induction false} LettersRead(m: Machine, w: seq<byte>)
    requires m.end == Running && m.f.state == StartReq && w != [] && ' ' !in w && w[0] != CR && w[0] != LF
    ensures Run(m, w).end == Running ==> Spelled(Run(m, w).f, w)
    decreases |w|
  {
    hide OnByte, Spelled;
    var n := |w| - 1;
    if n == 0 {
      FirstLetter(m, w[0]);
      assert w == [w[0]] && w[1..] == [];
    } else {
      LettersRead(m, w[..n]);
      assert w == w[..n] + [w[n]] && w[..n][0] == w[0];
      if Run(m, w[..n]).end == Running {
        NextLetter(Run(m, w[..n]), w[..n], w[n]);
        assert w[..n] == w[..n] && w[..n + 1] == w;
        RunOne(m, w, n);
      } else {
        RunStops(m, w, n);
      }
    }
  }

  /** A word that is accepted as a method is that method's name. */
  lemma MethodIsItsName(m: Machine, w: seq<byte>)
    requires m.end == Running && m.f.state == StartReq && w != [] && ' ' !in w && w[0] != CR && w[0] != LF
    ensures var r := Run(m, w + [' ']);
            r.end == Running ==> r.f.state == SpacesBeforeUrl && MethodName(r.f.verb) == w
  {
    hide OnByte, MethodName;
    LettersRead(m, w);
    var all := w + [' '];
    assert all[..|w|] == w && all[..|w| + 1] == all;
    if Run(m, w).end == Running {
      RunOne(m, all, |w|);
      NextLetter(Run(m, w), w, ' ');
    } else {
      RunStops(m, all, |w|);
    }
  }

  // ---------- every method is accepted ----------

  /** What the parser takes the first i letters of a method's name for. */
  function Guess(v: Method, i: nat): Method {
    match v
    case CHECKOUT => if i <= 1 then CONNECT else v
    case COPY => if i <= 2 then CONNECT else v
    case MOVE | MERGE | MSEARCH => if i <= 1 then MKCOL else v
    case MKACTIVITY => if i <= 2 then MKCOL else v
    case MKCALENDAR => if i <= 3 then MKCOL else v
    case SEARCH => if i <= 1 then SUBSCRIBE else v
    case PROPFIND | PUT | PATCH => if i <= 1 then POST else v
    case PURGE => if i <= 1 then POST else if i <= 2 then PUT else v
    case PROPPATCH => if i <= 1 then POST else if i <= 4 then PROPFIND else v
    case UNSUBSCRIBE => if i <= 2 then UNLOCK else v
    case _ => v
  }

  /** At letter i the name of v goes on as g, or leads from g to g'. */
  predicate Leads(v: Method, i: nat, g: Method, g': Method) {
    var name, guess := MethodName(v), MethodName(g);
    && i < |name| && i <= |guess|
    && if name[i] == At(guess, i) then g' == g
       else name[i] as int < 256 && Switch(g, i, name[i]) == (true, g')
  }

  lemma LeadsC()
    ensures Leads(CHECKOUT, 1, CONNECT, CHECKOUT) && Leads(COPY, 1, CONNECT, CONNECT) && Leads(COPY, 2, CONNECT, COPY)
  {
  }

  lemma LeadsM()
    ensures Leads(MOVE, 1, MKCOL, MOVE) && Leads(MERGE, 1, MKCOL, MERGE) && Leads(MSEARCH, 1, MKCOL, MSEARCH)
  {
  }

  lemma LeadsMk()
    ensures Leads(MKACTIVITY, 1, MKCOL, MKCOL) && Leads(MKACTIVITY, 2, MKCOL, MKACTIVITY)
  {
  }

  lemma LeadsMkc()
    ensures Leads(MKCALENDAR, 1, MKCOL, MKCOL) && Leads(MKCALENDAR, 2, MKCOL, MKCOL)
            && Leads(MKCALENDAR, 3, MKCOL, MKCALENDAR)
  {
  }

  lemma LeadsP()
    ensures Leads(PROPFIND, 1, POST, PROPFIND) && Leads(PUT, 1, POST, PUT) && Leads(PATCH, 1, POST, PATCH)
    ensures Leads(PURGE, 1, POST, PUT) && Leads(PURGE, 2, PUT, PURGE)
  {
  }

  lemma LeadsProp()
    ensures Leads(PROPPATCH, 1, POST, PROPFIND) && Leads(PROPPATCH, 2, PROPFIND, PROPFIND)
    ensures Leads(PROPPATCH, 3, PROPFIND, PROPFIND) && Leads(PROPPATCH, 4, PROPFIND, PROPPATCH)
  {
  }

  lemma LeadsU()
    ensures Leads(SEARCH, 1, SUBSCRIBE, SEARCH) && Leads(UNSUBSCRIBE, 1, UNLOCK, UNLOCK)
            && Leads(UNSUBSCRIBE, 2, UNLOCK, UNSUBSCRIBE)
  {
  }

  lemma LeadsOn(v: Method, i: nat)
    requires i < |MethodName(v)|
    ensures Leads(v, i, v, v)
  {
  }

  lemma GuessLeads(v: Method, i: nat)
    requires 0 < i < |MethodName(v)|
    ensures Leads(v, i, Guess(v, i), Guess(v, i + 1))
  {
    hide Leads, MethodName;
    LeadsC(); LeadsM(); LeadsMk(); LeadsMkc(); LeadsP(); LeadsProp(); LeadsU();
    LeadsOn(v, i);
  }

  lemma GuessFirst(v: Method)
    ensures MethodName(v) != [] && MethodName(v)[0] as int < 256
    ensures MethodOf(MethodName(v)[0]) == (true, Guess(v, 1)) && Guess(v, |MethodName(v)|) == v
  {
  }

  /** The fields inside the name of v, with the guess after i letters. */
  function Begun(f: Fields, v: Method, i: nat): Fields {
    f.(state := ReqMethod, verb := Guess(v, i), index := i, nread := f.nread + i, contentLength := ULLONG_MAX,
       flags := Flags(false, false, false, false, false))
  }

  lemma FirstGuess(m: Machine, v: Method, ch: byte)
    requires m.end == Running && m.f.state == StartReq && MethodName(v)[..1] == [ch]
    requires m.f.nread < HTTP_MAX_HEADER_SIZE
    ensures OnByte(m, ch) == Machine(Begun(m.f, v, 1), m.log + [Told(MessageBegin, Begun(m.f, v, 1))], Running,
                                     m.read + 1)
  {
    hide MethodName, MethodOf, Guess;
    GuessFirst(v);
    assert MethodName(v)[..1][0] == MethodName(v)[0];
    NamesAreWords(v, 0);
  }

  lemma NextGuess(m: Machine, v: Method, i: nat, ch: byte)
    requires m.end == Running && m.f.state == ReqMethod && m.f.index == i && m.f.verb == Guess(v, i)
    requires 0 < i < |MethodName(v)| && MethodName(v)[i] == ch && m.f.nread < HTTP_MAX_HEADER_SIZE
    ensures OnByte(m, ch) == Machine(m.f.(nread := m.f.nread + 1, verb := Guess(v, i + 1), index := i + 1),
                                     m.log, Running, m.read + 1)
  {
    hide MethodName, Switch, Guess;
    GuessLeads(v, i);
    NamesAreWords(v, i);
  }

  lemma {:induction false} GuessesRun(m: Machine, v: Method, w: seq<byte>, i: nat)
    requires m.end == Running && m.f.state == StartReq && w == MethodName(v) && 0 < i <= |w|
    requires m.f.nread + i <= HTTP_MAX_HEADER_SIZE
    ensures Run(m, w[..i]) == Machine(Begun(m.f, v, i), m.log + [Told(MessageBegin, Begun(m.f, v, 1))], Running,
                                      m.read + i)
    decreases i
  {
    hide OnByte, MethodName, Guess;
    assert w[..0] == [];
    if i == 1 {
      assert w[..1] == [w[0]];
      FirstGuess(m, v, w[0]);
    } else {
      GuessesRun(m, v, w, i - 1);
      NextGuess(Run(m, w[..i - 1]), v, i - 1, w[i - 1]);
    }
    RunOne(m, w, i - 1);
  }

  /** Every method of the table is read as itself, and a new message begins with it. */
  lemma MethodIsRead(m: Machine, v: Method, w: seq<byte>)
    requires m.end == Running && m.f.state == StartReq && w == MethodName(v)
    requires m.f.nread + |w| + 1 <= HTTP_MAX_HEADER_SIZE
    ensures Run(m, w + [' '])
            == Machine(Begun(m.f, v, |w|).(state := SpacesBeforeUrl, index := |w| + 1, nread := m.f.nread + |w| + 1),
                       m.log + [Told(MessageBegin, Begun(m.f, v, 1))], Running, m.read + |w| + 1)
    ensures Run(m, w + [' ']).f.verb == v
  {
    hide OnByte, MethodName, Guess;
    GuessFirst(v);
    GuessesRun(m, v, w, |w|);
    var all := w + [' '];
    assert all[..|w|] == w && all[..|w| + 1] == all && w[..|w|] == w;
    SpaceAfter(Run(m, w), |w|);
    RunOne(m, all, |w|);
  }

  lemma SpaceAfter(m: Machine, n: nat)
    requires m.end == Running && m.f.state == ReqMethod && m.f.index == n == |MethodName(m.f.verb)|
    requires m.f.nread < HTTP_MAX_HEADER_SIZE
    ensures OnByte(m, ' ') == Machine(m.f.(nread := m.f.nread + 1, state := SpacesBeforeUrl, index := n + 1),
                                      m.log, Running, m.read + 1)
  {
    hide MethodName;
  }
}
