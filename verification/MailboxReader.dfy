/** Fetching a mailbox: GetMsg reads the list on one connection and clears it, later, on the
    other. What is pushed between the two is cleared without having been read. */
module MailboxReader {
  import M = Mailbox

  /** What the server does to the list, in the order it does it. */
  datatype Op = Push(m: M.Message) | Trim | Read | Clear

  /** The list, newest first, and how many of its newest messages have not been read. */
  datatype Box = Box(list: seq<M.Message>, unread: nat)

  function Least(a: nat, b: nat): nat {
    if a < b then a else b
  }

  /** `LTRIM key 100 -1`: the newest hundred go. */
  function Cleared(list: seq<M.Message>): seq<M.Message> {
    list[Least(|list|, M.LIMIT)..]
  }

  function After(b: Box, op: Op): Box {
    match op
    case Push(m) => Box([m] + b.list, b.unread + 1)
    case Trim => Box(M.Truncated(b.list), Least(b.unread, M.LIMIT))
    case Read => b.(unread := 0)
    case Clear => Box(Cleared(b.list), b.unread - Least(b.unread, M.LIMIT))
  }

  function Run(b: Box, ops: seq<Op>): Box {
    if ops == [] then b else After(Run(b, ops[..|ops| - 1]), ops[|ops| - 1])
  }

  function Pushes(ops: seq<Op>): seq<M.Message> {
    if ops == [] then []
    else Pushes(ops[..|ops| - 1]) + (if ops[|ops| - 1].Push? then [ops[|ops| - 1].m] else [])
  }

  /** Pushes and trims, as AddMsg causes them. */
  predicate FromAddMsg(ops: seq<Op>) {
    forall i | 0 <= i < |ops| :: ops[i].Push? || ops[i].Trim?
  }

  /** After a read, what is unread are the newest of the messages pushed since; trims take away
      none of the newest hundred. */
  lemma {:induction false} UnreadAreNewest(b: Box, ops: seq<Op>)
    requires b.unread == 0 && FromAddMsg(ops)
    ensures var t, ms := Run(b, ops), Pushes(ops);
            && t.unread <= |t.list| && t.unread <= |ms| && t.list[..t.unread] == M.Newest(ms, t.unread)
            && Least(t.unread, M.LIMIT) == Least(|ms|, M.LIMIT)
    decreases |ops|
  {
    hide M.Newest;
    if ops == [] {
      NoneNewest([]);
    } else {
      var n := |ops| - 1;
      UnreadAreNewest(b, ops[..n]);
      var t, ms := Run(b, ops[..n]), Pushes(ops[..n]);
      match ops[n]
      case Push(m) =>
        M.PushIsNewest(ms, t.unread, m);
        assert ([m] + t.list)[..t.unread + 1] == [m] + t.list[..t.unread];
      case Trim =>
        var k := Least(t.unread, M.LIMIT);
        M.TrimKeepsNewest(ms, t.unread, k);
        assert M.Truncated(t.list)[..k] == t.list[..t.unread][..k];
        assert ms + [] == ms;
    }
  }

  lemma NoneNewest(ms: seq<M.Message>)
    ensures M.Newest(ms, 0) == []
  {
  }

  /** GetMsg reads a list; pushes and trims follow, then the clearing: the newest of the pushed
      messages, up to a hundred, are gone unread. None is if and only if none was pushed. */
  lemma ClearedUnread(list: seq<M.Message>, ops: seq<Op>)
    requires FromAddMsg(ops)
    ensures var t, ms := Run(Box(list, 0), ops), Pushes(ops);
            var lost, d := Least(|ms|, M.LIMIT), After(t, Clear);
            && lost <= |t.list| && t.list[..lost] == M.Newest(ms, lost)
            && d.list == t.list[Least(|t.list|, M.LIMIT)..] && d.unread == t.unread - lost
            && (lost == 0 <==> ms == [])
  {
    hide M.Newest;
    UnreadAreNewest(Box(list, 0), ops);
    var t, ms := Run(Box(list, 0), ops), Pushes(ops);
    M.TrimKeepsNewest(ms, t.unread, Least(|ms|, M.LIMIT));
    assert t.list[..t.unread][..Least(|ms|, M.LIMIT)] == t.list[..Least(|ms|, M.LIMIT)];
  }

  // ---------- one client ----------

  function OpOf(c: M.Command): Op {
    match c case Push(m) => Push(m) case Trim => Trim
  }

  /** The commands that are written and not executed when GetMsg is called: they come before
      its clearing, which queues up behind them. */
  function Outstanding(commands: seq<M.Command>): seq<Op> {
    if commands == [] then [] else Outstanding(commands[..|commands| - 1]) + [OpOf(commands[|commands| - 1])]
  }

  lemma {:induction false} OutstandingPushes(commands: seq<M.Command>)
    ensures FromAddMsg(Outstanding(commands)) && Pushes(Outstanding(commands)) == M.Waiting(commands)
    decreases |commands|
  {
    hide M.Waiting;
    if commands == [] {
      NoneWaiting();
    } else {
      var n := |commands| - 1;
      var ops := Outstanding(commands[..n]);
      OutstandingPushes(commands[..n]);
      M.WaitingAppend(commands[..n], [commands[n]]);
      assert commands[..n] + [commands[n]] == commands;
      OneWaiting(commands[n]);
      assert (ops + [OpOf(commands[n])])[..|ops|] == ops;
    }
  }

  lemma NoneWaiting()
    ensures M.Waiting([]) == []
  {
  }

  lemma OneWaiting(c: M.Command)
    ensures M.Waiting([c]) == if c.Push? then [c.m] else []
  {
    assert [c][1..] == [];
  }

  /** A client that nobody shares the mailbox with loses messages by GetMsg exactly if some of
      its own are not pushed yet when the list is read. */
  lemma GetMsgLoses(s: M.State)
    ensures var ops := Outstanding(s.commands);
            var t, lost := Run(Box(s.list, 0), ops), Least(|M.Waiting(s.commands)|, M.LIMIT);
            && lost <= |t.list| && t.list[..lost] == M.Newest(M.Waiting(s.commands), lost)
            && After(t, Clear).unread == t.unread - lost
            && (lost == 0 <==> M.Waiting(s.commands) == [])
  {
    hide M.Newest, M.Waiting;
    OutstandingPushes(s.commands);
    ClearedUnread(s.list, Outstanding(s.commands));
  }

  /** A message sent just before GetMsg is in nobody's answer and not in the list. */
  lemma SentAndLost(m: M.Message)
    ensures var s := M.Run(M.State([], [], [], []), [M.AddMsg(m)]);
            && s.list == [] && Run(Box(s.list, 0), Outstanding(s.commands)) == Box([m], 1)
            && After(Box([m], 1), Clear) == Box([], 0)
  {
    var s := M.Run(M.State([], [], [], []), [M.AddMsg(m)]);
    assert [M.AddMsg(m)][1..] == [] && s.commands == [M.Push(m)] && [M.Push(m)][..0] == [];
    assert Outstanding(s.commands) == [Push(m)] && [Push(m)][..0] == [] && [m] + [] == [m];
  }
}
