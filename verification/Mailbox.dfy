/** A user's mailbox on the Redis server: messages are pushed through the pipelined client
    and the list is trimmed, later, by the replies to the pushes. */
module Mailbox {
  import Resp

  type Message = seq<Resp.octet>

  const LIMIT := 100

  datatype Command = Push(m: Message) | Trim

  /** A reply: the length of the list after a push, or that of a trim. */
  datatype Reply = Pushed(length: nat) | Trimmed

  /** The list, newest first; commands written and not executed; replies not yet handled;
      every message the server has pushed, oldest first. */
  datatype State = State(list: seq<Message>, commands: seq<Command>, replies: seq<Reply>, history: seq<Message>)

  /** A call of AddMsg, the server executing a command, the client handling a reply. */
  datatype Act = AddMsg(m: Message) | Execute | Handle

  function Truncated(list: seq<Message>): seq<Message> {
    if |list| > LIMIT then list[..LIMIT] else list
  }

  function Executed(s: State): State
    requires s.commands != []
  {
    match s.commands[0]
    case Push(m) =>
      State([m] + s.list, s.commands[1..], s.replies + [Pushed(|s.list| + 1)], s.history + [m])
    case Trim => State(Truncated(s.list), s.commands[1..], s.replies + [Trimmed], s.history)
  }

  /** A push reply over 99 makes the client send a trim. */
  predicate AsksForTrim(r: Reply) {
    r.Pushed? && r.length > LIMIT - 1
  }

  function Handled(s: State): State
    requires s.replies != []
  {
    s.(replies := s.replies[1..],
       commands := if AsksForTrim(s.replies[0]) then s.commands + [Trim] else s.commands)
  }

  /** A step; one that cannot be taken changes nothing. */
  function Step(s: State, a: Act): State {
    match a
    case AddMsg(m) => s.(commands := s.commands + [Push(m)])
    case Execute => if s.commands == [] then s else Executed(s)
    case Handle => if s.replies == [] then s else Handled(s)
  }

  function Run(s: State, acts: seq<Act>): State
    decreases |acts|
  {
    if acts == [] then s else Run(Step(s, acts[0]), acts[1..])
  }

  /** The newest k messages, newest first. */
  function Newest(history: seq<Message>, k: nat): (r: seq<Message>)
    requires k <= |history|
    ensures |r| == k && forall i | 0 <= i < k :: r[i] == history[|history| - 1 - i]
  {
    if k == 0 then [] else [history[|history| - 1]] + Newest(history[..|history| - 1], k - 1)
  }

  /** A trim is on its way, or a reply that will cause one. */
  predicate TrimPending(s: State) {
    Trim in s.commands || exists i | 0 <= i < |s.replies| :: AsksForTrim(s.replies[i])
  }

  ghost predicate Inv(s: State) {
    && |s.list| <= |s.history| && s.list == Newest(s.history, |s.list|)
    && (|s.list| >= LIMIT || |s.list| == |s.history|)
    && (|s.list| > LIMIT ==> TrimPending(s))
  }

  lemma TrimKeepsNewest(history: seq<Message>, k: nat, j: nat)
    requires j <= k <= |history|
    ensures Newest(history, k)[..j] == Newest(history, j)
  {
  }

  lemma PushIsNewest(history: seq<Message>, k: nat, m: Message)
    requires k <= |history|
    ensures [m] + Newest(history, k) == Newest(history + [m], k + 1)
  {
  }

  lemma StepInv(s: State, a: Act)
    requires Inv(s)
    ensures Inv(Step(s, a))
  {
    hide Newest;
    match a
    case AddMsg(m) =>
    case Execute =>
      if s.commands != [] {
        match s.commands[0]
        case Push(m) =>
          var t := Executed(s);
          PushIsNewest(s.history, |s.list|, m);
          assert t.replies[|t.replies| - 1] == Pushed(|t.list|);
        case Trim =>
          TrimKeepsNewest(s.history, |s.list|, |Truncated(s.list)|);
      }
    case Handle =>
      if s.replies != [] {
        var t := Handled(s);
        if AsksForTrim(s.replies[0]) {
          assert t.commands[|t.commands| - 1] == Trim;
        } else if i :| 0 <= i < |s.replies| && AsksForTrim(s.replies[i]) {
          assert t.replies[i - 1] == s.replies[i];
        }
      }
  }

  lemma {:induction false} RunInv(s: State, acts: seq<Act>)
    requires Inv(s)
    ensures Inv(Run(s, acts))
    decreases |acts|
  {
    hide Inv, Step;
    if acts != [] {
      StepInv(s, acts[0]);
      RunInv(Step(s, acts[0]), acts[1..]);
    }
  }

  /** In every run a list longer than 100 has a trim, or a reply that will cause one, pending. */
  lemma LongListIsTrimmed(acts: seq<Act>)
    ensures var s := Run(State([], [], [], []), acts); |s.list| > LIMIT ==> TrimPending(s)
  {
    RunInv(State([], [], [], []), acts);
  }

  /** The messages of a run, in the order of the calls. */
  function Sent(acts: seq<Act>): seq<Message> {
    if acts == [] then [] else (if acts[0].AddMsg? then [acts[0].m] else []) + Sent(acts[1..])
  }

  function Waiting(commands: seq<Command>): seq<Message> {
    if commands == [] then [] else (if commands[0].Push? then [commands[0].m] else []) + Waiting(commands[1..])
  }

  lemma {:induction false} WaitingAppend(a: seq<Command>, b: seq<Command>)
    ensures Waiting(a + b) == Waiting(a) + Waiting(b)
    decreases |a|
  {
    if a == [] {
      assert a + b == b;
    } else {
      assert (a + b)[1..] == a[1..] + b;
      WaitingAppend(a[1..], b);
    }
  }

  /** The messages pushed and those still waiting are the messages sent, in order. */
  lemma {:induction false} NoneLost(s: State, acts: seq<Act>)
    ensures var t := Run(s, acts); t.history + Waiting(t.commands) == s.history + Waiting(s.commands) + Sent(acts)
    decreases |acts|
  {
    if acts == [] {
      assert s.history + Waiting(s.commands) + [] == s.history + Waiting(s.commands);
    } else {
      var s1 := Step(s, acts[0]);
      NoneLost(s1, acts[1..]);
      StepSends(s, acts[0]);
      var mine := if acts[0].AddMsg? then [acts[0].m] else [];
      assert s.history + Waiting(s.commands) + mine + Sent(acts[1..])
             == s.history + Waiting(s.commands) + (mine + Sent(acts[1..]));
    }
  }

  lemma StepSends(s: State, a: Act)
    ensures var t := Step(s, a);
            t.history + Waiting(t.commands) == s.history + Waiting(s.commands) + (if a.AddMsg? then [a.m] else [])
  {
    match a
    case AddMsg(m) =>
      WaitingAppend(s.commands, [Push(m)]);
      assert Waiting([Push(m)]) == [m];
      assert s.history + (Waiting(s.commands) + [m]) == s.history + Waiting(s.commands) + [m];
    case Execute =>
      if s.commands != [] && s.commands[0].Push? {
        assert s.history + ([s.commands[0].m] + Waiting(s.commands[1..]))
               == s.history + [s.commands[0].m] + Waiting(s.commands[1..]);
      }
    case Handle =>
      if s.replies != [] {
        WaitingAppend(s.commands, [Trim]);
        assert Waiting([Trim]) == [];
        assert Waiting(s.commands) + [] == Waiting(s.commands);
      }
  }

  /** When nothing is outstanding the list is exactly the newest 100 messages sent, or all
      of them, newest first. */
  lemma QuietMailbox(acts: seq<Act>)
    requires var s := Run(State([], [], [], []), acts); s.commands == [] && s.replies == []
    ensures var s, n := Run(State([], [], [], []), acts), |Sent(acts)|;
            s.list == Newest(Sent(acts), if n < LIMIT then n else LIMIT)
  {
    hide Newest;
    var s0: State := State([], [], [], []);
    var s := Run(s0, acts);
    RunInv(s0, acts);
    NoneLost(s0, acts);
    assert s.history + [] == s.history && [] + [] + Sent(acts) == Sent(acts);
  }
}
