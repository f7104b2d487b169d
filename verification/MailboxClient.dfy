/** The mailbox over the pipelining client: AddMsg is a command of RedisClient whose handler
    issues the trim, and the server decodes the bytes it is sent. */
module MailboxClient {
  import opened Resp
  import opened RespDecode
  import opened RespCommand
  import opened RedisClient
  import M = Mailbox

  /** The handlers of the two commands. */
  const PUSHED: Handler := 0
  const TRIMMED: Handler := 1

  const LPUSH: seq<octet> := [76, 80, 85, 83, 72]
  const LTRIM: seq<octet> := [76, 84, 82, 73, 77]
  const ZERO: seq<octet> := [48]
  const NINETY_NINE: seq<octet> := [57, 57]
  const OK_TEXT: Value := Bytes([79, 75])

  function PushItems(key: seq<octet>, m: M.Message): seq<seq<octet>> {
    [LPUSH, key, m]
  }

  function TrimItems(key: seq<octet>): seq<seq<octet>> {
    [LTRIM, key, ZERO, NINETY_NINE]
  }

  /** The handler of a push issues a trim when the reply is a length above 99. */
  function AddMsgReaction(key: seq<octet>): Reaction {
    (h: Handler, v: Value, n: nat) =>
      if h == PUSHED && v.Int? && v.n > 99 then [Issue(Command(TrimItems(key)), TRIMMED)] else []
  }

  /** `AddMsg` */
  method AddMsg(client: RedisClient, key: seq<octet>, m: M.Message) returns (ok: bool)
    requires client.Valid() && client.reacts == AddMsgReaction(key)
    modifies client`queue, client`handlers, client`writes, client`issued, client`issuedTo
    ensures ok && client.Valid() && client.View() == Asked(old(client.View()), key, m)
  {
    client.DoAsyncCommand(Command(PushItems(key, m)), PUSHED);
    ok := true;
  }

  function Asked(d: Desk, key: seq<octet>, m: M.Message): Desk {
    d.(handlers := d.handlers + [PUSHED], issued := d.issued + [Command(PushItems(key, m))],
       issuedTo := d.issuedTo + [PUSHED])
  }

  // ---------- the server ----------

  /** What the server makes of the bytes of one command: the new list and its reply. */
  function Served(key: seq<octet>, list: seq<M.Message>, buff: seq<octet>): (seq<M.Message>, Value) {
    match Decode(buff)
    case Got(Array(items), _) =>
      if |items| == 3 && items[0] == Bytes(LPUSH) && items[1] == Bytes(key) && items[2].Bytes? then
        ([items[2].s] + list, Int(|list| + 1))
      else if items == [Bytes(LTRIM), Bytes(key), Bytes(ZERO), Bytes(NINETY_NINE)] then (M.Truncated(list), OK_TEXT)
      else (list, ErrorText([]))
    case _ => (list, ErrorText([]))
  }

  /** The client's desk, how many of the commands it issued the server has executed, the
      replies it has not handled, and the server's list. */
  datatype World = World(d: Desk, executed: nat, replies: seq<Value>, list: seq<M.Message>)

  const Start := World(Desk([], [], [], [], false), 0, [], [])

  function Next(key: seq<octet>, w: World, a: M.Act): World {
    match a
    case AddMsg(m) => w.(d := Asked(w.d, key, m))
    case Execute =>
      if w.executed >= |w.d.issued| then w
      else
        var (list, v) := Served(key, w.list, w.d.issued[w.executed]);
        w.(executed := w.executed + 1, replies := w.replies + [v], list := list)
    case Handle =>
      if w.replies == [] then w else w.(d := Attend(w.d, w.replies[0], AddMsgReaction(key)), replies := w.replies[1..])
  }

  function RunWorld(key: seq<octet>, w: World, acts: seq<M.Act>): World
    decreases |acts|
  {
    if acts == [] then w else RunWorld(key, Next(key, w, acts[0]), acts[1..])
  }

  // ---------- it is the mailbox ----------

  function TextOf(key: seq<octet>, c: M.Command): seq<octet> {
    Command(if c.Push? then PushItems(key, c.m) else TrimItems(key))
  }

  function TargetOf(c: M.Command): Handler {
    if c.Push? then PUSHED else TRIMMED
  }

  function ValueOf(r: M.Reply): Value {
    if r.Pushed? then Int(r.length) else OK_TEXT
  }

  function ReplyTarget(r: M.Reply): Handler {
    if r.Pushed? then PUSHED else TRIMMED
  }

  /** Sizes that a 64-bit length can count. */
  predicate Sized(key: seq<octet>, c: M.Command) {
    |key| <= LONG_MAX && (c.Push? ==> |c.m| <= LONG_MAX)
  }

  /** The client and the server are in this state of the mailbox. */
  ghost predicate Shows(key: seq<octet>, w: World, s: M.State) {
    var k, n := w.executed, |s.replies|;
    && !w.d.stuck && w.list == s.list
    && |w.d.issued| == k + |s.commands| && |w.replies| == n && |w.d.handlers| == n + |s.commands|
    && (forall i | 0 <= i < |s.commands| ::
        w.d.issued[k + i] == TextOf(key, s.commands[i]) && Sized(key, s.commands[i]))
    && (forall i | 0 <= i < |s.commands| :: w.d.handlers[n + i] == TargetOf(s.commands[i]))
    && (forall i | 0 <= i < n :: w.replies[i] == ValueOf(s.replies[i]) && w.d.handlers[i] == ReplyTarget(s.replies[i]))
  }

  lemma ServedPush(key: seq<octet>, list: seq<M.Message>, m: M.Message)
    requires |key| <= LONG_MAX && |m| <= LONG_MAX
    ensures Served(key, list, Command(PushItems(key, m))) == ([m] + list, Int(|list| + 1))
  {
    hide Decode, Command;
    var items := PushItems(key, m);
    CommandRoundTrip(items, []);
    assert Command(items) + [] == Command(items);
  }

  lemma ServedTrim(key: seq<octet>, list: seq<M.Message>)
    requires |key| <= LONG_MAX
    ensures Served(key, list, Command(TrimItems(key))) == (M.Truncated(list), OK_TEXT)
  {
    hide Decode, Command;
    var items := TrimItems(key);
    CommandRoundTrip(items, []);
    assert Command(items) + [] == Command(items);
    assert AsValues(items) == [Bytes(LTRIM), Bytes(key), Bytes(ZERO), Bytes(NINETY_NINE)];
  }

  lemma ExecuteShows(key: seq<octet>, w: World, s: M.State)
    requires Shows(key, w, s) && s.commands != []
    ensures Shows(key, Next(key, w, M.Execute), M.Executed(s))
  {
    hide Served, Command, PushItems, TrimItems;
    var c := s.commands[0];
    assert w.d.issued[w.executed + 0] == TextOf(key, c);
    assert w.d.handlers[|s.replies| + 0] == TargetOf(c);
    match c
    case Push(m) => ServedPush(key, w.list, m);
    case Trim => ServedTrim(key, w.list);
  }

  lemma HandleShows(key: seq<octet>, w: World, s: M.State)
    requires Shows(key, w, s) && s.replies != [] && |key| <= LONG_MAX
    ensures Shows(key, Next(key, w, M.Handle), M.Handled(s))
  {
    hide Attend, AddMsgReaction, Command, PushItems, TrimItems;
    assert w.replies[0] == ValueOf(s.replies[0]) && w.d.handlers[0] == ReplyTarget(s.replies[0]);
    ReactionTo(key, w.d, s.replies[0]);
    hide ValueOf, ReplyTarget;
    var w', s', n := Next(key, w, M.Handle), M.Handled(s), |s.replies| - 1;
    forall i | 0 <= i < n
      ensures w'.replies[i] == ValueOf(s'.replies[i]) && w'.d.handlers[i] == ReplyTarget(s'.replies[i])
    {
      assert w.replies[i + 1] == ValueOf(s.replies[i + 1]) && w.d.handlers[i + 1] == ReplyTarget(s.replies[i + 1]);
    }
    forall i | 0 <= i < |s.commands| ensures w'.d.handlers[n + i] == TargetOf(s.commands[i]) {
      assert w.d.handlers[n + 1 + i] == TargetOf(s.commands[i]);
    }
  }

  /** The desk after a reply to a push or a trim. */
  lemma ReactionTo(key: seq<octet>, d: Desk, r: M.Reply)
    requires !d.stuck && d.handlers != [] && d.handlers[0] == ReplyTarget(r)
    ensures var d' := Attend(d, ValueOf(r), AddMsgReaction(key));
            && !d'.stuck
            && d'.issued == d.issued + (if M.AsksForTrim(r) then [Command(TrimItems(key))] else [])
            && d'.handlers == d.handlers[1..] + (if M.AsksForTrim(r) then [TRIMMED] else [])
  {
    hide Command, TrimItems;
    var issues := AddMsgReaction(key)(d.handlers[0], ValueOf(r), |d.calls|);
    var trim := Issue(Command(TrimItems(key)), TRIMMED);
    assert issues == if M.AsksForTrim(r) then [trim] else [];
    assert Buffs(issues) == if issues == [] then [] else [trim.buff];
    assert Targets(issues) == if issues == [] then [] else [TRIMMED];
  }

  /** Every step of client and server is that step of the mailbox. */
  lemma StepShows(key: seq<octet>, w: World, s: M.State, a: M.Act)
    requires Shows(key, w, s) && |key| <= LONG_MAX && (a.AddMsg? ==> |a.m| <= LONG_MAX)
    ensures Shows(key, Next(key, w, a), M.Step(s, a))
  {
    hide Command, PushItems, TrimItems, Served;
    match a
    case AddMsg(m) =>
    case Execute => if s.commands != [] { ExecuteShows(key, w, s); }
    case Handle => if s.replies != [] { HandleShows(key, w, s); }
  }

  lemma {:induction false} RunShows(key: seq<octet>, w: World, s: M.State, acts: seq<M.Act>)
    requires Shows(key, w, s) && |key| <= LONG_MAX
             && forall i | 0 <= i < |acts| && acts[i].AddMsg? :: |acts[i].m| <= LONG_MAX
    ensures Shows(key, RunWorld(key, w, acts), M.Run(s, acts))
    decreases |acts|
  {
    hide Shows, Next, M.Step;
    if acts != [] {
      StepShows(key, w, s, acts[0]);
      RunShows(key, Next(key, w, acts[0]), M.Step(s, acts[0]), acts[1..]);
    }
  }

  /** In every run the client is never left with a reply and no handler. When no handler
      waits any more, the server's list is the newest 100 of the messages sent, or all of
      them, newest first. */
  lemma ClientMailbox(key: seq<octet>, acts: seq<M.Act>)
    requires |key| <= LONG_MAX && forall i | 0 <= i < |acts| && acts[i].AddMsg? :: |acts[i].m| <= LONG_MAX
    ensures var w, n := RunWorld(key, Start, acts), |M.Sent(acts)|;
            && !w.d.stuck
            && (w.d.handlers == [] ==> w.list == M.Newest(M.Sent(acts), if n < M.LIMIT then n else M.LIMIT))
  {
    hide M.Newest, M.Sent;
    var s0 := M.State([], [], [], []);
    RunShows(key, Start, s0, acts);
    if RunWorld(key, Start, acts).d.handlers == [] { M.QuietMailbox(acts); }
  }
}
