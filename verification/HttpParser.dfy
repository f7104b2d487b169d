/** `http_parser_execute` over a buffer, with marks, bulk body reads and callbacks into the
    request builder, against the byte machine.

    The machine has no marks: it logs each byte at once. Pending is the log once the marked
    bytes are delivered, and every method is proved to keep it in step with the machine. */
module HttpParsing {
  import opened Bytes
  import opened HttpTables
  import opened HttpTurns
  import opened HttpMachine
  import opened HttpInvariant
  import opened HttpBody
  import opened HttpBuilder

  /** The marks into the current buffer; NO_MARK where none is set. */
  const NO_MARK := -1

  datatype Marks = Marks(field: int, value: int, url: int, body: int) {
    function Get(k: Kind): int {
      match k case FieldText => field case ValueText => value case UrlText => url case BodyText => body
    }

    function Set(k: Kind, at: int): Marks {
      match k
      case FieldText => this.(field := at) case ValueText => this.(value := at)
      case UrlText => this.(url := at) case BodyText => this.(body := at)
    }
  }

  lemma GetSet(marks: Marks, j: Kind, at: int)
    ensures forall k :: marks.Set(j, at).Get(k) == if k == j then at else marks.Get(k)
  {
  }

  predicate NoMarks(marks: Marks) {
    forall k :: marks.Get(k) == NO_MARK
  }

  /** A mark is set only for the element being read, and always for one other than a body. */
  predicate MarksOk(s: State, marks: Marks, p: nat) {
    && (forall k :: NO_MARK <= marks.Get(k) <= p)
    && (forall k :: marks.Get(k) != NO_MARK ==> ElementOf(s) == Element(k))
    && (ElementOf(s).Element? && ElementOf(s).k != BodyText ==> marks.Get(ElementOf(s).k) != NO_MARK)
  }

  /** The log once the marked bytes before p are delivered. */
  function Pending(log: Log, s: State, marks: Marks, data: seq<byte>, p: nat): Log
    requires MarksOk(s, marks, p) && p <= |data|
  {
    if ElementOf(s).Element? && marks.Get(ElementOf(s).k) != NO_MARK
    then Emit(log, Text(ElementOf(s).k, data[marks.Get(ElementOf(s).k)..p]))
    else log
  }

  lemma NothingPending(log: Log, s: State, marks: Marks, data: seq<byte>, p: nat)
    requires p < |data| && NoMarks(marks) && MarksOk(s, marks, p + 1)
    ensures MarksOk(s, marks, p)
    ensures Pending(log, s, marks, data, p) == log == Pending(log, s, marks, data, p + 1)
  {
  }

  /** The marks at the start of a buffer. */
  function StartMarks(s: State): Marks {
    var none := Marks(NO_MARK, NO_MARK, NO_MARK, NO_MARK);
    if s == Field then none.Set(FieldText, 0)
    else if s == Value then none.Set(ValueText, 0)
    else if IsUrlState(s) then none.Set(UrlText, 0)
    else none
  }

  class HttpParser {
    var f: Fields
    var errno: Errno

    var rawUrl: string
    var building: bool
    var headerField: string
    var headerValue: string
    var headers: seq<(string, string)>
    var body: string
    var requests: seq<Request>
    ghost var log: Log

    function View(): Builder
      reads `rawUrl, `building, `headerField, `headerValue, `headers, `body, `requests
    {
      Builder(rawUrl, building, headerField, headerValue, headers, body, requests)
    }

    ghost predicate Valid()
      reads this
    {
      View() == Build(log) && (errno == OK ==> FieldsOk(f, 0) && LogOk(f.state, log))
    }

    constructor ()
      ensures Valid() && errno == OK && f.state == StartReq && log == []
    {
      f := Fields(StartReq, General, 0, 0, 0, 0, 0, DELETE, Flags(false, false, false, false, false), false);
      errno := OK;
      rawUrl, building, headerField, headerValue, headers, body, requests := "", false, "", "", [], "", [];
      log := [];
    }

    // ---------- callbacks ----------

    method OnData(k: Kind, at: string)
      modifies `rawUrl, `building, `headerField, `headerValue, `headers, `body, `log
      ensures View() == OnText(old(View()), k, at)
      ensures log == Emit(old(log), Text(k, at))
    {
      log := Emit(log, Text(k, at));
      match k
      case UrlText => rawUrl := rawUrl + at;
      case BodyText => body := body + at;
      case FieldText =>
        if !building {
          if headerValue != "" {
            headers := headers + [(headerField, headerValue)];
            headerValue := "";
          }
          headerField := at;
          building := true;
        } else {
          headerField := headerField + at;
        }
      case ValueText =>
        if !building {
          headerValue := headerValue + at;
        } else {
          building := false;
          headerValue := at;
        }
    }

    method OnNotify(n: Notice)
      modifies `rawUrl, `building, `headerField, `headerValue, `headers, `body, `requests, `log
      ensures View() == OnNotice(old(View()), n, f)
      ensures log == old(log) + [Told(n, f)]
    {
      log := log + [Told(n, f)];
      match n
      case MessageBegin =>
        rawUrl, building, headerField, headerValue, headers, body := "", false, "", "", [], "";
      case HeadersComplete =>
        if headerField != "" {
          headers := headers + [(headerField, headerValue)];
          headerField, headerValue := "", "";
        }
      case MessageComplete =>
        requests := requests + [Request(f.verb, rawUrl, BeforeQuery(rawUrl), headers, body)];
    }

    /** CALLBACK_DATA: delivers the marked bytes before p, if the mark is set. */
    method Callback(k: Kind, data: seq<byte>, p: nat, marks: Marks) returns (marks': Marks)
      requires NO_MARK <= marks.Get(k) <= p <= |data| && View() == Build(log)
      modifies `rawUrl, `building, `headerField, `headerValue, `headers, `body, `log
      ensures View() == Build(log) && marks' == marks.Set(k, NO_MARK)
      ensures log == if marks.Get(k) == NO_MARK then old(log) else Emit(old(log), Text(k, data[marks.Get(k)..p]))
    {
      if marks.Get(k) != NO_MARK {
        OnData(k, data[marks.Get(k)..p]);
        BuildEmit(old(log), Text(k, data[marks.Get(k)..p]));
      }
      marks' := marks.Set(k, NO_MARK);
    }

    /** What a visit does with marks and callbacks; the fields are those after the visit. */
    method Perform(ghost s: State, act: Act, data: seq<byte>, p: nat, marks: Marks) returns (marks': Marks)
      requires p < |data| && MarksOk(s, marks, p) && View() == Build(log)
      requires Fits(s, act, f.state) && act != Start(BodyText)
      modifies `rawUrl, `building, `headerField, `headerValue, `headers, `body, `requests, `log
      ensures View() == Build(log) && MarksOk(f.state, marks', p + 1)
      ensures Logged(Pending(old(log), s, marks, data, p), f, act, data[p])
              == Pending(log, f.state, marks', data, p + 1)
      ensures act.Start? || act.Keep? || NoMarks(marks')
    {
      hide ElementOf, Emit, Build;
      marks' := marks;
      match act
      case Pass =>
      case Keep(k) =>
        EmitTwice(log, k, data[marks.Get(k)..p], [data[p]]);
        assert data[marks.Get(k)..p + 1] == data[marks.Get(k)..p] + [data[p]];
      case Start(k) =>
        if marks'.Get(k) == NO_MARK { marks' := marks'.Set(k, p); }
        assert data[p..p + 1] == [data[p]];
        GetSet(marks, k, p);
      case Flush(k) =>
        marks' := Callback(k, data, p, marks');
        GetSet(marks, k, NO_MARK);
        assert NoMarks(marks');
      case EmptyValue =>
        marks' := Callback(ValueText, data, p, marks'.Set(ValueText, p));
        assert data[p..p] == "";
        GetSet(marks, ValueText, p);
        GetSet(marks.Set(ValueText, p), ValueText, NO_MARK);
        assert NoMarks(marks');
      case Tell(n) =>
        OnNotify(n);
        BuildAppend(old(log), Told(n, f));
    }

    /** The switch and its `goto reexecute_byte`, for any state but those that take body bytes. */
    method Visit(data: seq<byte>, p: nat, marks: Marks) returns (marks': Marks, left: bool)
      requires p < |data| && errno == OK && View() == Build(log)
      requires FieldsOk(f, 1) && MarksOk(f.state, marks, p) && !f.state.BodyIdentity? && !f.state.ChunkData?
      modifies this
      ensures View() == Build(log)
      ensures var m := Turns(Machine(old(f), Pending(old(log), old(f.state), marks, data, p), Running, p), data[p]);
              if errno != OK then m.end == Failed(errno) && m.read == p
              else if left then m == Machine(f, log, Left, p + 1)
              else
                && MarksOk(f.state, marks', p + 1)
                && m == Machine(f, Pending(log, f.state, marks', data, p + 1), Running, p + 1)
    {
      hide OneTurn, FieldsOk, Fits, ElementOf, Emit, Build, Rank, Logged, MarksOk;
      var ch := data[p];
      marks', left := marks, false;
      ghost var log0 := Pending(log, f.state, marks, data, p);
      ghost var all := Turns(Machine(f, log0, Running, p), ch);
      while true
        invariant errno == OK && View() == Build(log) && !left
        invariant FieldsOk(f, 1) && MarksOk(f.state, marks', p) && !f.state.BodyIdentity? && !f.state.ChunkData?
        invariant all == Turns(Machine(f, Pending(log, f.state, marks', data, p), Running, p), ch)
        decreases Rank(f.state)
      {
        EveryTurnOk(f, ch);
        EveryTurnFits(f, ch);
        RankFalls(f, ch);
        AgainIsNoData(f, ch);
        ghost var s := f.state;
        var t := OneTurn(f, ch);
        if t.Fail? {
          errno := t.e;
          return;
        }
        DataOnlyAtData(s, t.act, t.f.state);
        f := t.f;
        marks' := Perform(s, t.act, data, p, marks');
        if !t.act.Start? && !t.act.Keep? { NothingPending(log, f.state, marks', data, p); }
        if t.Exit? {
          left := true;
          return;
        }
        if t.Go? { return; }
      }
    }

    /** The bulk reads of `s_body_identity` and `s_chunk_data`: all bytes at hand, up to the length. */
    method ReadData(data: seq<byte>, p: nat, marks: Marks) returns (marks': Marks, q: nat)
      requires p < |data| && errno == OK && View() == Build(log)
      requires MarksOk(f.state, marks, p) && TakesData(f)
      modifies this
      ensures View() == Build(log) && errno == OK && p < q <= |data| && q - p <= old(f).contentLength
      ensures MarksOk(f.state, marks', q)
      ensures AfterData(Machine(old(f), Pending(old(log), old(f.state), marks, data, p), Running, p), data[p..q])
              == Machine(f, Pending(log, f.state, marks', data, q), Running, q)
    {
      hide Emit, Build, Pending, MarksOk, NewMessage, OnlyBody, View, ElementOf, FieldsOk, LogOk, AfterData;
      BodyElements();
      ghost var m := Machine(f, Pending(log, f.state, marks, data, p), Running, p);
      var toRead := if f.contentLength < |data| - p then f.contentLength else |data| - p;
      q := p + toRead;
      marks' := if marks.Get(BodyText) == NO_MARK then marks.Set(BodyText, p) else marks;
      MarkBody(log, f.state, marks, data, p, q);
      if toRead < f.contentLength { DataGoesOn(m, data[p..q]); } else { DataEnds(m, data[p..q]); }
      f := f.(contentLength := f.contentLength - toRead);
      if f.contentLength > 0 {
        BodyPending(log, f.state, marks', data, q);
      } else if f.state == ChunkData {
        f := f.(state := ChunkDataAlmostDone);
        BodyPending(log, f.state, marks', data, q);
      } else {
        f := f.(state := MessageDone);
        marks' := FinishBody(data, q, marks');
      }
    }

    /** The last body bytes are delivered before the message is complete. */
    method FinishBody(data: seq<byte>, q: nat, marks: Marks) returns (marks': Marks)
      requires q <= |data| && View() == Build(log) && f.state == MessageDone && OnlyBody(marks, q)
      modifies this
      ensures View() == Build(log) && errno == old(errno)
      ensures f == old(f).(state := NewMessage(old(f)))
      ensures MarksOk(f.state, marks', q) && Pending(log, f.state, marks', data, q) == log
      ensures log == Emit(old(log), Text(BodyText, data[marks.Get(BodyText)..q])) + [Told(MessageComplete, f)]
    {
      hide Emit, Build;
      marks' := Callback(BodyText, data, q, marks);
      GetSet(marks, BodyText, NO_MARK);
      f := f.(state := NewMessage(f));
      ghost var log1 := log;
      OnNotify(MessageComplete);
      BuildAppend(log1, Told(MessageComplete, f));
    }

    /** One byte outside a body: the header limit, then the switch. */
    method ReadByte(data: seq<byte>, p: nat, marks: Marks) returns (marks': Marks, left: bool)
      requires p < |data| && errno == OK && View() == Build(log)
      requires FieldsOk(f, 0) && MarksOk(f.state, marks, p) && !f.state.BodyIdentity? && !f.state.ChunkData?
      modifies this
      ensures View() == Build(log)
      ensures var m := OnByte(Machine(old(f), Pending(old(log), old(f.state), marks, data, p), Running, p), data[p]);
              if errno != OK then m.end == Failed(errno) && m.read == p
              else if left then m == Machine(f, log, Left, p + 1)
              else
                && MarksOk(f.state, marks', p + 1)
                && m == Machine(f, Pending(log, f.state, marks', data, p + 1), Running, p + 1)
    {
      hide FieldsOk, Emit, Build, Turns, Pending, MarksOk, LogOk, View, Rank;
      if ParsingHeader(f.state) && f.nread + 1 > HTTP_MAX_HEADER_SIZE {
        errno := HEADER_OVERFLOW;
        return marks, false;
      }
      CountedOk(f);
      f := Counted(f);
      marks', left := Visit(data, p, marks);
    }

    /** Reads a buffer. The count is the length, or the offset of the offending byte, or
        where the parser left for an upgrade. */
    method Execute(data: seq<byte>) returns (n: nat)
      requires Valid()
      modifies this
      ensures Valid()
      ensures old(errno) != OK ==> n == 0 && errno == old(errno) && log == old(log)
      ensures old(errno) == OK && data == [] ==>
                && log == old(log) && f == old(f) && (if errno == OK then n == 0 else n == 1)
                && errno == (if f.state == Dead || f.state == StartReq then OK else INVALID_EOF_STATE)
      ensures old(errno) == OK && data != [] ==> Ends(Run(Machine(old(f), old(log), Running, 0), data), n)
    {
      hide FieldsOk, Emit, Build, OnByte, Run, Pending, MarksOk, LogOk, View, StartMarks, AfterData, TakesData, Ends;
      if errno != OK { return 0; }
      if data == [] {
        if f.state == Dead || f.state == StartReq { return 0; }
        errno := INVALID_EOF_STATE;
        return 1;
      }
      n := ReadAll(data);
    }

    /** The bytes of a buffer in turn. */
    method ReadAll(data: seq<byte>) returns (n: nat)
      requires Valid() && errno == OK && data != []
      modifies this
      ensures Valid() && Ends(Run(Machine(old(f), old(log), Running, 0), data), n)
    {
      hide FieldsOk, Emit, Build, OnByte, Run, Pending, MarksOk, LogOk, View, StartMarks, AfterData, TakesData;
      ghost var m0 := Machine(f, log, Running, 0);
      RunOk(m0, data);
      var marks := StartMarks(f.state);
      FirstMarks(log, f.state, data);
      RunNothing(m0, data);
      var p: nat := 0;
      while p < |data|
        invariant p <= |data| && errno == OK && View() == Build(log)
        invariant FieldsOk(f, 0) && MarksOk(f.state, marks, p)
        invariant Run(m0, data[..p]) == Machine(f, Pending(log, f.state, marks, data, p), Running, p)
      {
        ghost var m := Run(m0, data[..p]);
        if f.state == BodyIdentity || f.state == ChunkData {
          ghost var p0 := p;
          DataFields(f);
          marks, p := ReadData(data, p, marks);
          RunFurther(m0, data, p0, p);
          RunData(m, data[p0..p]);
        } else {
          RunOne(m0, data, p);
          var left;
          marks, left := ReadByte(data, p, marks);
          p := p + 1;
          if errno != OK || left {
            RunStops(m0, data, p);
            return if errno == OK then p else p - 1;
          }
        }
        RunOk(m0, data[..p]);
      }
      assert data[..p] == data;
      Leftovers(data, marks);
      n := p;
    }

    /** At most one mark is left at the end of a buffer; what it marks is delivered. */
    method Leftovers(data: seq<byte>, marks: Marks)
      requires View() == Build(log) && MarksOk(f.state, marks, |data|)
      modifies `rawUrl, `building, `headerField, `headerValue, `headers, `body, `log
      ensures View() == Build(log) && log == Pending(old(log), f.state, marks, data, |data|)
    {
      hide Emit, Build, ElementOf;
      assert forall j: Kind, k: Kind :: marks.Get(j) != NO_MARK && marks.Get(k) != NO_MARK ==> j == k;
      assert forall k :: NO_MARK <= marks.Get(k) <= |data|;
      GetSet(marks, FieldText, NO_MARK);
      var m := Callback(FieldText, data, |data|, marks);
      GetSet(m, ValueText, NO_MARK);
      m := Callback(ValueText, data, |data|, m);
      GetSet(m, UrlText, NO_MARK);
      m := Callback(UrlText, data, |data|, m);
      m := Callback(BodyText, data, |data|, m);
    }

    ghost predicate Ends(m: Machine, n: nat)
      reads this
    {
      n == m.read && match m.end
                     case Running => errno == OK && f == m.f && log == m.log
                     case Failed(e) => errno == e
                     case Left => errno == OK && f == m.f && log == m.log
                     case Crashed => false
    }
  }

  /** The body mark is set and no other. */
  predicate OnlyBody(marks: Marks, q: nat) {
    0 <= marks.Get(BodyText) <= q && forall k :: k != BodyText ==> marks.Get(k) == NO_MARK
  }

  lemma MarkBody(log: Log, s: State, marks: Marks, data: seq<byte>, p: nat, q: nat)
    requires MarksOk(s, marks, p) && ElementOf(s) == Element(BodyText) && p <= q <= |data|
    ensures var m := if marks.Get(BodyText) == NO_MARK then marks.Set(BodyText, p) else marks;
            && OnlyBody(m, q)
            && Emit(Pending(log, s, marks, data, p), Text(BodyText, data[p..q]))
               == Emit(log, Text(BodyText, data[m.Get(BodyText)..q]))
  {
    hide Emit;
    GetSet(marks, BodyText, p);
    if marks.Get(BodyText) != NO_MARK {
      EmitTwice(log, BodyText, data[marks.Get(BodyText)..p], data[p..q]);
      assert data[marks.Get(BodyText)..q] == data[marks.Get(BodyText)..p] + data[p..q];
    }
  }

  lemma BodyPending(log: Log, s: State, marks: Marks, data: seq<byte>, q: nat)
    requires ElementOf(s) == Element(BodyText) && q <= |data| && OnlyBody(marks, q)
    ensures MarksOk(s, marks, q)
    ensures Pending(log, s, marks, data, q) == Emit(log, Text(BodyText, data[marks.Get(BodyText)..q]))
  {
  }

  lemma StartMarksAre(s: State)
    ensures forall k :: StartMarks(s).Get(k) == if ElementOf(s) == Element(k) && k != BodyText then 0 else NO_MARK
  {
    hide ElementOf, IsUrlState;
    UrlElements(s);
    var none := Marks(NO_MARK, NO_MARK, NO_MARK, NO_MARK);
    GetSet(none, FieldText, 0);
    GetSet(none, ValueText, 0);
    GetSet(none, UrlText, 0);
  }

  /** Nothing is pending at the start of a buffer. */
  lemma FirstMarks(log: Log, s: State, data: seq<byte>)
    requires LogOk(s, log)
    ensures MarksOk(s, StartMarks(s), 0) && Pending(log, s, StartMarks(s), data, 0) == log
  {
    hide Emit, EndsIn, ElementOf, StartMarks;
    StartMarksAre(s);
    assert data[0..0] == "";
    if ElementOf(s).Element? && ElementOf(s).k != BodyText { EmitNothing(log, ElementOf(s).k); }
  }

  lemma BodyElements()
    ensures ElementOf(BodyIdentity) == ElementOf(ChunkData) == ElementOf(ChunkDataAlmostDone) == Element(BodyText)
  {
  }

  lemma UrlElements(s: State)
    ensures IsUrlState(s) <==> ElementOf(s) == Element(UrlText)
    ensures s == Field <==> ElementOf(s) == Element(FieldText)
    ensures s == Value <==> ElementOf(s) == Element(ValueText)
  {
  }

  lemma RunNothing(m: Machine, data: seq<byte>)
    ensures Run(m, data[..0]) == m
  {
  }

  lemma RunFurther(m: Machine, data: seq<byte>, p: nat, q: nat)
    requires p <= q <= |data|
    ensures Run(m, data[..q]) == Run(Run(m, data[..p]), data[p..q])
  {
    hide Run;
    assert data[..q] == data[..p] + data[p..q];
    RunSplit(m, data[..p], data[p..q]);
  }

  lemma DataFields(f: Fields)
    requires FieldsOk(f, 0) && (f.state == BodyIdentity || f.state == ChunkData)
    ensures TakesData(f)
  {
  }
}
