/** How the request builder puts URL, headers and body together from what the parser
    delivers, in whatever pieces. */
module HttpBuilder {
  import opened HttpTables
  import opened HttpTurns
  import opened HttpMachine

  /** A request as it is handed over. */
  datatype Request = Request(verb: Method, rawUrl: string, url: string, headers: seq<(string, string)>, body: string)

  datatype Builder = Builder(
    rawUrl: string, building: bool, field: string, value: string,
    headers: seq<(string, string)>, body: string, requests: seq<Request>)

  const Fresh := Builder("", false, "", "", [], "", [])

  /** `raw_url.substr(0, raw_url.find("?"))` */
  function BeforeQuery(url: string): (r: string)
    ensures r <= url && '?' !in r && (|r| < |url| ==> url[|r|] == '?')
  {
    if url == "" || url[0] == '?' then "" else [url[0]] + BeforeQuery(url[1..])
  }

  /** A data callback. */
  function OnText(b: Builder, k: Kind, s: string): Builder {
    match k
    case UrlText => b.(rawUrl := b.rawUrl + s)
    case BodyText => b.(body := b.body + s)
    case FieldText =>
      if b.building then b.(field := b.field + s)
      else if b.value != "" then
        b.(headers := b.headers + [(b.field, b.value)], value := "", field := s, building := true)
      else b.(field := s, building := true)
    case ValueText =>
      if b.building then b.(building := false, value := s) else b.(value := b.value + s)
  }

  /** A notification. A string that was moved from is empty. */
  function OnNotice(b: Builder, n: Notice, at: Fields): Builder {
    match n
    case MessageBegin => Fresh.(requests := b.requests)
    case HeadersComplete =>
      if b.field != "" then b.(headers := b.headers + [(b.field, b.value)], field := "", value := "") else b
    case MessageComplete =>
      b.(requests := b.requests + [Request(at.verb, b.rawUrl, BeforeQuery(b.rawUrl), b.headers, b.body)])
  }

  function React(b: Builder, e: Event): Builder {
    match e
    case Text(k, s) => OnText(b, k, s)
    case Told(n, at) => OnNotice(b, n, at)
  }

  function Build(log: Log): Builder {
    if log == [] then Fresh else React(Build(log[..|log| - 1]), log[|log| - 1])
  }

  lemma OnTextTwice(b: Builder, k: Kind, s: string, t: string)
    ensures OnText(OnText(b, k, s), k, t) == OnText(b, k, s + t)
  {
    match k
    case UrlText => assert b.rawUrl + s + t == b.rawUrl + (s + t);
    case BodyText => assert b.body + s + t == b.body + (s + t);
    case FieldText => assert b.field + s + t == b.field + (s + t);
    case ValueText => assert b.value + s + t == b.value + (s + t);
  }

  /** Building from joined pieces is building from the pieces. */
  lemma BuildEmit(log: Log, e: Event)
    ensures Build(Emit(log, e)) == React(Build(log), e)
  {
    var r := Emit(log, e);
    if e.Text? && EndsIn(log, e.k) {
      var last := log[|log| - 1];
      assert r[..|r| - 1] == log[..|log| - 1];
      OnTextTwice(Build(log[..|log| - 1]), e.k, last.s, e.s);
    } else {
      assert r[..|r| - 1] == log;
    }
  }

  lemma BuildAppend(log: Log, e: Event)
    ensures Build(log + [e]) == React(Build(log), e)
  {
    assert (log + [e])[..|log|] == log;
  }
}
