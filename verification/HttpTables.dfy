/** The character tables and words of the HTTP parser. */
module HttpTables {

  import opened Bytes

  const CR := '\r'
  const LF := '\n'
  const FF := '\U{0c}'

  const CRLF: seq<byte> := [CR, LF]

  /** How a line ends. */
  datatype Eol = CrLf | JustLf

  function EolText(eol: Eol): (t: seq<byte>)
    ensures t != [] && t[0] != ' ' && t[0] != '\t'
  {
    if eol == CrLf then CRLF else [LF]
  }

  const ULLONG_MAX: nat := 0xffff_ffff_ffff_ffff
  const HTTP_MAX_HEADER_SIZE: nat := 80 * 1024

  datatype Method =
    | DELETE | GET | HEAD | POST | PUT | CONNECT | OPTIONS | TRACE | COPY | LOCK | MKCOL | MOVE | PROPFIND
    | PROPPATCH | SEARCH | UNLOCK | REPORT | MKACTIVITY | CHECKOUT | MERGE | MSEARCH | NOTIFY | SUBSCRIBE
    | UNSUBSCRIBE | PATCH | PURGE | MKCALENDAR

  function MethodName(m: Method): string {
    match m
    case DELETE => "DELETE" case GET => "GET" case HEAD => "HEAD" case POST => "POST" case PUT => "PUT"
    case CONNECT => "CONNECT" case OPTIONS => "OPTIONS" case TRACE => "TRACE" case COPY => "COPY"
    case LOCK => "LOCK" case MKCOL => "MKCOL" case MOVE => "MOVE" case PROPFIND => "PROPFIND"
    case PROPPATCH => "PROPPATCH" case SEARCH => "SEARCH" case UNLOCK => "UNLOCK" case REPORT => "REPORT"
    case MKACTIVITY => "MKACTIVITY" case CHECKOUT => "CHECKOUT" case MERGE => "MERGE" case MSEARCH => "M-SEARCH"
    case NOTIFY => "NOTIFY" case SUBSCRIBE => "SUBSCRIBE" case UNSUBSCRIBE => "UNSUBSCRIBE"
    case PATCH => "PATCH" case PURGE => "PURGE" case MKCALENDAR => "MKCALENDAR"
  }

  /** A C string's character; the one after the last is NUL. */
  function At(s: string, i: nat): char
    requires i <= |s|
  {
    if i < |s| then s[i] else '\0'
  }

  predicate IsAlpha(c: char) {
    'a' <= c <= 'z' || 'A' <= c <= 'Z'
  }

  function Digit(c: char): (d: nat)
    requires IsDigit(c)
    ensures d < 10
  {
    c as int - '0' as int
  }

  /** `c | 0x20` */
  function Lower(c: byte): char {
    if (c as int / 32) % 2 == 0 then (c as int + 32) as char else c
  }

  /** The token table: the lower-case form of a token character, NUL for any other. */
  function Token(c: byte): char {
    if 'A' <= c <= 'Z' then (c as int + 32) as char
    else if IsDigit(c) || 'a' <= c <= 'z' || c in "!#$%&'*+-.^_`|~" then c
    else '\0'
  }

  /** normal_url_char in strict mode */
  predicate IsUrlChar(c: byte) {
    '!' <= c <= '~' && c != '#' && c != '?'
  }

  predicate IsUserinfoChar(c: byte) {
    IsAlpha(c) || IsDigit(c) || c in "-_.!~*'()%;:&=+$,"
  }

  /** The unhex table. It lists 128 entries, so that bytes from 128 on read as 0. */
  function Unhex(c: byte): (v: int)
    ensures -1 <= v < 16
  {
    if IsDigit(c) then Digit(c)
    else if 'a' <= c <= 'f' then c as int - 'a' as int + 10
    else if 'A' <= c <= 'F' then c as int - 'A' as int + 10
    else if c as int >= 128 then 0
    else -1
  }
}
