/** The request grammar of the HTTP/1.1 parser, as functions of the bytes received. */
module Http {
  import opened Wrappers
  import opened Text

  const MAX_HEADERS: nat := 16
  const MAX_REQUEST_LINE: nat := 1024
  const MAX_HEADER_LINE: nat := 1024
  const MAX_BODY: nat := 256 * 1024
  /** `usize` on wasm32, where the server runs. */
  const USIZE_MAX: nat := 0xFFFF_FFFF

  const CRLF: string := "\r\n"

  datatype HttpError = BadRequestLine | BadMethod | BadHeader | TooManyHeaders | LineTooLong | BadContentLength

  datatype Method = Get | Post | Delete

  datatype Header = Header(name: string, value: string)

  datatype Request = Request(verb: Method, target: string, headers: seq<Header>, body: string)

  datatype Outcome<+T> = Complete(value: T, end: nat) | Partial | Failed(error: HttpError)

  // ---- Lines ----

  predicate CrlfAt(s: string, i: int) {
    0 <= i && i + 1 < |s| && s[i] == '\r' && s[i + 1] == '\n'
  }

  /** The next CRLF at or after `from`. */
  function FindCrlf(s: string, from: nat): (r: Option<nat>)
    ensures r.Some? ==> from <= r.value && CrlfAt(s, r.value) && forall j :: from <= j < r.value ==> !CrlfAt(s, j)
    ensures r.None? ==> forall j :: from <= j ==> !CrlfAt(s, j)
    decreases |s| - from
  {
    if from + 1 >= |s| then None
    else if CrlfAt(s, from) then Some(from)
    else FindCrlf(s, from + 1)
  }

  /** The line that starts at `from`: complete with its CRLF, cut short, or over the cap. */
  function NextLine(s: string, from: nat, cap: nat): (r: Outcome<string>)
    requires from <= |s|
    ensures r.Complete? ==> r.end <= |s| && r.end == from + |r.value| + 2 && r.value == s[from..from + |r.value|]
  {
    match FindCrlf(s, from)
    case None => if |s| - from > cap then Failed(LineTooLong) else Partial
    case Some(e) => if e - from > cap then Failed(LineTooLong) else Complete(s[from..e], e + 2)
  }

  // ---- One line's grammar ----

  predicate IsOws(c: char) { c == ' ' || c == '\t' }

  /** `trim_ows`. */
  function TrimOws(s: string): string { TrimBoth(IsOws, s) }

  function MethodName(m: Method): string {
    match m case Get => "GET" case Post => "POST" case Delete => "DELETE"
  }

  function MethodOf(s: string): (r: Option<Method>)
    ensures r.Some? <==> exists m :: s == MethodName(m)
    ensures r.Some? ==> s == MethodName(r.value)
  {
    if s == MethodName(Get) then Some(Get)
    else if s == MethodName(Post) then Some(Post)
    else if s == MethodName(Delete) then Some(Delete)
    else None
  }

  predicate IsVersion(s: string) { s == "HTTP/1.1" || s == "HTTP/1.0" }

  function RequestLine(line: string): Result<(Method, string), HttpError> {
    match SplitOnce(line, ' ')
    case None => Err(BadRequestLine)
    case Some((verb, rest)) =>
      match SplitOnce(rest, ' ')
      case None => Err(BadRequestLine)
      case Some((target, version)) =>
        match MethodOf(verb)
        case None => Err(BadMethod)
        case Some(m) =>
          if target == "" || !IsVersion(version) then Err(BadRequestLine) else Ok((m, target))
  }

  predicate IsLengthName(name: string) { EqIgnoreCase(name, "content-length") }

  /** A header name the parser lets through. */
  predicate NameOk(name: string) {
    name != "" && ' ' !in name && '\t' !in name
  }

  /** The name and the untrimmed value of a header line. */
  function FieldParts(line: string): Result<(string, string), HttpError> {
    if line == "" || IsOws(line[0]) then Err(BadHeader) else
    match SplitOnce(line, ':')
    case None => Err(BadHeader)
    case Some((name, padded)) => if NameOk(name) then Ok((name, padded)) else Err(BadHeader)
  }

  /** One header, given how many came before and the length they declared. */
  function NextHeader(name: string, value: string, count: nat, length: Option<nat>): Result<(Header, Option<nat>), HttpError> {
    match DeclaredLength(name, value, length)
    case Err(e) => Err(e)
    case Ok(length') =>
      if count == MAX_HEADERS then Err(TooManyHeaders) else Ok((Header(name, value), length'))
  }

  function HeaderLine(line: string, count: nat, length: Option<nat>): Result<(Header, Option<nat>), HttpError> {
    match FieldParts(line)
    case Err(e) => Err(e)
    case Ok((name, padded)) => NextHeader(name, TrimOws(padded), count, length)
  }

  function DeclaredLength(name: string, value: string, length: Option<nat>): Result<Option<nat>, HttpError> {
    if !IsLengthName(name) then Ok(length)
    else if length.Some? then Err(BadContentLength)
    else
      match ParseDecimal(value, USIZE_MAX)
      case None => Err(BadContentLength)
      case Some(n) => if n > MAX_BODY then Err(BadContentLength) else Ok(Some(n))
  }

  // ---- The whole request ----

  /** The rules for one line; how a buffer is cut into lines does not depend on them. */
  datatype Grammar = Grammar(
    requestLine: string -> Result<(Method, string), HttpError>,
    headerLine: (string, nat, Option<nat>) -> Result<(Header, Option<nat>), HttpError>)

  function Http11(): Grammar { Grammar(RequestLine, HeaderLine) }

  /** What the line at `cursor` does: end the headers, add one, wait for bytes, or refuse. */
  datatype Step =
    | End(next: nat)
    | Add(header: Header, length: Option<nat>, next: nat)
    | Wait
    | Refuse(error: HttpError)

  function HeaderStep(g: Grammar, s: string, cursor: nat, count: nat, length: Option<nat>): (r: Step)
    requires cursor <= |s|
    ensures r.End? || r.Add? ==> cursor < r.next <= |s|
  {
    match NextLine(s, cursor, MAX_HEADER_LINE)
    case Partial => Wait
    case Failed(e) => Refuse(e)
    case Complete(line, next) =>
      if line == "" then End(next)
      else
        match g.headerLine(line, count, length)
        case Err(e) => Refuse(e)
        case Ok((h, length')) => Add(h, length', next)
  }

  /** Header lines from `cursor` to the empty one. */
  function Headers(g: Grammar, s: string, cursor: nat, headers: seq<Header>, length: Option<nat>)
    : (r: Outcome<(seq<Header>, Option<nat>)>)
    requires cursor <= |s|
    ensures r.Complete? ==> cursor < r.end <= |s|
    decreases |s| - cursor
  {
    match HeaderStep(g, s, cursor, |headers|, length)
    case Wait => Partial
    case Refuse(e) => Failed(e)
    case End(next) => Complete((headers, length), next)
    case Add(h, length', next) => Headers(g, s, next, headers + [h], length')
  }

  function BodyLength(length: Option<nat>): nat {
    if length.Some? then length.value else 0
  }

  /** The head of a request: its request line and headers, up to where the body starts. */
  function Head(g: Grammar, s: string): (r: Outcome<(Method, string, seq<Header>, Option<nat>)>)
    ensures r.Complete? ==> 0 < r.end <= |s|
  {
    match NextLine(s, 0, MAX_REQUEST_LINE)
    case Partial => Partial
    case Failed(e) => Failed(e)
    case Complete(line, next) =>
      match g.requestLine(line)
      case Err(e) => Failed(e)
      case Ok((verb, target)) =>
        match Headers(g, s, next, [], None)
        case Partial => Partial
        case Failed(e) => Failed(e)
        case Complete((headers, length), start) => Complete((verb, target, headers, length), start)
  }

  /** The body, once the head is known. */
  function Finish(s: string, head: Outcome<(Method, string, seq<Header>, Option<nat>)>): Outcome<Request>
    requires head.Complete? ==> head.end <= |s|
  {
    match head
    case Partial => Partial
    case Failed(e) => Failed(e)
    case Complete((verb, target, headers, length), start) =>
      var end := start + BodyLength(length);
      if |s| < end then Partial
      else Complete(Request(verb, target, headers, s[start..end]), end)
  }

  function ParseWith(g: Grammar, s: string): (r: Outcome<Request>)
    ensures r.Complete? ==> 0 < r.end <= |s|
  {
    Finish(s, Head(g, s))
  }

  /** `parse`. */
  function Parse(s: string): Outcome<Request> { ParseWith(Http11(), s) }
}
