/** The parser's loop and the response writer, in place. */
module HttpParser {
  import opened Wrappers
  import opened Text
  import opened Http

  method ScanCrlf(s: string, from: nat) returns (r: Option<nat>)
    requires from <= |s|
    ensures r == FindCrlf(s, from)
  {
    var i := from;
    while i + 1 < |s|
      invariant from <= i <= |s| && FindCrlf(s, i) == FindCrlf(s, from)
    {
      if s[i] == '\r' && s[i + 1] == '\n' { return Some(i); }
      i := i + 1;
    }
    return None;
  }

  method ReadRequestLine(line: string) returns (r: Result<(Method, string), HttpError>)
    ensures r == RequestLine(line)
  {
    var first := SplitOnce(line, ' ');
    if first.None? { return Err(BadRequestLine); }
    var second := SplitOnce(first.value.1, ' ');
    if second.None? { return Err(BadRequestLine); }
    var verb := MethodOf(first.value.0);
    if verb.None? { return Err(BadMethod); }
    var (target, version) := second.value;
    if target == "" || !IsVersion(version) { return Err(BadRequestLine); }
    return Ok((verb.value, target));
  }

  method ReadLength(name: string, value: string, length: Option<nat>) returns (r: Result<Option<nat>, HttpError>)
    ensures r == DeclaredLength(name, value, length)
  {
    if !IsLengthName(name) { return Ok(length); }
    if length.Some? { return Err(BadContentLength); }
    var n := ReadDigits(value, 10, USIZE_MAX);
    return if n.None? || n.value > MAX_BODY then Err(BadContentLength) else Ok(n);
  }

  method ReadField(line: string) returns (r: Result<(string, string), HttpError>)
    ensures r == FieldParts(line)
  {
    if line == "" || line[0] == ' ' || line[0] == '\t' { return Err(BadHeader); }
    var parts := SplitOnce(line, ':');
    if parts.None? || !NameOk(parts.value.0) { return Err(BadHeader); }
    return Ok(parts.value);
  }

  method ReadHeader(name: string, value: string, count: nat, length: Option<nat>) returns (r: Result<(Header, Option<nat>), HttpError>)
    ensures r == NextHeader(name, value, count, length)
  {
    var length' := ReadLength(name, value, length);
    if length'.Err? { return Err(length'.error); }
    if count == MAX_HEADERS { return Err(TooManyHeaders); }
    return Ok((Header(name, value), length'.value));
  }

  method ReadHeaderLine(line: string, count: nat, length: Option<nat>) returns (r: Result<(Header, Option<nat>), HttpError>)
    ensures r == HeaderLine(line, count, length)
  {
    var parts := ReadField(line);
    if parts.Err? { return Err(parts.error); }
    var value := Trim(IsOws, parts.value.1);
    r := ReadHeader(parts.value.0, value, count, length);
  }

  /** The bytes up to the next CRLF, or why there is no line yet. */
  method ReadLine(s: string, from: nat, cap: nat) returns (r: Outcome<string>)
    requires from <= |s|
    ensures r == NextLine(s, from, cap)
  {
    var end := ScanCrlf(s, from);
    if end.None? { return if |s| - from > cap then Failed(LineTooLong) else Partial; }
    if end.value - from > cap { return Failed(LineTooLong); }
    return Complete(s[from..end.value], end.value + 2);
  }

  method ReadStep(s: string, cursor: nat, count: nat, length: Option<nat>) returns (r: Step)
    requires cursor <= |s|
    ensures r == HeaderStep(Http11(), s, cursor, count, length)
  {
    var line := ReadLine(s, cursor, MAX_HEADER_LINE);
    if line.Partial? { return Wait; }
    if line.Failed? { return Refuse(line.error); }
    if line.value == "" { return End(line.end); }
    var h := ReadHeaderLine(line.value, count, length);
    return match h case Err(e) => Refuse(e) case Ok((header, length')) => Add(header, length', line.end);
  }

  /** The header loop: a cursor moves from line to line. */
  method ReadHeaders(s: string, start: nat) returns (r: Outcome<(seq<Header>, Option<nat>)>)
    requires start <= |s|
    ensures r == Headers(Http11(), s, start, [], None)
  {
    var headers, length, cursor := [], None, start;
    while true
      invariant cursor <= |s|
      invariant Headers(Http11(), s, cursor, headers, length) == Headers(Http11(), s, start, [], None)
      decreases |s| - cursor
    {
      var step := ReadStep(s, cursor, |headers|, length);
      match step
      case Wait => return Partial;
      case Refuse(e) => return Failed(e);
      case End(next) => return Complete((headers, length), next);
      case Add(h, length', next) => headers, length, cursor := headers + [h], length', next;
    }
  }

  method ReadHead(s: string) returns (r: Outcome<(Method, string, seq<Header>, Option<nat>)>)
    ensures r == Head(Http11(), s)
  {
    var line := ReadLine(s, 0, MAX_REQUEST_LINE);
    if line.Partial? { return Partial; }
    if line.Failed? { return Failed(line.error); }
    var first := ReadRequestLine(line.value);
    if first.Err? { return Failed(first.error); }
    var rest := ReadHeaders(s, line.end);
    return
      match rest
      case Partial => Partial
      case Failed(e) => Failed(e)
      case Complete((headers, length), start) => Complete((first.value.0, first.value.1, headers, length), start);
  }

  /** `parse`. */
  method ParseRequest(s: string) returns (r: Outcome<Request>)
    ensures r == Parse(s)
  {
    var head := ReadHead(s);
    r := Finish(s, head);
  }
}
