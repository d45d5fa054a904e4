/** Responses: what is written, and that it is never truncated. */
module HttpRespond {
  import opened Wrappers
  import opened Text
  import opened Http
  import opened HttpPrint
  import opened Output

  datatype Status = Ok200 | Accepted202 | BadRequest400 | NotFound404 | MethodNotAllowed405 | PayloadTooLarge413 | InternalError500

  function StatusText(s: Status): string {
    match s
    case Ok200 => "HTTP/1.1 200 OK"
    case Accepted202 => "HTTP/1.1 202 Accepted"
    case BadRequest400 => "HTTP/1.1 400 Bad Request"
    case NotFound404 => "HTTP/1.1 404 Not Found"
    case MethodNotAllowed405 => "HTTP/1.1 405 Method Not Allowed"
    case PayloadTooLarge413 => "HTTP/1.1 413 Payload Too Large"
    case InternalError500 => "HTTP/1.1 500 Internal Server Error"
  }

  function StatusCode(s: Status): nat {
    match s
    case Ok200 => 200
    case Accepted202 => 202
    case BadRequest400 => 400
    case NotFound404 => 404
    case MethodNotAllowed405 => 405
    case PayloadTooLarge413 => 413
    case InternalError500 => 500
  }

  /** A status line shows the status' own three-digit code, between single spaces. */
  lemma StatusLineShows(s: Status)
    ensures var line := StatusText(s);
      && |line| > 13 && line[8] == ' ' && line[12] == ' '
      && IsDigit(line[9]) && IsDigit(line[10]) && IsDigit(line[11])
      && 100 * DigitValue(line[9]) + 10 * DigitValue(line[10]) + DigitValue(line[11]) == StatusCode(s)
  {}

  function LengthField(body: string): Field { Field("content-length", " ", Digits(|body|), "") }

  function TypeField(contentType: string): Field { Field("content-type", " ", contentType, "") }

  function CloseField(): Field { Field("connection", " ", "close", "") }

  /** The header fields of a response, in order. */
  function ResponseFields(contentType: string, body: string): seq<Field> {
    (if body == "" then [] else [TypeField(contentType)])
    + [LengthField(body), CloseField()]
  }

  function ResponseText(line: string, contentType: string, body: string): string {
    PartsText(line, FieldTexts(ResponseFields(contentType, body)), body)
  }

  /** The pieces the writer emits, in order. */
  function Pieces(line: string, contentType: string, body: string): seq<string> {
    [line + CRLF]
    + (if body == "" then [] else ["content-type" + ": ", contentType, CRLF])
    + TailOf(body)
  }

  function TailOf(body: string): seq<string> {
    ["content-length" + ": ", Digits(|body|), CRLF + ("connection" + ": " + "close") + CRLF + CRLF, body]
  }

  /** Fills `out` with the whole response, or refuses exactly when it does not fit. */
  method Respond(out: array<char>, status: Status, contentType: string, body: string) returns (r: Option<nat>)
    modifies out
    ensures var text := ResponseText(StatusText(status), contentType, body);
      && r == (if |text| <= out.Length then Some(|text|) else None)
      && (r.Some? ==> out[..r.value] == text)
  {
    var w := new Writer(out);
    var digits := PrintDecimal(|body|);
    var pieces := [StatusText(status) + CRLF];
    if body != "" { pieces := pieces + ["content-type" + ": ", contentType, CRLF]; }
    pieces := pieces + ["content-length" + ": ", digits, CRLF + ("connection" + ": " + "close") + CRLF + CRLF, body];
    PiecesAreResponse(StatusText(status), contentType, body);
    var ok := w.PutAll(pieces);
    return if ok then Some(w.len) else None;
  }

  /** A field without trailing whitespace. */
  lemma PlainField(name: string, value: string)
    ensures FieldText(Field(name, " ", value, "")) == name + ": " + value
  {
    assert name + [':'] + (" " + value + "") == name + ": " + value;
  }

  /** The same text in pieces and in lines. */
  lemma SameTail(n1: string, d: string, n2: string, v: string, nl: string, body: string)
    ensures n1 + (d + ((nl + (n2 + v) + nl + nl) + (body + "")))
         == ((n1 + d) + nl + ((n2 + v) + nl + "")) + nl + body
  {}

  lemma JoinedTwo(a: string, b: string)
    ensures Joined([a, b]) == a + CRLF + (b + CRLF + "")
  {
    assert [a, b][1..] == [b];
    assert Joined([b]) == b + CRLF + Joined([]);
  }

  lemma TailPieces(body: string)
    ensures Concat(TailOf(body)) == Joined(FieldTexts([LengthField(body), CloseField()])) + CRLF + body
  {
    PlainField("content-length", Digits(|body|));
    PlainField("connection", "close");
    var d := Digits(|body|);
    var n1, n2 := "content-length" + ": ", "connection" + ": ";
    var fields := [LengthField(body), CloseField()];
    assert FieldTexts(fields) == [n1 + d, n2 + "close"];
    JoinedTwo(n1 + d, n2 + "close");
    var mid := CRLF + (n2 + "close") + CRLF + CRLF;
    ConcatOfFour(n1, d, mid, body);
    SameTail(n1, d, n2, "close", CRLF, body);
  }

  /** A first line, perhaps one more, and a tail that is lines and a body already. */
  lemma WithFirstLine(line: string, a: string, b: string, lines: seq<string>, body: string, tail: seq<string>)
    requires Concat(tail) == Joined(lines) + CRLF + body
    ensures Concat([line + CRLF] + tail) == PartsText(line, lines, body)
    ensures Concat([line + CRLF] + [a, b, CRLF] + tail) == PartsText(line, [a + b] + lines, body)
  {
    ConcatCons(line + CRLF, tail);
    ConcatCons(CRLF, tail);
    ConcatCons(b, [CRLF] + tail);
    ConcatCons(a, [b] + ([CRLF] + tail));
    ConcatCons(line + CRLF, [a] + ([b] + ([CRLF] + tail)));
    assert [line + CRLF] + [a, b, CRLF] + tail == [line + CRLF] + ([a] + ([b] + ([CRLF] + tail)));
    assert ([a + b] + lines)[1..] == lines;
    Reassociate(line, a, b, CRLF, Joined(lines), body);
  }

  lemma Reassociate(line: string, a: string, b: string, nl: string, rest: string, body: string)
    ensures (line + nl) + (a + (b + (nl + (rest + nl + body)))) == (line + nl) + ((((a + b) + nl + rest) + nl) + body)
    ensures (line + nl) + (rest + nl + body) == (line + nl) + ((rest + nl) + body)
  {}

  lemma PiecesAreResponse(line: string, contentType: string, body: string)
    ensures Concat(Pieces(line, contentType, body)) == ResponseText(line, contentType, body)
  {
    TailPieces(body);
    PlainField("content-type", contentType);
    var tail, lines := TailOf(body), FieldTexts([LengthField(body), CloseField()]);
    var a := "content-type" + ": ";
    WithFirstLine(line, a, contentType, lines, body, tail);
    if body == "" {
      assert ResponseFields(contentType, body) == [LengthField(body), CloseField()];
      assert Pieces(line, contentType, body) == [line + CRLF] + tail;
    } else {
      var f := TypeField(contentType);
      assert ResponseFields(contentType, body)[1..] == [LengthField(body), CloseField()];
      assert FieldTexts(ResponseFields(contentType, body)) == [a + contentType] + lines;
    }
  }
}
