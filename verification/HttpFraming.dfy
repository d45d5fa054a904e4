/** Responses read back: for which content types a response's own headers delimit its body. */
module HttpFraming {
  import opened Wrappers
  import opened Text
  import opened Sequences
  import opened Http
  import opened HttpPrint
  import opened HttpRespond

  // ---- Texts as lists of lines ----

  ghost predicate OneLine(line: string) { forall i :: !CrlfAt(line, i) }

  ghost predicate AllLines(lines: seq<string>) { forall i :: 0 <= i < |lines| ==> OneLine(lines[i]) }

  /** `s` cut at every CRLF. */
  function Lines(s: string): seq<string>
    decreases |s|
  {
    match FindCrlf(s, 0)
    case None => [s]
    case Some(e) => [s[..e]] + Lines(s[e + 2..])
  }

  lemma {:induction false} LinesJoin(s: string)
    ensures AllLines(Lines(s)) && Joined(Lines(s)) == s + CRLF
    decreases |s|
  {
    match FindCrlf(s, 0)
    case None =>
      assert Joined([s]) == s + CRLF + Joined([]);
    case Some(e) =>
      var line, more := s[..e], Lines(s[e + 2..]);
      LinesJoin(s[e + 2..]);
      assert ([line] + more)[1..] == more;
      assert s == line + CRLF + s[e + 2..];
      forall i ensures !CrlfAt(line, i) { if CrlfAt(line, i) { assert CrlfAt(s, i); } }
  }

  lemma {:induction false} JoinedAppend(a: seq<string>, b: seq<string>)
    ensures Joined(a + b) == Joined(a) + Joined(b)
  {
    if a == [] { assert a + b == b; }
    else {
      JoinedAppend(a[1..], b);
      assert (a + b)[1..] == a[1..] + b;
      Regroup(a[0] + CRLF, Joined(a[1..]), Joined(b));
    }
  }

  lemma FirstLineFound(line: string, more: string)
    requires OneLine(line)
    ensures FindCrlf(line + CRLF + more, 0) == Some(|line|)
  {
    var s := line + CRLF + more;
    forall j | 0 <= j < |line| ensures !CrlfAt(s, j) { assert !CrlfAt(line, j); }
    assert CrlfAt(s, |line|);
  }

  /** A text is cut into lines in one way. */
  lemma {:induction false} JoinedUnique(a: seq<string>, b: seq<string>)
    requires AllLines(a) && AllLines(b) && Joined(a) == Joined(b)
    ensures a == b
    decreases |a|
  {
    if a != [] && b != [] {
      FirstLineFound(a[0], Joined(a[1..]));
      FirstLineFound(b[0], Joined(b[1..]));
      var s, n := Joined(a), |a[0]|;
      assert s[..n] == a[0] && s[..n] == b[0];
      assert s[n + 2..] == Joined(a[1..]) && s[n + 2..] == Joined(b[1..]);
      JoinedUnique(a[1..], b[1..]);
    }
  }

  lemma {:induction false} LinesFitAppend(a: seq<string>, b: seq<string>)
    ensures LinesFit(a + b) <==> LinesFit(a) && LinesFit(b)
  {
    if a == [] { assert a + b == b; }
    else {
      LinesFitAppend(a[1..], b);
      assert (a + b)[1..] == a[1..] + b;
    }
  }

  lemma {:induction false} FittingAreLines(lines: seq<string>)
    requires LinesFit(lines)
    ensures AllLines(lines)
  {
    if lines != [] {
      FittingAreLines(lines[1..]);
      assert forall i :: 1 <= i < |lines| ==> lines[i] == lines[1..][i - 1];
    }
  }

  // ---- Folding in two parts ----

  lemma {:induction false} FoldAppend(g: Grammar, a: seq<string>, b: seq<string>, headers: seq<Header>, length: Option<nat>)
    ensures FoldLines(g, a + b, headers, length) ==
      match FoldLines(g, a, headers, length)
      case Err(e) => Err(e)
      case Ok((h, length')) => FoldLines(g, b, h, length')
    decreases |a|
  {
    if a == [] { assert a + b == b; }
    else {
      assert (a + b)[1..] == a[1..] + b;
      var h := g.headerLine(a[0], |headers|, length);
      if h.Ok? { FoldAppend(g, a[1..], b, headers + [h.value.0], h.value.1); }
    }
  }

  lemma FoldOne(g: Grammar, line: string, headers: seq<Header>, length: Option<nat>)
    ensures FoldLines(g, [line], headers, length) ==
      match g.headerLine(line, |headers|, length)
      case Err(e) => Err(e)
      case Ok((h, length')) => Ok((headers + [h], length'))
  {
    assert [line][1..] == [];
  }

  lemma FoldTwo(g: Grammar, a: string, b: string, headers: seq<Header>, length: Option<nat>)
    ensures FoldLines(g, [a, b], headers, length) ==
      match g.headerLine(a, |headers|, length)
      case Err(e) => Err(e)
      case Ok((x, length')) =>
        match g.headerLine(b, |headers| + 1, length')
        case Err(e) => Err(e)
        case Ok((y, length'')) => Ok((headers + [x, y], length''))
  {
    assert [a, b][1..] == [b];
    var x := g.headerLine(a, |headers|, length);
    if x.Ok? {
      FoldOne(g, b, headers + [x.value.0], x.value.1);
      assert forall y: Header :: headers + [x.value.0] + [y] == headers + [x.value.0, y];
    }
  }

  lemma {:induction false} FoldCounts(lines: seq<string>, headers: seq<Header>, length: Option<nat>)
    requires |headers| <= MAX_HEADERS && FoldLines(Http11(), lines, headers, length).Ok?
    ensures |FoldLines(Http11(), lines, headers, length).value.0| == |headers| + |lines| <= MAX_HEADERS
    decreases |lines|
  {
    if lines != [] {
      var h := HeaderLine(lines[0], |headers|, length);
      FoldCounts(lines[1..], headers + [h.value.0], h.value.1);
    }
  }

  // ---- The lines every response ends its headers with ----

  function TailLines(body: string): seq<string> { FieldTexts([LengthField(body), CloseField()]) }

  function TailHeaders(body: string): seq<Header> { [Header("content-length", Digits(|body|)), Header("connection", "close")] }

  lemma TailLinesAre(body: string)
    ensures TailLines(body) == [FieldText(LengthField(body)), FieldText(CloseField())]
  {
    assert FieldTexts([CloseField()]) == [FieldText(CloseField())] + FieldTexts([]);
  }

  lemma BodyLengthReads(body: string)
    requires |body| <= USIZE_MAX
    ensures |Digits(|body|)| <= 10 && ParseDecimal(Digits(|body|), USIZE_MAX) == Some(|body|)
  {
    assert Pow10(10) == 10_000_000_000;
    DigitCount(|body|, 10);
    DecimalRoundTrip(|body|, USIZE_MAX);
  }

  lemma DigitsAreTrimmed(v: nat)
    ensures Trimmed(IsOws, Digits(v)) && '\n' !in Digits(v)
  {}

  lemma NoLineFeedFits(line: string, cap: nat)
    requires '\n' !in line && |line| <= cap
    ensures LineFits(line, cap)
  {}

  lemma LengthNameOk()
    ensures NameOk("content-length") && ':' !in "content-length" && '\n' !in "content-length"
  {}

  lemma LengthFieldFits(body: string)
    requires |body| <= USIZE_MAX
    ensures FieldOk(LengthField(body))
    ensures FieldText(LengthField(body)) != "" && LineFits(FieldText(LengthField(body)), MAX_HEADER_LINE)
  {
    BodyLengthReads(body);
    LengthNameOk();
    DigitsAreTrimmed(|body|);
    PlainField("content-length", Digits(|body|));
    NoLineFeedFits("content-length" + ": " + Digits(|body|), MAX_HEADER_LINE);
  }

  lemma CloseFieldFits()
    ensures FieldOk(CloseField())
    ensures FieldText(CloseField()) != "" && LineFits(FieldText(CloseField()), MAX_HEADER_LINE)
  {
    PlainField("connection", "close");
    NoLineFeedFits("connection" + ": " + "close", MAX_HEADER_LINE);
  }

  lemma TailLinesFit(body: string)
    requires |body| <= USIZE_MAX
    ensures LinesFit(TailLines(body))
  {
    LengthFieldFits(body);
    CloseFieldFits();
    TailLinesAre(body);
    assert TailLines(body)[1..] == [FieldText(CloseField())] && TailLines(body)[1..][1..] == [];
  }

  lemma FieldFolds(f: Field, count: nat, length: Option<nat>)
    requires FieldOk(f) && count <= MAX_HEADERS
    ensures count < MAX_HEADERS ==> HeaderLine(FieldText(f), count, length) == FieldRead(f, length)
    ensures count == MAX_HEADERS ==> HeaderLine(FieldText(f), count, length).Err?
  {
    if count < MAX_HEADERS { HeaderLineReads(f, count, length); }
  }

  /** After the tail the headers gained two and the length is the body's: exactly when none
      was declared before, the body is within its cap, and there is room for two. */
  lemma TailFolds(body: string, headers: seq<Header>, length: Option<nat>)
    requires |body| <= USIZE_MAX && |headers| <= MAX_HEADERS
    ensures var r := FoldLines(Http11(), TailLines(body), headers, length);
      && (r.Ok? <==> length == None && |body| <= MAX_BODY && |headers| + 2 <= MAX_HEADERS)
      && (r.Ok? ==> r.value == (headers + TailHeaders(body), Some(|body|)))
  {
    LengthFieldFits(body);
    CloseFieldFits();
    TailLinesAre(body);
    LengthReads(body, length);
    FoldTwo(Http11(), FieldText(LengthField(body)), FieldText(CloseField()), headers, length);
    FieldFolds(LengthField(body), |headers|, length);
    if |headers| < MAX_HEADERS { FieldFolds(CloseField(), |headers| + 1, Some(|body|)); }
  }

  lemma LengthReads(body: string, length: Option<nat>)
    requires |body| <= USIZE_MAX
    ensures FieldRead(CloseField(), length) == Ok((Header("connection", "close"), length))
    ensures var r := FieldRead(LengthField(body), length);
      && (r.Ok? <==> length == None && |body| <= MAX_BODY)
      && (r.Ok? ==> r.value == (Header("content-length", Digits(|body|)), Some(|body|)))
  {
    BodyLengthReads(body);
    assert IsLengthName("content-length") && !IsLengthName("connection");
  }

  // ---- Framing ----

  function TypeText(contentType: string): string { "content-type" + ": " + contentType }

  /** The header lines a content type makes: it is written only with a body, and as it is. */
  function TypeLines(contentType: string, body: string): seq<string> {
    if body == "" then [] else Lines(TypeText(contentType))
  }

  /** The lines are headers the parser takes, none declares a length, and two more find room. */
  ghost predicate KeepsFraming(lines: seq<string>) {
    && LinesFit(lines) && |lines| + 2 <= MAX_HEADERS
    && var folded := FoldLines(Http11(), lines, [], None);
       folded.Ok? && folded.value.1 == None
  }

  lemma ResponseLines(line: string, contentType: string, body: string)
    ensures AllLines(TypeLines(contentType, body))
    ensures ResponseText(line, contentType, body) == PartsText(line, TypeLines(contentType, body) + TailLines(body), body)
  {
    var fields := ResponseFields(contentType, body);
    JoinedAppend(TypeLines(contentType, body), TailLines(body));
    if body == "" {
      assert fields == [LengthField(body), CloseField()];
    } else {
      LinesJoin(TypeText(contentType));
      PlainField("content-type", contentType);
      assert fields[1..] == [LengthField(body), CloseField()];
      assert FieldTexts(fields) == [TypeText(contentType)] + TailLines(body);
      assert ([TypeText(contentType)] + TailLines(body))[1..] == TailLines(body);
    }
  }

  /** The headers of the response end where its body starts, and declare the body's length. */
  predicate Delimits(h: Outcome<(seq<Header>, Option<nat>)>, text: string, body: string) {
    h.Complete? && h.end + |body| == |text| && BodyLength(h.value.1) == |body|
  }

  /** Headers end right before the body exactly when its lines fit and fold. */
  lemma HeadersEndIff(g: Grammar, s: string, cursor: nat, lines: seq<string>, end: nat)
    requires cursor <= end <= |s| && s[cursor..end] == Joined(lines) + CRLF && AllLines(lines)
    ensures var h, folded := Headers(g, s, cursor, [], None), FoldLines(g, lines, [], None);
      && (h.Complete? && h.end == end <==> LinesFit(lines) && folded.Ok?)
      && (h.Complete? && h.end == end ==> folded == Ok(h.value))
  {
    var h := Headers(g, s, cursor, [], None);
    if h.Complete? && h.end == end {
      var there := HeadersWereThere(g, s, cursor, [], None);
      HeaderLinesAtIff(s, cursor, there, end);
      FittingAreLines(there);
      var n := end - cursor - 2;
      assert Joined(there) == (Joined(there) + CRLF)[..n] == (Joined(lines) + CRLF)[..n] == Joined(lines);
      JoinedUnique(there, lines);
    }
    if LinesFit(lines) {
      HeaderLinesAtIff(s, cursor, lines, end);
      HeadersRead(g, s, cursor, lines, end, [], None);
    }
  }

  /** The lines of a response fit and fold to its body's length exactly when its content type
      keeps the framing and its body is within the cap. */
  lemma ResponseFolds(lines: seq<string>, body: string)
    requires |body| <= USIZE_MAX
    ensures LinesFit(lines + TailLines(body)) && FoldLines(Http11(), lines + TailLines(body), [], None).Ok?
       <==> |body| <= MAX_BODY && KeepsFraming(lines)
    ensures |body| <= MAX_BODY && KeepsFraming(lines) ==>
      FoldLines(Http11(), lines + TailLines(body), [], None)
      == Ok((FoldLines(Http11(), lines, [], None).value.0 + TailHeaders(body), Some(|body|)))
  {
    TailLinesFit(body);
    LinesFitAppend(lines, TailLines(body));
    FoldAppend(Http11(), lines, TailLines(body), [], None);
    var first := FoldLines(Http11(), lines, [], None);
    if first.Ok? {
      FoldCounts(lines, [], None);
      TailFolds(body, first.value.0, first.value.1);
    }
  }

  /** Read with the request parser's own header rules and followed by anything, a response
      delimits its body exactly when the body is within its cap and the content type, which
      is written unchecked, keeps the framing. */
  lemma ResponseDelimitsBody(line: string, contentType: string, body: string, rest: string)
    requires |body| <= USIZE_MAX
    ensures var text, lines := ResponseText(line, contentType, body), TypeLines(contentType, body);
      var h := Headers(Http11(), text + rest, |line| + 2, [], None);
      && (Delimits(h, text, body) <==> |body| <= MAX_BODY && KeepsFraming(lines))
      && (Delimits(h, text, body) ==>
            && h.value.0 == FoldLines(Http11(), lines, [], None).value.0 + TailHeaders(body)
            && (text + rest)[h.end..|text|] == body)
  {
    var text, lines, tail := ResponseText(line, contentType, body), TypeLines(contentType, body), TailLines(body);
    var s, cursor, end := text + rest, |line| + 2, |text| - |body|;
    var h := Headers(Http11(), s, cursor, [], None);
    ResponseLines(line, contentType, body);
    assert s[cursor..end] == Joined(lines + tail) + CRLF && s[end..|text|] == body;
    TailLinesFit(body);
    FittingAreLines(tail);
    HeadersEndIff(Http11(), s, cursor, lines + tail, end);
    ResponseFolds(lines, body);
  }

  /** A content type without a CRLF keeps the framing exactly when its line is within the
      cap, and is read back trimmed. */
  lemma PlainTypeKeepsFraming(contentType: string, body: string)
    requires OneLine(contentType) && body != ""
    ensures KeepsFraming(TypeLines(contentType, body)) <==> |TypeText(contentType)| <= MAX_HEADER_LINE
    ensures FoldLines(Http11(), TypeLines(contentType, body), [], None) == Ok(([Header("content-type", TrimOws(contentType))], None))
  {
    var line := TypeText(contentType);
    TypeTextIsOneLine(contentType);
    assert Lines(line) == [line] && [line][1..] == [];
    assert LinesFit([line]) <==> LineFits(line, MAX_HEADER_LINE);
    TypeReads(contentType);
  }

  lemma TypeTextIsOneLine(contentType: string)
    requires OneLine(contentType)
    ensures OneLine(TypeText(contentType))
  {
    var line, n := TypeText(contentType), |"content-type" + ": "|;
    forall i ensures !CrlfAt(line, i) {
      if n <= i && CrlfAt(line, i) { assert CrlfAt(contentType, i - n); }
    }
  }

  lemma TypeReads(contentType: string)
    ensures FoldLines(Http11(), [TypeText(contentType)], [], None) == Ok(([Header("content-type", TrimOws(contentType))], None))
  {
    TypeParts(contentType);
    SpaceIsTrimmed(contentType);
    FoldOne(Http11(), TypeText(contentType), [], None);
    assert HeaderLine(TypeText(contentType), 0, None) == NextHeader("content-type", TrimOws(contentType), 0, None);
    assert !IsLengthName("content-type");
    assert [] + [Header("content-type", TrimOws(contentType))] == [Header("content-type", TrimOws(contentType))];
  }

  lemma SpaceIsTrimmed(value: string)
    ensures TrimOws(" " + value) == TrimOws(value)
  {
    assert (" " + value)[1..] == value;
  }

  lemma TypeParts(contentType: string)
    ensures FieldParts(TypeText(contentType)) == Ok(("content-type", " " + contentType))
  {
    var line := TypeText(contentType);
    SplitJoined("content-type", ':', " " + contentType);
    assert line == "content-type" + [':'] + (" " + contentType);
    assert line[0] == "content-type"[0] == 'c';
    assert NameOk("content-type");
  }
}
