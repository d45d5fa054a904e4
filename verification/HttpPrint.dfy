/** Printed requests: what the parser accepts is exactly what a client may print. */
module HttpPrint {
  import opened Wrappers
  import opened Text
  import opened Http

  // ---- Framing: lines and their endings, for every grammar of lines ----

  ghost predicate LineFits(line: string, cap: nat) {
    |line| <= cap && forall i :: !CrlfAt(line, i)
  }

  /** `line` and its CRLF are at `from`. */
  predicate LineAt(s: string, from: nat, line: string) {
    from + |line| + 2 <= |s| && s[from..from + |line|] == line && CrlfAt(s, from + |line|)
  }

  /** A line is read back exactly when it is there and fits. */
  lemma NextLineIff(s: string, from: nat, line: string, cap: nat)
    requires from <= |s|
    ensures NextLine(s, from, cap) == Complete(line, from + |line| + 2) <==> LineAt(s, from, line) && LineFits(line, cap)
  {
    var e := from + |line|;
    if LineAt(s, from, line) {
      assert forall i :: 0 <= i < |line| ==> line[i] == s[from + i];
      if LineFits(line, cap) {
        forall j | from <= j < e ensures !CrlfAt(s, j) { assert !CrlfAt(line, j - from); }
        assert FindCrlf(s, from) == Some(e);
      }
    }
    if NextLine(s, from, cap) == Complete(line, e + 2) {
      assert FindCrlf(s, from) == Some(e);
      assert forall i :: CrlfAt(line, i) ==> CrlfAt(s, from + i);
    }
  }

  /** The nonempty lines, then the empty one that ends the headers at `end`. */
  ghost predicate HeaderLinesAt(s: string, cursor: nat, lines: seq<string>, end: nat)
    decreases |lines|
  {
    if lines == [] then LineAt(s, cursor, "") && end == cursor + 2
    else
      && lines[0] != "" && LineFits(lines[0], MAX_HEADER_LINE) && LineAt(s, cursor, lines[0])
      && HeaderLinesAt(s, cursor + |lines[0]| + 2, lines[1..], end)
  }

  function Joined(lines: seq<string>): string {
    if lines == [] then "" else lines[0] + CRLF + Joined(lines[1..])
  }

  ghost predicate LinesFit(lines: seq<string>) {
    lines == [] || (lines[0] != "" && LineFits(lines[0], MAX_HEADER_LINE) && LinesFit(lines[1..]))
  }

  lemma LineAtIff(s: string, from: nat, line: string)
    ensures LineAt(s, from, line) <==> from + |line| + 2 <= |s| && s[from..from + |line| + 2] == line + CRLF
  {
    var n := from + |line| + 2;
    if LineAt(s, from, line) { assert s[from..n] == s[from..n - 2] + [s[n - 2]] + [s[n - 1]]; }
    if n <= |s| && s[from..n] == line + CRLF {
      assert s[n - 2] == (line + CRLF)[|line|] && s[n - 1] == (line + CRLF)[|line| + 1];
      assert s[from..n - 2] == s[from..n][..|line|] == line;
    }
  }

  lemma SplitAt(s: string, from: nat, end: nat, a: string, b: string)
    requires from + |a| <= end <= |s|
    ensures s[from..end] == a + b <==> s[from..from + |a|] == a && s[from + |a|..end] == b
  {
    var n := from + |a|;
    assert s[from..end] == s[from..n] + s[n..end];
    assert (a + b)[..|a|] == a && (a + b)[|a|..] == b;
  }

  /** The text of a first line and what comes after it. */
  lemma FirstLineAtIff(s: string, cursor: nat, line: string, more: string, end: nat)
    requires end <= |s|
    ensures cursor <= end && s[cursor..end] == (line + CRLF) + more <==>
            LineAt(s, cursor, line) && cursor + |line| + 2 <= end && s[cursor + |line| + 2..end] == more
  {
    LineAtIff(s, cursor, line);
    if cursor + |line| + 2 <= end { SplitAt(s, cursor, end, line + CRLF, more); }
    else if cursor <= end { assert |s[cursor..end]| < |line + CRLF|; }
  }

  lemma JoinedCons(lines: seq<string>)
    requires lines != []
    ensures Joined(lines) + CRLF == (lines[0] + CRLF) + (Joined(lines[1..]) + CRLF)
  {}

  /** Where the header lines are is where their text is. */
  lemma {:induction false} HeaderLinesAtIff(s: string, cursor: nat, lines: seq<string>, end: nat)
    requires end <= |s|
    ensures HeaderLinesAt(s, cursor, lines, end) <==> cursor <= end && LinesFit(lines) && s[cursor..end] == Joined(lines) + CRLF
    decreases |lines|
  {
    if lines == [] {
      LineAtIff(s, cursor, "");
      assert Joined(lines) + CRLF == CRLF;
    } else {
      var line, more := lines[0], lines[1..];
      JoinedCons(lines);
      FirstLineAtIff(s, cursor, line, Joined(more) + CRLF, end);
      HeaderLinesAtIff(s, cursor + |line| + 2, more, end);
    }
  }

  /** The headers and the declared length, or why they are refused. */
  type Folded = Result<(seq<Header>, Option<nat>), HttpError>

  /** The header lines in order, each given what the earlier ones left. */
  function FoldLines(g: Grammar, lines: seq<string>, headers: seq<Header>, length: Option<nat>): Folded {
    if lines == [] then Ok((headers, length))
    else
      match g.headerLine(lines[0], |headers|, length)
      case Err(e) => Err(e)
      case Ok((h, length')) => FoldLines(g, lines[1..], headers + [h], length')
  }

  /** A line that is there is what the next step reads. */
  lemma StepReads(g: Grammar, s: string, cursor: nat, line: string, count: nat, length: Option<nat>)
    requires cursor <= |s| && LineAt(s, cursor, line) && LineFits(line, MAX_HEADER_LINE)
    ensures HeaderStep(g, s, cursor, count, length) ==
      if line == "" then End(cursor + 2)
      else
        match g.headerLine(line, count, length)
        case Err(e) => Refuse(e)
        case Ok((h, length')) => Add(h, length', cursor + |line| + 2)
  {
    NextLineIff(s, cursor, line, MAX_HEADER_LINE);
  }

  lemma HeadersUnfold(g: Grammar, s: string, cursor: nat, headers: seq<Header>, length: Option<nat>, step: Step)
    requires cursor <= |s| && HeaderStep(g, s, cursor, |headers|, length) == step
    ensures step.End? ==> Headers(g, s, cursor, headers, length) == Complete((headers, length), step.next)
    ensures step.Add? ==> Headers(g, s, cursor, headers, length) == Headers(g, s, step.next, headers + [step.header], step.length)
    ensures step.Refuse? ==> Headers(g, s, cursor, headers, length) == Failed(step.error)
  {}

  /** One line of the header lines, read. */
  lemma HeadersTake(
    g: Grammar, s: string, cursor: nat, lines: seq<string>, end: nat, headers: seq<Header>, length: Option<nat>)
    requires cursor <= |s| && HeaderLinesAt(s, cursor, lines, end)
    ensures lines == [] ==> Headers(g, s, cursor, headers, length) == Complete((headers, length), end)
    ensures lines != [] ==>
      var next := cursor + |lines[0]| + 2;
      && next <= |s| && HeaderLinesAt(s, next, lines[1..], end)
      && Headers(g, s, cursor, headers, length) ==
           match g.headerLine(lines[0], |headers|, length)
           case Err(e) => Failed(e)
           case Ok((h, length')) => Headers(g, s, next, headers + [h], length')
  {
    StepReads(g, s, cursor, if lines == [] then "" else lines[0], |headers|, length);
    HeadersUnfold(g, s, cursor, headers, length, HeaderStep(g, s, cursor, |headers|, length));
  }

  function HeadersEnd(folded: Folded, end: nat): Outcome<(seq<Header>, Option<nat>)> {
    match folded
    case Ok(v) => Complete(v, end)
    case Err(e) => Failed(e)
  }

  /** Header lines that are there are read and folded, or the first bad one is refused. */
  lemma {:induction false} HeadersRead(
    g: Grammar, s: string, cursor: nat, lines: seq<string>, end: nat, headers: seq<Header>, length: Option<nat>)
    requires cursor <= |s| && HeaderLinesAt(s, cursor, lines, end)
    ensures Headers(g, s, cursor, headers, length) == HeadersEnd(FoldLines(g, lines, headers, length), end)
    decreases |lines|
  {
    HeadersTake(g, s, cursor, lines, end, headers, length);
    if lines != [] {
      var h := g.headerLine(lines[0], |headers|, length);
      if h.Ok? { HeadersRead(g, s, cursor + |lines[0]| + 2, lines[1..], end, headers + [h.value.0], h.value.1); }
    }
  }

  lemma {:induction false} HeadersWereThere(g: Grammar, s: string, cursor: nat, headers: seq<Header>, length: Option<nat>)
      returns (lines: seq<string>)
    requires cursor <= |s| && Headers(g, s, cursor, headers, length).Complete?
    ensures HeaderLinesAt(s, cursor, lines, Headers(g, s, cursor, headers, length).end)
    ensures FoldLines(g, lines, headers, length) == Ok(Headers(g, s, cursor, headers, length).value)
    decreases |s| - cursor
  {
    var line := NextLine(s, cursor, MAX_HEADER_LINE);
    NextLineIff(s, cursor, line.value, MAX_HEADER_LINE);
    if line.value == "" {
      lines := [];
    } else {
      var h := g.headerLine(line.value, |headers|, length).value;
      var more := HeadersWereThere(g, s, line.end, headers + [h.0], h.1);
      lines := [line.value] + more;
      assert lines[1..] == more;
    }
  }

  /** The head that these lines make. */
  lemma HeadReads(
    g: Grammar, s: string, line: string, lines: seq<string>, end: nat,
    verb: Method, target: string, headers: seq<Header>, length: Option<nat>)
    requires LineAt(s, 0, line) && LineFits(line, MAX_REQUEST_LINE) && g.requestLine(line) == Ok((verb, target))
    requires HeaderLinesAt(s, |line| + 2, lines, end) && FoldLines(g, lines, [], None) == Ok((headers, length))
    ensures Head(g, s) == Complete((verb, target, headers, length), end)
  {
    NextLineIff(s, 0, line, MAX_REQUEST_LINE);
    HeadersRead(g, s, |line| + 2, lines, end, [], None);
  }

  lemma HeadWasThere(g: Grammar, s: string) returns (line: string, lines: seq<string>)
    requires Head(g, s).Complete?
    ensures LineAt(s, 0, line) && LineFits(line, MAX_REQUEST_LINE) && HeaderLinesAt(s, |line| + 2, lines, Head(g, s).end)
    ensures var (verb, target, headers, length) := Head(g, s).value;
      g.requestLine(line) == Ok((verb, target)) && FoldLines(g, lines, [], None) == Ok((headers, length))
  {
    line := NextLine(s, 0, MAX_REQUEST_LINE).value;
    NextLineIff(s, 0, line, MAX_REQUEST_LINE);
    lines := HeadersWereThere(g, s, |line| + 2, [], None);
  }

  /** A request line, header lines and a body are at the front of `s`, up to `n`. */
  ghost predicate PartsAt(s: string, line: string, lines: seq<string>, body: string, n: nat) {
    && |body| <= n <= |s|
    && LineAt(s, 0, line) && HeaderLinesAt(s, |line| + 2, lines, n - |body|)
    && s[n - |body|..n] == body
  }

  lemma ParseOfHead(
    g: Grammar, s: string, verb: Method, target: string, headers: seq<Header>, length: Option<nat>, start: nat, body: string)
    requires Head(g, s) == Complete((verb, target, headers, length), start)
    requires BodyLength(length) == |body| && start + |body| <= |s| && s[start..start + |body|] == body
    ensures ParseWith(g, s) == Complete(Request(verb, target, headers, body), start + |body|)
  {}

  lemma PartsRead(g: Grammar, s: string, line: string, lines: seq<string>, r: Request, n: nat)
    requires PartsAt(s, line, lines, r.body, n) && LineFits(line, MAX_REQUEST_LINE)
    requires g.requestLine(line) == Ok((r.verb, r.target))
    requires FoldLines(g, lines, [], None).Ok? && FoldLines(g, lines, [], None).value.0 == r.headers
    requires BodyLength(FoldLines(g, lines, [], None).value.1) == |r.body|
    ensures ParseWith(g, s) == Complete(r, n)
  {
    var length := FoldLines(g, lines, [], None).value.1;
    HeadReads(g, s, line, lines, n - |r.body|, r.verb, r.target, r.headers, length);
    ParseOfHead(g, s, r.verb, r.target, r.headers, length, n - |r.body|, r.body);
  }

  lemma PartsWereThere(g: Grammar, s: string) returns (line: string, lines: seq<string>)
    requires ParseWith(g, s).Complete?
    ensures var r := ParseWith(g, s).value;
      && PartsAt(s, line, lines, r.body, ParseWith(g, s).end) && LineFits(line, MAX_REQUEST_LINE)
      && g.requestLine(line) == Ok((r.verb, r.target))
      && FoldLines(g, lines, [], None).Ok? && FoldLines(g, lines, [], None).value.0 == r.headers
      && BodyLength(FoldLines(g, lines, [], None).value.1) == |r.body|
  {
    line, lines := HeadWasThere(g, s);
  }

  function PartsText(line: string, lines: seq<string>, body: string): string {
    (line + CRLF) + ((Joined(lines) + CRLF) + body)
  }

  /** The parts are there exactly when their text is. */
  lemma PartsAtIff(s: string, line: string, lines: seq<string>, body: string, n: nat)
    requires n <= |s|
    ensures PartsAt(s, line, lines, body, n) <==> LinesFit(lines) && s[..n] == PartsText(line, lines, body)
  {
    var a, b := line + CRLF, Joined(lines) + CRLF;
    LineAtIff(s, 0, line);
    assert s[..n] == s[0..n];
    if |a| + |body| <= n {
      var start := n - |body|;
      HeaderLinesAtIff(s, |a|, lines, start);
      SplitAt(s, 0, n, a, b + body);
      if start - |a| == |b| { SplitAt(s, |a|, n, b, body); }
      else { assert |s[|a|..n]| != |b + body| && |s[|a|..start]| != |b|; }
    } else {
      if |body| <= n { HeaderLinesAtIff(s, |a|, lines, n - |body|); }
      assert |s[..n]| != |a + (b + body)|;
    }
  }

  // ---- One line's grammar ----

  function VerbText(verb: Method): (s: string)
    ensures s == MethodName(verb)
  {
    if verb == Get then "GET" else if verb == Post then "POST" else "DELETE"
  }

  function Supported(version: string): (b: bool)
    ensures b <==> IsVersion(version)
  {
    version in {"HTTP/1.0", "HTTP/1.1"}
  }

  predicate TargetOk(target: string) { target != "" && ' ' !in target }

  function RequestText(verb: Method, target: string, version: string): string {
    VerbText(verb) + [' '] + (target + [' '] + version)
  }

  lemma RequestLineReads(verb: Method, target: string, version: string)
    requires TargetOk(target) && Supported(version)
    ensures RequestLine(RequestText(verb, target, version)) == Ok((verb, target))
  {
    SplitJoined(VerbText(verb), ' ', target + [' '] + version);
    SplitJoined(target, ' ', version);
  }

  lemma RequestLineWasThere(line: string) returns (version: string)
    requires RequestLine(line).Ok?
    ensures var (verb, target) := RequestLine(line).value;
      TargetOk(target) && Supported(version) && line == RequestText(verb, target, version)
  {
    version := SplitOnce(SplitOnce(line, ' ').value.1, ' ').value.1;
  }

  /** A header as printed: optional whitespace around the value. */
  datatype Field = Field(name: string, lead: string, value: string, trail: string)

  function FieldText(f: Field): string {
    f.name + [':'] + (f.lead + f.value + f.trail)
  }

  /** Spaces and tabs. */
  function Spaces(s: string): (b: bool)
    ensures b <==> Blank(IsOws, s)
  {
    forall i :: 0 <= i < |s| ==> s[i] == ' ' || s[i] == '\t'
  }

  /** A token before the colon, and a value with neither space nor tab at its ends. */
  function FieldOk(f: Field): (b: bool)
    ensures b <==> NameOk(f.name) && ':' !in f.name && Blank(IsOws, f.lead) && Blank(IsOws, f.trail) && Trimmed(IsOws, f.value)
  {
    && f.name != "" && ' ' !in f.name && '\t' !in f.name && ':' !in f.name
    && Spaces(f.lead) && Spaces(f.trail)
    && (f.value == "" || (f.value[0] !in {' ', '\t'} && f.value[|f.value| - 1] !in {' ', '\t'}))
  }

  /** How a grammar reads one printed field, after what the earlier ones declared. */
  type FieldReader = (Field, Option<nat>) -> Result<(Header, Option<nat>), HttpError>

  /** What reading one printed field gives. */
  function FieldRead(f: Field, length: Option<nat>): Result<(Header, Option<nat>), HttpError> {
    match DeclaredLength(f.name, f.value, length)
    case Err(e) => Err(e)
    case Ok(length') => Ok((Header(f.name, f.value), length'))
  }

  lemma HeaderLineReads(f: Field, count: nat, length: Option<nat>)
    requires FieldOk(f) && count < MAX_HEADERS
    ensures HeaderLine(FieldText(f), count, length) == FieldRead(f, length)
  {
    var line, padded := FieldText(f), f.lead + f.value + f.trail;
    SplitJoined(f.name, ':', padded);
    TrimPadded(IsOws, f.lead, f.value, f.trail);
    assert line[0] == f.name[0] && f.name[0] in f.name;
    assert line != "" && !IsOws(line[0]);
  }

  lemma HeaderLineWasThere(line: string, count: nat, length: Option<nat>) returns (f: Field)
    requires HeaderLine(line, count, length).Ok?
    ensures FieldOk(f) && line == FieldText(f) && count != MAX_HEADERS && HeaderLine(line, count, length) == FieldRead(f, length)
  {
    var parts := SplitOnce(line, ':').value;
    var lead, trail := TrimIsPadding(IsOws, parts.1);
    f := Field(parts.0, lead, TrimOws(parts.1), trail);
  }

  /** The two directions, as a property of a grammar. */
  ghost predicate ReadsFields(g: Grammar, read: FieldReader) {
    && (forall f: Field, count: nat, length {:trigger g.headerLine(FieldText(f), count, length)} ::
          FieldOk(f) && count < MAX_HEADERS ==> g.headerLine(FieldText(f), count, length) == read(f, length))
    && (forall line, count: nat, length {:trigger g.headerLine(line, count, length)} ::
          g.headerLine(line, count, length).Ok? ==>
            count != MAX_HEADERS &&
            exists f :: FieldOk(f) && line == FieldText(f) && g.headerLine(line, count, length) == read(f, length))
  }

  lemma Http11ReadsFields()
    ensures ReadsFields(Http11(), FieldRead)
  {
    var g := Http11();
    forall f: Field, count: nat, length | FieldOk(f) && count < MAX_HEADERS
      ensures g.headerLine(FieldText(f), count, length) == FieldRead(f, length)
    {
      HeaderLineReads(f, count, length);
    }
    forall line, count: nat, length | HeaderLine(line, count, length).Ok?
      ensures count != MAX_HEADERS
      ensures exists f :: FieldOk(f) && line == FieldText(f) && g.headerLine(line, count, length) == FieldRead(f, length)
    {
      var f := HeaderLineWasThere(line, count, length);
    }
  }

  // ---- Folding the printed fields ----

  function FieldTexts(fields: seq<Field>): (r: seq<string>)
    ensures |r| == |fields|
  {
    if fields == [] then [] else [FieldText(fields[0])] + FieldTexts(fields[1..])
  }

  /** All fields in order. */
  function FoldFields(read: FieldReader, fields: seq<Field>, headers: seq<Header>, length: Option<nat>): Folded {
    if fields == [] then Ok((headers, length))
    else
      match read(fields[0], length)
      case Err(e) => Err(e)
      case Ok((h, length')) => FoldFields(read, fields[1..], headers + [h], length')
  }

  ghost predicate FieldsOk(fields: seq<Field>) { forall i :: 0 <= i < |fields| ==> FieldOk(fields[i]) }

  lemma {:induction false} FoldReads(g: Grammar, read: FieldReader, fields: seq<Field>, headers: seq<Header>, length: Option<nat>)
    requires ReadsFields(g, read) && |headers| + |fields| <= MAX_HEADERS && FieldsOk(fields)
    ensures FoldLines(g, FieldTexts(fields), headers, length) == FoldFields(read, fields, headers, length)
    decreases |fields|
  {
    if fields != [] {
      var f := fields[0];
      assert FieldOk(f);
      var r := g.headerLine(FieldText(f), |headers|, length);
      assert FieldTexts(fields)[1..] == FieldTexts(fields[1..]);
      if r.Ok? { FoldReads(g, read, fields[1..], headers + [r.value.0], r.value.1); }
    }
  }

  lemma {:induction false} FoldWasThere(g: Grammar, read: FieldReader, lines: seq<string>, headers: seq<Header>, length: Option<nat>)
      returns (fields: seq<Field>)
    requires ReadsFields(g, read) && |headers| <= MAX_HEADERS && FoldLines(g, lines, headers, length).Ok?
    ensures lines == FieldTexts(fields) && |headers| + |fields| <= MAX_HEADERS && FieldsOk(fields)
    decreases |lines|
  {
    if lines == [] {
      fields := [];
    } else {
      var h := g.headerLine(lines[0], |headers|, length).value;
      var f :| FieldOk(f) && lines[0] == FieldText(f);
      var more := FoldWasThere(g, read, lines[1..], headers + [h.0], h.1);
      fields := [f] + more;
      assert fields[1..] == more;
    }
  }

  // ---- What the fields mean ----

  function HeadersOf(fields: seq<Field>): (r: seq<Header>)
    ensures |r| == |fields|
  {
    if fields == [] then [] else [Header(fields[0].name, fields[0].value)] + HeadersOf(fields[1..])
  }

  const LOWER_LENGTH: string := "content-length"
  const UPPER_LENGTH: string := "CONTENT-LENGTH"

  /** `content-length` in any of the 2^13 ways to choose the case of its letters. */
  function SpellsLength(name: string): (b: bool)
    ensures b <==> IsLengthName(name)
  {
    LengthNameIff(name);
    |name| == 14 && forall i :: 0 <= i < 14 ==> name[i] == LOWER_LENGTH[i] || name[i] == UPPER_LENGTH[i]
  }

  lemma LengthNameIff(name: string)
    ensures IsLengthName(name) <==>
      |name| == 14 && forall i :: 0 <= i < 14 ==> name[i] == LOWER_LENGTH[i] || name[i] == UPPER_LENGTH[i]
  {
    EqIgnoreCaseIff(name, LOWER_LENGTH);
    forall i, c: char | 0 <= i < 14
      ensures SameLetter(c, LOWER_LENGTH[i]) <==> c == LOWER_LENGTH[i] || c == UPPER_LENGTH[i]
    {
      CasesOfLetter(i, c);
    }
  }

  lemma CasesOfLetter(i: nat, c: char)
    requires i < 14
    ensures SameLetter(c, LOWER_LENGTH[i]) <==> c == LOWER_LENGTH[i] || c == UPPER_LENGTH[i]
  {
    assert LOWER_LENGTH[i] == '-' || ('a' <= LOWER_LENGTH[i] <= 'z' && LOWER_LENGTH[i] as int == UPPER_LENGTH[i] as int + 32);
  }

  ghost predicate IsLength(fields: seq<Field>, i: int)
    requires 0 <= i < |fields|
  {
    SpellsLength(fields[i].name)
  }

  ghost predicate NoLength(fields: seq<Field>) { forall i :: 0 <= i < |fields| ==> !IsLength(fields, i) }

  ghost predicate OneLength(fields: seq<Field>) {
    forall i, j :: 0 <= i < j < |fields| ==> !(IsLength(fields, i) && IsLength(fields, j))
  }

  /** Its value is `n` in at most ten digits, leading zeros included, within the body cap. */
  ghost function Declares(f: Field, n: nat): (b: bool)
    ensures b <==> ParseDecimal(f.value, USIZE_MAX) == Some(n) && n <= MAX_BODY
  {
    ParseDigitsIff(f.value, 10, USIZE_MAX, n);
    Spells(f.value, n, 10) && n <= MAX_BODY
  }

  ghost predicate LengthsAre(fields: seq<Field>, n: nat) {
    forall i :: 0 <= i < |fields| && IsLength(fields, i) ==> Declares(fields[i], n)
  }

  /** At most one field declares a length, it is a numeral, and it is `n`; without one `n` is zero. */
  ghost predicate LengthMatches(fields: seq<Field>, n: nat) {
    OneLength(fields) && LengthsAre(fields, n) && (NoLength(fields) ==> n == 0)
  }

  /** The fields after the first, by their place. */
  lemma ConsFields(f: Field, more: seq<Field>)
    ensures var fields := [f] + more;
      && fields[0] == f && (IsLength(fields, 0) <==> SpellsLength(f.name))
      && (forall j :: 0 <= j < |more| ==> fields[j + 1] == more[j] && (IsLength(more, j) <==> IsLength(fields, j + 1)))
      && (forall j :: 1 <= j < |fields| ==> fields[j] == more[j - 1] && (IsLength(fields, j) <==> IsLength(more, j - 1)))
  {}

  lemma ConsNoLength(f: Field, more: seq<Field>)
    ensures NoLength([f] + more) <==> !SpellsLength(f.name) && NoLength(more)
  {
    ConsFields(f, more);
  }

  lemma ConsOneLength(f: Field, more: seq<Field>)
    ensures OneLength([f] + more) <==> OneLength(more) && (SpellsLength(f.name) ==> NoLength(more))
  {
    var fields := [f] + more;
    ConsFields(f, more);
    if OneLength(fields) {
      forall i, j | 0 <= i < j < |more| ensures !(IsLength(more, i) && IsLength(more, j)) {
        assert !(IsLength(fields, i + 1) && IsLength(fields, j + 1));
      }
      forall j | 0 <= j < |more| && SpellsLength(f.name) ensures !IsLength(more, j) {
        assert !(IsLength(fields, 0) && IsLength(fields, j + 1));
      }
    }
  }

  lemma ConsLengthsAre(f: Field, more: seq<Field>, n: nat)
    ensures LengthsAre([f] + more, n) <==> (SpellsLength(f.name) ==> Declares(f, n)) && LengthsAre(more, n)
  {
    var fields := [f] + more;
    ConsFields(f, more);
    if LengthsAre(fields, n) {
      forall j | 0 <= j < |more| && IsLength(more, j) ensures Declares(more[j], n) {
        assert IsLength(fields, j + 1);
      }
    }
  }

  lemma ConsLength(f: Field, more: seq<Field>, n: nat)
    ensures NoLength([f] + more) <==> !SpellsLength(f.name) && NoLength(more)
    ensures SpellsLength(f.name) ==> (LengthMatches([f] + more, n) <==> Declares(f, n) && NoLength(more))
    ensures !SpellsLength(f.name) ==> (LengthMatches([f] + more, n) <==> LengthMatches(more, n))
  {
    ConsNoLength(f, more);
    ConsOneLength(f, more);
    ConsLengthsAre(f, more, n);
  }

  lemma {:induction false} FoldAfterLength(fields: seq<Field>, headers: seq<Header>, n: nat)
    ensures FoldFields(FieldRead, fields, headers, Some(n)) ==
      if NoLength(fields) then Ok((headers + HeadersOf(fields), Some(n))) else Err(BadContentLength)
    decreases |fields|
  {
    if fields == [] { assert headers + HeadersOf(fields) == headers; }
    else {
      var f, more := fields[0], fields[1..];
      assert fields == [f] + more;
      ConsLength(f, more, n);
      var h := Header(f.name, f.value);
      if !SpellsLength(f.name) {
        FoldAfterLength(more, headers + [h], n);
        assert headers + HeadersOf(fields) == headers + [h] + HeadersOf(more);
      }
    }
  }

  /** Folding yields the headers in order, and the length exactly when one matches. */
  lemma {:induction false} FoldMeans(fields: seq<Field>, headers: seq<Header>, n: nat)
    ensures var r := FoldFields(FieldRead, fields, headers, None);
      && (LengthMatches(fields, n) <==> r.Ok? && BodyLength(r.value.1) == n)
      && (r.Ok? ==> r.value.0 == headers + HeadersOf(fields))
    decreases |fields|
  {
    if fields == [] { assert headers + HeadersOf(fields) == headers; }
    else {
      var f, more := fields[0], fields[1..];
      assert fields == [f] + more;
      ConsLength(f, more, n);
      var h := Header(f.name, f.value);
      assert headers + HeadersOf(fields) == headers + [h] + HeadersOf(more);
      var length := DeclaredLength(f.name, f.value, None);
      if !SpellsLength(f.name) { FoldMeans(more, headers + [h], n); }
      else if length.Ok? { FoldAfterLength(more, headers + [h], length.value.value); }
    }
  }

  // ---- Printed requests ----

  datatype Message = Message(verb: Method, target: string, version: string, fields: seq<Field>, body: string)

  function Meaning(m: Message): Request { Request(m.verb, m.target, HeadersOf(m.fields), m.body) }

  /** `m` is at the front of `s`, up to `n`. */
  ghost predicate MessageAt(s: string, m: Message, n: nat) {
    PartsAt(s, RequestText(m.verb, m.target, m.version), FieldTexts(m.fields), m.body, n)
  }

  ghost predicate WellFormed(m: Message) {
    && TargetOk(m.target) && Supported(m.version)
    && LineFits(RequestText(m.verb, m.target, m.version), MAX_REQUEST_LINE)
    && |m.fields| <= MAX_HEADERS && FieldsOk(m.fields) && LinesFit(FieldTexts(m.fields))
    && LengthMatches(m.fields, |m.body|)
  }

  /** How a grammar and its fields are read, for every line and every list of fields. */
  ghost predicate Follows(g: Grammar, read: FieldReader) {
    && ReadsFields(g, read)
    && (forall verb, target, version {:trigger RequestText(verb, target, version)} :: TargetOk(target) && Supported(version) ==>
          g.requestLine(RequestText(verb, target, version)) == Ok((verb, target)))
    && (forall line {:trigger g.requestLine(line)} :: g.requestLine(line).Ok? ==>
          exists version :: Supported(version) && TargetOk(g.requestLine(line).value.1)
            && line == RequestText(g.requestLine(line).value.0, g.requestLine(line).value.1, version))
    && (forall fields: seq<Field>, n: nat {:trigger LengthMatches(fields, n)} :: FoldIs(read, fields, n))
  }

  ghost predicate FoldIs(read: FieldReader, fields: seq<Field>, n: nat) {
    var r := FoldFields(read, fields, [], None);
    && (LengthMatches(fields, n) <==> r.Ok? && BodyLength(r.value.1) == n)
    && (r.Ok? ==> r.value.0 == HeadersOf(fields))
  }

  lemma Http11Follows()
    ensures Follows(Http11(), FieldRead)
  {
    Http11ReadsFields();
    forall verb, target, version | TargetOk(target) && Supported(version)
      ensures RequestLine(RequestText(verb, target, version)) == Ok((verb, target))
    {
      RequestLineReads(verb, target, version);
    }
    forall line | RequestLine(line).Ok?
      ensures (exists version :: Supported(version) && TargetOk(RequestLine(line).value.1)
                && line == RequestText(RequestLine(line).value.0, RequestLine(line).value.1, version))
    {
      var version := RequestLineWasThere(line);
    }
    forall fields: seq<Field>, n: nat
      ensures FoldIs(FieldRead, fields, n)
    {
      FoldMeans(fields, [], n);
      assert [] + HeadersOf(fields) == HeadersOf(fields);
    }
  }

  lemma FieldsRead(g: Grammar, read: FieldReader, fields: seq<Field>, n: nat)
    returns (length: Option<nat>)
    requires Follows(g, read) && |fields| <= MAX_HEADERS && FieldsOk(fields) && LengthMatches(fields, n)
    ensures BodyLength(length) == n && FoldLines(g, FieldTexts(fields), [], None) == Ok((HeadersOf(fields), length))
  {
    FoldReads(g, read, fields, [], None);
    assert FoldIs(read, fields, n);
    length := FoldFields(read, fields, [], None).value.1;
  }

  lemma FieldsWereThere(g: Grammar, read: FieldReader, lines: seq<string>)
    returns (fields: seq<Field>)
    requires Follows(g, read) && FoldLines(g, lines, [], None).Ok?
    ensures lines == FieldTexts(fields) && |fields| <= MAX_HEADERS && FieldsOk(fields)
    ensures var (headers, length) := FoldLines(g, lines, [], None).value;
      headers == HeadersOf(fields) && LengthMatches(fields, BodyLength(length))
  {
    fields := FoldWasThere(g, read, lines, [], None);
    FoldReads(g, read, fields, [], None);
    var n := BodyLength(FoldLines(g, lines, [], None).value.1);
    assert LengthMatches(fields, n) <==> FoldIs(read, fields, n) && LengthMatches(fields, n);
  }

  lemma MessageReads(g: Grammar, read: FieldReader, s: string, m: Message, n: nat)
    requires Follows(g, read) && WellFormed(m) && MessageAt(s, m, n)
    ensures ParseWith(g, s) == Complete(Meaning(m), n)
  {
    var length := FieldsRead(g, read, m.fields, |m.body|);
    PartsRead(g, s, RequestText(m.verb, m.target, m.version), FieldTexts(m.fields), Meaning(m), n);
  }

  lemma MessageWasThere(g: Grammar, read: FieldReader, s: string) returns (m: Message)
    requires Follows(g, read) && ParseWith(g, s).Complete?
    ensures WellFormed(m) && MessageAt(s, m, ParseWith(g, s).end) && Meaning(m) == ParseWith(g, s).value
  {
    var line, lines := PartsWereThere(g, s);
    PartsAtIff(s, line, lines, ParseWith(g, s).value.body, ParseWith(g, s).end);
    var r := ParseWith(g, s).value;
    var fields := FieldsWereThere(g, read, lines);
    var version :| Supported(version) && TargetOk(r.target) && line == RequestText(r.verb, r.target, version);
    m := Message(r.verb, r.target, version, fields, r.body);
  }

  // ---- The round trip ----

  function Print(m: Message): string {
    PartsText(RequestText(m.verb, m.target, m.version), FieldTexts(m.fields), m.body)
  }

  /** A printed request followed by anything is parsed back, and exactly its bytes are consumed. */
  lemma ParsePrinted(m: Message, rest: string)
    requires WellFormed(m)
    ensures Parse(Print(m) + rest) == Complete(Meaning(m), |Print(m)|)
  {
    var s, n := Print(m) + rest, |Print(m)|;
    assert s[..n] == Print(m);
    PartsAtIff(s, RequestText(m.verb, m.target, m.version), FieldTexts(m.fields), m.body, n);
    Http11Follows();
    MessageReads(Http11(), FieldRead, s, m, n);
  }

  /** Whatever the parser accepts is a printed request. */
  lemma ParsedWasPrinted(s: string) returns (m: Message)
    requires Parse(s).Complete?
    ensures WellFormed(m) && Print(m) == s[..Parse(s).end] && Meaning(m) == Parse(s).value
  {
    Http11Follows();
    m := MessageWasThere(Http11(), FieldRead, s);
    PartsAtIff(s, RequestText(m.verb, m.target, m.version), FieldTexts(m.fields), m.body, Parse(s).end);
  }

  lemma PrintedPrefix(s: string, m: Message, n: nat)
    requires n <= |s| && WellFormed(m) && Print(m) == s[..n]
    ensures Parse(s) == Complete(Meaning(m), n)
  {
    assert s == s[..n] + s[n..];
    ParsePrinted(m, s[n..]);
  }

  /** Accepted means printed: `parse` completes with `r` in `n` bytes exactly when the
      first `n` bytes are a well-formed request that means `r`. */
  lemma CompleteIff(s: string, r: Request, n: nat)
    requires n <= |s|
    ensures Parse(s) == Complete(r, n) <==> exists m :: WellFormed(m) && Print(m) == s[..n] && Meaning(m) == r
  {
    if Parse(s) == Complete(r, n) {
      var m := ParsedWasPrinted(s);
    }
    forall m | WellFormed(m) && Print(m) == s[..n] && Meaning(m) == r
      ensures Parse(s) == Complete(r, n)
    {
      PrintedPrefix(s, m, n);
    }
  }

  // ---- Pipelining ----

  /** What a server sees that parses again from where the last request ended. */
  function ParseStream(s: string): (seq<Request>, string)
    decreases |s|
  {
    match Parse(s)
    case Complete(r, n) =>
      var (more, rest) := ParseStream(s[n..]);
      ([r] + more, rest)
    case _ => ([], s)
  }

  function PrintAll(ms: seq<Message>): string {
    if ms == [] then "" else Print(ms[0]) + PrintAll(ms[1..])
  }

  function Meanings(ms: seq<Message>): seq<Request> {
    if ms == [] then [] else [Meaning(ms[0])] + Meanings(ms[1..])
  }

  lemma StreamStep(m: Message, more: string)
    requires WellFormed(m)
    ensures ParseStream(Print(m) + more) == ([Meaning(m)] + ParseStream(more).0, ParseStream(more).1)
  {
    ParsePrinted(m, more);
    assert (Print(m) + more)[|Print(m)|..] == more;
  }

  /** A pipelined stream splits back into its requests and what follows them. */
  lemma {:induction false} StreamSplits(ms: seq<Message>, rest: string)
    requires forall i :: 0 <= i < |ms| ==> WellFormed(ms[i])
    requires !Parse(rest).Complete?
    ensures ParseStream(PrintAll(ms) + rest) == (Meanings(ms), rest)
  {
    if ms == [] { assert PrintAll(ms) + rest == rest; }
    else {
      assert PrintAll(ms) + rest == Print(ms[0]) + (PrintAll(ms[1..]) + rest);
      StreamStep(ms[0], PrintAll(ms[1..]) + rest);
      StreamSplits(ms[1..], rest);
    }
  }
}
