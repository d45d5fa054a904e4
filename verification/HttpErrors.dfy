/** Which error a request is refused with: that of its first line that is too long or breaks
    the grammar. */
module HttpErrors {
  import opened Wrappers
  import opened Text
  import opened Http
  import opened HttpPrint

  // ---- One line ----

  /** Some printed field, well formed, is this line. */
  ghost predicate IsField(line: string) { exists f :: FieldOk(f) && line == FieldText(f) }

  lemma PartsAreField(line: string) returns (f: Field)
    requires FieldParts(line).Ok?
    ensures FieldOk(f) && line == FieldText(f) && FieldParts(line).value.0 == f.name && TrimOws(FieldParts(line).value.1) == f.value
  {
    var parts := FieldParts(line).value;
    var lead, trail := TrimIsPadding(IsOws, parts.1);
    f := Field(parts.0, lead, TrimOws(parts.1), trail);
  }

  lemma FieldHasParts(f: Field)
    requires FieldOk(f)
    ensures FieldParts(FieldText(f)) == Ok((f.name, f.lead + f.value + f.trail)) && TrimOws(f.lead + f.value + f.trail) == f.value
  {
    var line, padded := FieldText(f), f.lead + f.value + f.trail;
    SplitJoined(f.name, ':', padded);
    TrimPadded(IsOws, f.lead, f.value, f.trail);
    assert line[0] == f.name[0] && f.name[0] in f.name;
  }

  /** A length field that may not be: a second one, or one whose value is no acceptable number. */
  ghost predicate BadLength(f: Field, length: Option<nat>) {
    SpellsLength(f.name) && (length.Some? || forall n: nat :: !Declares(f, n))
  }

  lemma LengthRefusedIff(f: Field, length: Option<nat>)
    ensures DeclaredLength(f.name, f.value, length) == Err(BadContentLength) <==> BadLength(f, length)
    ensures DeclaredLength(f.name, f.value, length).Err? ==> DeclaredLength(f.name, f.value, length) == Err(BadContentLength)
  {
    var n := ParseDecimal(f.value, USIZE_MAX);
    if n.Some? { assert Declares(f, n.value) <==> n.value <= MAX_BODY; }
  }

  /** A header line is refused as no field, as a length that may not be, or as one too many,
      in this order. */
  lemma HeaderLineErrors(line: string, count: nat, length: Option<nat>)
    ensures var r := HeaderLine(line, count, length);
      && (r == Err(BadHeader) <==> !IsField(line))
      && (r == Err(BadContentLength) <==> exists f :: FieldOk(f) && line == FieldText(f) && BadLength(f, length))
      && (r == Err(TooManyHeaders) <==> count == 16 && exists f :: FieldOk(f) && line == FieldText(f) && !BadLength(f, length))
      && (r.Err? ==> r.error in {BadHeader, BadContentLength, TooManyHeaders})
  {
    if FieldParts(line).Ok? {
      var f := PartsAreField(line);
      LengthRefusedIff(f, length);
      forall g | FieldOk(g) && line == FieldText(g) ensures g.name == f.name && g.value == f.value { FieldHasParts(g); }
      forall g | FieldOk(g) && line == FieldText(g) ensures BadLength(g, length) <==> BadLength(f, length) {
        LengthRefusedIff(g, length);
      }
    } else {
      forall g | FieldOk(g) ensures line != FieldText(g) { FieldHasParts(g); }
    }
  }

  /** Three parts with single spaces between them; the third may hold more. */
  ghost predicate InParts(line: string, verb: string, target: string, version: string) {
    ' ' !in verb && ' ' !in target && line == verb + [' '] + (target + [' '] + version)
  }

  lemma PartsFound(line: string, verb: string, target: string, version: string)
    requires InParts(line, verb, target, version)
    ensures SplitOnce(line, ' ') == Some((verb, target + [' '] + version))
    ensures SplitOnce(target + [' '] + version, ' ') == Some((target, version))
  {
    SplitJoined(verb, ' ', target + [' '] + version);
    SplitJoined(target, ' ', version);
  }

  /** A request line is refused for its method exactly when it has its three parts and the
      first is none of the three methods, and otherwise as a line. */
  lemma RequestLineErrors(line: string)
    ensures var r := RequestLine(line);
      && (r == Err(BadMethod) <==>
            exists verb, target, version :: InParts(line, verb, target, version) && verb !in {"GET", "POST", "DELETE"})
      && (r.Err? ==> r.error in {BadMethod, BadRequestLine})
  {
    forall verb, target, version | InParts(line, verb, target, version)
      ensures RequestLine(line) == Err(BadMethod) <==> verb !in {"GET", "POST", "DELETE"}
    {
      PartsFound(line, verb, target, version);
      MethodNames(verb);
    }
    if RequestLine(line) == Err(BadMethod) {
      var (verb, rest) := SplitOnce(line, ' ').value;
      var (target, version) := SplitOnce(rest, ' ').value;
      assert InParts(line, verb, target, version);
    }
  }

  lemma MethodNames(verb: string)
    ensures MethodOf(verb).Some? <==> verb in {"GET", "POST", "DELETE"}
  {
    assert VerbText(Get) == "GET" && VerbText(Post) == "POST" && VerbText(Delete) == "DELETE";
  }

  // ---- The first bad line ----

  /** These lines are at `cursor`, each nonempty and within the cap, and end at `at`. */
  ghost predicate LinesAt(s: string, cursor: nat, lines: seq<string>, at: nat)
    decreases |lines|
  {
    if lines == [] then at == cursor
    else
      && lines[0] != "" && LineFits(lines[0], MAX_HEADER_LINE) && LineAt(s, cursor, lines[0])
      && LinesAt(s, cursor + |lines[0]| + 2, lines[1..], at)
  }

  lemma LineTaken(
    g: Grammar, s: string, cursor: nat, line: string, headers: seq<Header>, length: Option<nat>, x: Header, length': Option<nat>)
    requires cursor <= |s| && LineAt(s, cursor, line) && LineFits(line, MAX_HEADER_LINE) && line != ""
    requires g.headerLine(line, |headers|, length) == Ok((x, length'))
    ensures cursor + |line| + 2 <= |s|
    ensures Headers(g, s, cursor, headers, length) == Headers(g, s, cursor + |line| + 2, headers + [x], length')
  {
    StepReads(g, s, cursor, line, |headers|, length);
    HeadersUnfold(g, s, cursor, headers, length, Add(x, length', cursor + |line| + 2));
  }

  lemma FoldTake(g: Grammar, lines: seq<string>, headers: seq<Header>, length: Option<nat>, folded: (seq<Header>, Option<nat>))
    returns (x: Header, length': Option<nat>)
    requires lines != [] && FoldLines(g, lines, headers, length) == Ok(folded)
    ensures g.headerLine(lines[0], |headers|, length) == Ok((x, length'))
    ensures FoldLines(g, lines[1..], headers + [x], length') == Ok(folded)
  {
    var taken := g.headerLine(lines[0], |headers|, length).value;
    x, length' := taken.0, taken.1;
  }

  lemma FoldNothing(g: Grammar, headers: seq<Header>, length: Option<nat>, h: seq<Header>, l: Option<nat>)
    requires FoldLines(g, [], headers, length) == Ok((h, l))
    ensures headers == h && length == l
  {}

  lemma LinesNext(s: string, cursor: nat, lines: seq<string>, at: nat)
    requires lines != [] && LinesAt(s, cursor, lines, at)
    ensures lines[0] != "" && LineFits(lines[0], MAX_HEADER_LINE) && LineAt(s, cursor, lines[0])
    ensures cursor + |lines[0]| + 2 <= |s| && LinesAt(s, cursor + |lines[0]| + 2, lines[1..], at)
  {}

  /** After lines that are read, a step that refuses decides. */
  lemma {:induction false} RefusedAfter(
    g: Grammar, s: string, cursor: nat, lines: seq<string>, at: nat, headers: seq<Header>, length: Option<nat>,
    h: seq<Header>, l: Option<nat>, e: HttpError)
    requires cursor <= |s| && LinesAt(s, cursor, lines, at) && FoldLines(g, lines, headers, length) == Ok((h, l))
    requires at <= |s| && HeaderStep(g, s, at, |h|, l) == Refuse(e)
    ensures Headers(g, s, cursor, headers, length) == Failed(e)
    decreases |lines|
  {
    if lines == [] {
      FoldNothing(g, headers, length, h, l);
      HeadersUnfold(g, s, cursor, headers, length, Refuse(e));
    } else {
      LinesNext(s, cursor, lines, at);
      var x, length' := FoldTake(g, lines, headers, length, (h, l));
      LineTaken(g, s, cursor, lines[0], headers, length, x, length');
      RefusedAfter(g, s, cursor + |lines[0]| + 2, lines[1..], at, headers + [x], length', h, l, e);
    }
  }

  lemma {:induction false} LinesInside(s: string, cursor: nat, lines: seq<string>, at: nat)
    requires cursor <= |s| && LinesAt(s, cursor, lines, at)
    ensures at <= |s|
    decreases |lines|
  {
    if lines != [] { LinesInside(s, cursor + |lines[0]| + 2, lines[1..], at); }
  }

  /** No line ends within the cap, and more bytes than that are there. */
  predicate Overlong(s: string, from: nat, cap: nat) {
    from + cap < |s| && forall i :: from <= i <= from + cap ==> !CrlfAt(s, i)
  }

  lemma OverlongIff(s: string, from: nat, cap: nat)
    requires from <= |s|
    ensures NextLine(s, from, cap) == Failed(LineTooLong) <==> Overlong(s, from, cap)
    ensures NextLine(s, from, cap).Failed? ==> NextLine(s, from, cap) == Failed(LineTooLong)
  {}

  lemma HeadRefuses(g: Grammar, s: string, e: HttpError)
    requires Head(g, s) == Failed(e)
    ensures ParseWith(g, s) == Failed(e)
  {}

  /** A request whose first line is bad is refused for it: too long, or as its grammar says. */
  lemma FirstLineDecides(g: Grammar, s: string, line: string)
    ensures Overlong(s, 0, 1024) ==> ParseWith(g, s) == Failed(LineTooLong)
    ensures LineAt(s, 0, line) && LineFits(line, 1024) && g.requestLine(line).Err? ==>
      ParseWith(g, s) == Failed(g.requestLine(line).error)
  {
    OverlongIff(s, 0, 1024);
    NextLineIff(s, 0, line, 1024);
  }

  /** A head whose request line is good is refused when its headers are. */
  lemma HeadersDecide(g: Grammar, s: string, line: string, e: HttpError)
    requires LineAt(s, 0, line) && LineFits(line, 1024) && g.requestLine(line).Ok?
    requires Headers(g, s, |line| + 2, [], None) == Failed(e)
    ensures ParseWith(g, s) == Failed(e)
  {
    NextLineIff(s, 0, line, 1024);
    HeadRefuses(g, s, e);
  }

  /** After a good request line and good header lines, the next one that is bad decides. */
  lemma FirstBadHeaderDecides(
    g: Grammar, s: string, line: string, lines: seq<string>, at: nat, bad: string, h: seq<Header>, l: Option<nat>)
    requires LineAt(s, 0, line) && LineFits(line, 1024) && g.requestLine(line).Ok?
    requires LinesAt(s, |line| + 2, lines, at) && FoldLines(g, lines, [], None) == Ok((h, l))
    ensures Overlong(s, at, 1024) ==> ParseWith(g, s) == Failed(LineTooLong)
    ensures LineAt(s, at, bad) && LineFits(bad, 1024) && bad != "" && g.headerLine(bad, |h|, l).Err? ==>
      ParseWith(g, s) == Failed(g.headerLine(bad, |h|, l).error)
  {
    LinesInside(s, |line| + 2, lines, at);
    BadLineRefused(g, s, at, bad, h, l);
    var step := HeaderStep(g, s, at, |h|, l);
    if step.Refuse? {
      RefusedAfter(g, s, |line| + 2, lines, at, [], None, h, l, step.error);
      HeadersDecide(g, s, line, step.error);
    }
  }

  lemma BadLineRefused(g: Grammar, s: string, at: nat, bad: string, h: seq<Header>, l: Option<nat>)
    requires at <= |s|
    ensures Overlong(s, at, 1024) ==> HeaderStep(g, s, at, |h|, l) == Refuse(LineTooLong)
    ensures LineAt(s, at, bad) && LineFits(bad, 1024) && bad != "" && g.headerLine(bad, |h|, l).Err? ==>
      HeaderStep(g, s, at, |h|, l) == Refuse(g.headerLine(bad, |h|, l).error)
  {
    OverlongIff(s, at, 1024);
    if LineAt(s, at, bad) && LineFits(bad, 1024) { StepReads(g, s, at, bad, |h|, l); }
  }

  /** The parser is that grammar's: what decides a line of it is `RequestLineErrors` and
      `HeaderLineErrors`. */
  lemma ParserErrors(s: string, line: string, lines: seq<string>, at: nat, bad: string, h: seq<Header>, l: Option<nat>)
    requires LineAt(s, 0, line) && LineFits(line, 1024)
    ensures RequestLine(line).Err? ==> Parse(s) == Failed(RequestLine(line).error)
    ensures
      && RequestLine(line).Ok? && LinesAt(s, |line| + 2, lines, at) && FoldLines(Http11(), lines, [], None) == Ok((h, l))
      && LineAt(s, at, bad) && LineFits(bad, 1024) && bad != "" && HeaderLine(bad, |h|, l).Err?
      ==> Parse(s) == Failed(HeaderLine(bad, |h|, l).error)
  {
    var g := Http11();
    FirstLineDecides(g, s, line);
    if RequestLine(line).Ok? && LinesAt(s, |line| + 2, lines, at) && FoldLines(g, lines, [], None) == Ok((h, l)) {
      FirstBadHeaderDecides(g, s, line, lines, at, bad, h, l);
    }
  }
}
