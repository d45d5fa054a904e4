/** Receiving more bytes: a complete answer never changes, and an error stays an error
    except for a line of exactly the cap that was cut between its CR and its LF. */
module HttpRestart {
  import opened Wrappers
  import opened Text
  import opened Http

  /** The unfinished line from `from` holds `cap` bytes and the CR of its line ending. */
  predicate CutAfterCr(s: string, from: nat, cap: nat)
    requires from <= |s|
  {
    FindCrlf(s, from).None? && |s| - from == cap + 1 && s[|s| - 1] == '\r'
  }

  /** A CRLF found stays the next one; one found only after an extension lies at its seam or beyond. */
  lemma FindCrlfExtends(s: string, more: string, from: nat)
    requires from <= |s|
    ensures FindCrlf(s, from).Some? ==> FindCrlf(s + more, from) == FindCrlf(s, from)
    ensures FindCrlf(s, from).None? && FindCrlf(s + more, from).Some? ==>
              var e := FindCrlf(s + more, from).value; e >= |s| || (e == |s| - 1 && s[e] == '\r')
  {
    var t, a, b := s + more, FindCrlf(s, from), FindCrlf(s + more, from);
    assert forall i :: 0 <= i && i + 1 < |s| ==> (CrlfAt(t, i) <==> CrlfAt(s, i));
    if a.Some? {
      assert CrlfAt(t, a.value);
      assert b.Some?;
    } else if b.Some? {
      assert CrlfAt(t, b.value) && !CrlfAt(s, b.value);
    }
  }

  lemma NextLineExtends(s: string, more: string, from: nat, cap: nat)
    requires from <= |s|
    ensures var r, r' := NextLine(s, from, cap), NextLine(s + more, from, cap);
      && (r.Complete? ==> r' == r)
      && (r.Failed? && !CutAfterCr(s, from, cap) ==> r' == r)
  {
    FindCrlfExtends(s, more, from);
    var a := FindCrlf(s, from);
    if a.Some? { assert (s + more)[from..a.value] == s[from..a.value]; }
  }

  /** The one byte that turns a cut line into an acceptable one. */
  lemma LfCompletesLine(s: string, from: nat, cap: nat)
    requires from <= |s| && CutAfterCr(s, from, cap)
    ensures NextLine(s, from, cap) == Failed(LineTooLong)
    ensures NextLine(s + "\n", from, cap) == Complete(s[from..|s| - 1], |s| + 1)
  {
    var t := s + "\n";
    assert CrlfAt(t, |s| - 1);
    assert forall i :: 0 <= i && i + 1 < |s| ==> (CrlfAt(t, i) <==> CrlfAt(s, i));
    assert FindCrlf(t, from) == Some(|s| - 1);
    assert t[from..|s| - 1] == s[from..|s| - 1];
  }

  // ---- Header lines ----

  /** The line at `cursor` was cut after its CR and would otherwise be accepted. */
  predicate StepCut(g: Grammar, s: string, cursor: nat, count: nat, length: Option<nat>)
    requires cursor <= |s|
  {
    && CutAfterCr(s, cursor, MAX_HEADER_LINE)
    && g.headerLine(s[cursor..|s| - 1], count, length).Ok?
  }

  lemma HeaderStepExtends(g: Grammar, s: string, more: string, cursor: nat, count: nat, length: Option<nat>)
    requires cursor <= |s|
    ensures var r, r' := HeaderStep(g, s, cursor, count, length), HeaderStep(g, s + more, cursor, count, length);
      && (r.End? || r.Add? ==> r' == r)
      && (r.Refuse? && !StepCut(g, s, cursor, count, length) ==> r'.Refuse?)
  {
    NextLineExtends(s, more, cursor, MAX_HEADER_LINE);
    if CutAfterCr(s, cursor, MAX_HEADER_LINE) {
      FindCrlfExtends(s, more, cursor);
      if FindCrlf(s + more, cursor) == Some(|s| - 1) { assert (s + more)[cursor..|s| - 1] == s[cursor..|s| - 1]; }
    }
  }

  lemma StepCutRecovers(g: Grammar, s: string, cursor: nat, count: nat, length: Option<nat>)
    requires cursor <= |s| && StepCut(g, s, cursor, count, length)
    ensures HeaderStep(g, s, cursor, count, length) == Refuse(LineTooLong)
    ensures var r' := HeaderStep(g, s + "\n", cursor, count, length); r'.Add? && r'.next == |s| + 1
  {
    LfCompletesLine(s, cursor, MAX_HEADER_LINE);
  }

  /** Parsing stops at a header line that was cut after its CR. */
  predicate HeadersCut(g: Grammar, s: string, cursor: nat, headers: seq<Header>, length: Option<nat>)
    requires cursor <= |s|
    decreases |s| - cursor
  {
    match HeaderStep(g, s, cursor, |headers|, length)
    case Refuse(_) => StepCut(g, s, cursor, |headers|, length)
    case Add(h, length', next) => HeadersCut(g, s, next, headers + [h], length')
    case _ => false
  }

  lemma {:induction false} HeadersExtend(g: Grammar, s: string, more: string, cursor: nat, headers: seq<Header>, length: Option<nat>)
    requires cursor <= |s|
    ensures var r, r' := Headers(g, s, cursor, headers, length), Headers(g, s + more, cursor, headers, length);
      && (r.Complete? ==> r' == r)
      && (r.Failed? && !HeadersCut(g, s, cursor, headers, length) ==> r'.Failed?)
    decreases |s| - cursor
  {
    HeaderStepExtends(g, s, more, cursor, |headers|, length);
    var step := HeaderStep(g, s, cursor, |headers|, length);
    if step.Add? { HeadersExtend(g, s, more, step.next, headers + [step.header], step.length); }
  }

  lemma {:induction false} CutHeadersRecover(g: Grammar, s: string, cursor: nat, headers: seq<Header>, length: Option<nat>)
    requires cursor <= |s| && HeadersCut(g, s, cursor, headers, length)
    ensures Headers(g, s, cursor, headers, length) == Failed(LineTooLong)
    ensures Headers(g, s + "\n", cursor, headers, length) == Partial
    decreases |s| - cursor
  {
    var step := HeaderStep(g, s, cursor, |headers|, length);
    if step.Add? {
      HeaderStepExtends(g, s, "\n", cursor, |headers|, length);
      CutHeadersRecover(g, s, step.next, headers + [step.header], step.length);
    } else {
      StepCutRecovers(g, s, cursor, |headers|, length);
      var next := HeaderStep(g, s + "\n", cursor, |headers|, length);
      NothingLeft(g, s + "\n", headers + [next.header], next.length);
    }
  }

  lemma NothingLeft(g: Grammar, s: string, headers: seq<Header>, length: Option<nat>)
    ensures Headers(g, s, |s|, headers, length) == Partial
  {
    assert FindCrlf(s, |s|) == None;
  }

  // ---- The whole request ----

  /** The buffer ends in the CR of an acceptable line of exactly the cap, the request
      line or a header line. */
  predicate CutAtCap(g: Grammar, s: string) {
    match NextLine(s, 0, MAX_REQUEST_LINE)
    case Partial => false
    case Failed(_) => CutAfterCr(s, 0, MAX_REQUEST_LINE) && g.requestLine(s[..|s| - 1]).Ok?
    case Complete(line, next) => g.requestLine(line).Ok? && HeadersCut(g, s, next, [], None)
  }

  lemma SliceExtends(s: string, more: string, a: nat, b: nat)
    requires a <= b <= |s|
    ensures (s + more)[a..b] == s[a..b]
  {}

  lemma HeadExtends(g: Grammar, s: string, more: string)
    requires Head(g, s).Complete?
    ensures Head(g, s + more) == Head(g, s)
  {
    NextLineExtends(s, more, 0, MAX_REQUEST_LINE);
    HeadersExtend(g, s, more, NextLine(s, 0, MAX_REQUEST_LINE).end, [], None);
  }

  /** A complete answer is unchanged by whatever follows. */
  lemma CompleteIsFinal(g: Grammar, s: string, more: string)
    requires ParseWith(g, s).Complete?
    ensures ParseWith(g, s + more) == ParseWith(g, s)
  {
    HeadExtends(g, s, more);
    SliceExtends(s, more, Head(g, s).end, ParseWith(g, s).end);
  }

  lemma FailedStaysFailed(g: Grammar, s: string, more: string)
    requires ParseWith(g, s).Failed? && !CutAtCap(g, s)
    ensures ParseWith(g, s + more).Failed?
  {
    NextLineExtends(s, more, 0, MAX_REQUEST_LINE);
    var line := NextLine(s, 0, MAX_REQUEST_LINE);
    if line.Complete? {
      HeadersExtend(g, s, more, line.end, [], None);
    } else if CutAfterCr(s, 0, MAX_REQUEST_LINE) {
      FindCrlfExtends(s, more, 0);
      if FindCrlf(s + more, 0) == Some(|s| - 1) { assert (s + more)[0..|s| - 1] == s[..|s| - 1]; }
    }
  }

  lemma CutRecovers(g: Grammar, s: string)
    requires CutAtCap(g, s)
    ensures ParseWith(g, s) == Failed(LineTooLong) && ParseWith(g, s + "\n") == Partial
  {
    NextLineExtends(s, "\n", 0, MAX_REQUEST_LINE);
    var line := NextLine(s, 0, MAX_REQUEST_LINE);
    if line.Complete? {
      CutHeadersRecover(g, s, line.end, [], None);
    } else {
      LfCompletesLine(s, 0, MAX_REQUEST_LINE);
      NothingLeft(g, s + "\n", [], None);
      assert s[0..|s| - 1] == s[..|s| - 1];
    }
  }

  /** An error is final, as documented, exactly when no acceptable line was cut at its cap. */
  lemma ErrorIsFinalIff(g: Grammar, s: string)
    requires ParseWith(g, s).Failed?
    ensures (forall more :: ParseWith(g, s + more).Failed?) <==> !CutAtCap(g, s)
  {
    if CutAtCap(g, s) {
      CutRecovers(g, s);
    } else {
      forall more ensures ParseWith(g, s + more).Failed? { FailedStaysFailed(g, s, more); }
    }
  }

  /** Every proper prefix of a consumed request asks for more bytes, with the same exception. */
  lemma PrefixIsPartialIff(g: Grammar, s: string, k: nat)
    requires ParseWith(g, s).Complete? && k < ParseWith(g, s).end
    ensures ParseWith(g, s[..k]) == (if CutAtCap(g, s[..k]) then Failed(LineTooLong) else Partial)
  {
    var a, b := s[..k], s[k..];
    assert a + b == s;
    if CutAtCap(g, a) { CutRecovers(g, a); }
    else if ParseWith(g, a).Complete? { CompleteIsFinal(g, a, b); }
    else if ParseWith(g, a).Failed? { FailedStaysFailed(g, a, b); }
  }

  function Repeat(c: char, n: nat): (s: string)
    ensures |s| == n && forall i :: 0 <= i < n ==> s[i] == c
  {
    seq(n, _ => c)
  }

  /** A GET line of 1024 bytes. */
  function LongLine(): (line: string)
    ensures |line| == MAX_REQUEST_LINE && '\n' !in line
  {
    "GET" + " " + (Repeat('a', MAX_REQUEST_LINE - 13) + " " + "HTTP/1.1")
  }

  lemma LongLineIsAccepted()
    ensures RequestLine(LongLine()).Ok?
  {
    var target := Repeat('a', MAX_REQUEST_LINE - 13);
    SplitJoined("GET", ' ', target + " " + "HTTP/1.1");
    SplitJoined(target, ' ', "HTTP/1.1");
  }

  /** Such a buffer exists: that line, cut after its CR. */
  lemma CutAtCapExists()
    ensures var s := LongLine() + "\r";
      CutAtCap(Http11(), s) && Parse(s) == Failed(LineTooLong) && Parse(s + "\n") == Partial
  {
    var s := LongLine() + "\r";
    LongLineIsAccepted();
    assert FindCrlf(s, 0).None?;
    assert s[..|s| - 1] == LongLine();
    CutRecovers(Http11(), s);
  }
}
