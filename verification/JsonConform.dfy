/** What the skipper reads is read in one way only, and conforms to RFC 8259 exactly when
    that reading takes none of the skipper's liberties. */
module JsonConform {
  import opened Wrappers
  import opened Text
  import opened Json
  import opened JsonPrint

  // ---- One reading ----

  lemma PadUnique(a: string, x: string, b: string, y: string)
    requires Gap(a) && Gap(b) && x != "" && !IsWs(x[0]) && y != "" && !IsWs(y[0])
    requires a + x == b + y
    ensures a == b && x == y
  {
    TrimFrontIs(IsWs, a, x);
    TrimFrontIs(IsWs, b, y);
    SameFront(a, x, b, y);
  }

  lemma SameFront(a: string, x: string, b: string, y: string)
    requires a + x == b + y && (x == y || |a| == |b|)
    ensures a == b && x == y
  {
    assert |a| == |b|;
    assert a == (a + x)[..|a|] && b == (b + y)[..|b|];
    assert x == (a + x)[|a|..] && y == (b + y)[|b|..];
  }

  /** The kind of a value shows in its first byte. */
  lemma FirstShows(v: Value, rest: string)
    requires ValueOk(v)
    ensures var c := (Print(v) + rest)[0];
      && (v.Token? <==> c == '"') && (v.Container? <==> c == '{' || c == '[')
      && (v.Container? ==> c == Open(v.kind))
  {
    FirstByte(v);
  }

  /** Two readings of one text are the same value, and leave the same. */
  lemma {:induction false} ValueUnique(v: Value, w: Value, r: string, q: string)
    requires ValueOk(v) && ValueOk(w) && Follows(v, r) && Follows(w, q) && Print(v) + r == Print(w) + q
    ensures v == w && r == q
    decreases v, 1
  {
    FirstShows(v, r);
    FirstShows(w, q);
    match v
    case Scalar(text) =>
      SkipRunPrinted(text, r);
      SkipRunPrinted(w.text, q);
      SameFront(text, r, w.text, q);
    case Token(raw) => TokenUnique(raw, w.raw, r, q);
    case Container(kind, pad, elems) =>
      BodyOf(v, r);
      BodyOf(w, q);
      BodyUnique(kind, pad, elems, w.pad, w.elems, r, q);
  }

  lemma BodyOf(v: Value, r: string)
    requires v.Container?
    ensures (Print(v) + r)[1..] == Body(v.kind, v.pad, v.elems) + r && (Print(v) + r)[0] == Open(v.kind)
  {
    HeadAndRest([Open(v.kind)], Body(v.kind, v.pad, v.elems), r);
  }

  lemma TokenUnique(a: string, b: string, r: string, q: string)
    requires RawOk(a) && RawOk(b) && "\"" + a + "\"" + r == "\"" + b + "\"" + q
    ensures a == b && r == q
  {
    AfterQuote(a, r);
    AfterQuote(b, q);
    RawUnique(a, b, r, q);
  }

  lemma AfterQuote(raw: string, rest: string)
    ensures ("\"" + raw + "\"" + rest)[1..] == raw + "\"" + rest
  {}

  lemma RawUnique(a: string, b: string, r: string, q: string)
    requires RawOk(a) && RawOk(b) && a + "\"" + r == b + "\"" + q
    ensures a == b && r == q
  {
    SkipStringPrinted(a, r, false);
    SkipStringPrinted(b, q, false);
    SameFront(a + "\"", r, b + "\"", q);
    SameFront(a, "\"", b, "\"");
  }

  /** The whitespace before the closing bracket. */
  function ClosingPad(pad: string, elems: Elems): string
    requires !elems.More?
  {
    if elems.Comma? then elems.pad else pad
  }

  /** After a bracket there may be no comma, and after a comma not nothing. */
  predicate SamePlace(e: Elems, f: Elems) { (e.Nil? ==> !f.Comma?) && (e.Comma? ==> !f.Nil?) }

  lemma {:induction false} BodyUnique(kind: Kind, pad: string, e: Elems, pad': string, f: Elems, r: string, q: string)
    requires Gap(pad) && Gap(pad') && ElemsOk(kind, e) && ElemsOk(kind, f) && SamePlace(e, f)
    requires Body(kind, pad, e) + r == Body(kind, pad', f) + q
    ensures r == q && (e.More? <==> f.More?)
    ensures if e.More? then e == f else e.Nil? == f.Nil? && ClosingPad(pad, e) == ClosingPad(pad', f)
    decreases e, 3
  {
    BodySplits(kind, pad, e, r);
    BodySplits(kind, pad', f, q);
    if e.More? { EntryStarts(e, e.after + (Tail(kind, e.rest) + r), kind); }
    if f.More? { EntryStarts(f, f.after + (Tail(kind, f.rest) + q), kind); }
    var x := if e.More? then Entry(e) + (e.after + (Tail(kind, e.rest) + r)) else [Close(kind)] + r;
    var y := if f.More? then Entry(f) + (f.after + (Tail(kind, f.rest) + q)) else [Close(kind)] + q;
    PadUnique(if e.More? then e.lead else ClosingPad(pad, e), x, if f.More? then f.lead else ClosingPad(pad', f), y);
    if e.More? {
      MoreUnique(kind, e, f, r, q);
    } else {
      SameFront([Close(kind)], r, [Close(kind)], q);
    }
  }

  lemma EntryStarts(e: Elems, after: string, kind: Kind)
    requires e.More? && ElemsOk(kind, e)
    ensures var t := Entry(e) + after; t != "" && !IsDelimiter(t[0])
  {
    EntrySplits(e, after);
    FirstByte(e.value);
    if e.key.Key? { FirstByte(e.key.token); }
  }

  lemma {:induction false} MoreUnique(kind: Kind, e: Elems, f: Elems, r: string, q: string)
    requires e.More? && f.More? && ElemsOk(kind, e) && ElemsOk(kind, f) && e.lead == f.lead
    requires Entry(e) + (e.after + (Tail(kind, e.rest) + r)) == Entry(f) + (f.after + (Tail(kind, f.rest) + q))
    ensures e == f && r == q
    decreases e, 2
  {
    var a, b := e.after + (Tail(kind, e.rest) + r), f.after + (Tail(kind, f.rest) + q);
    EntrySplits(e, a);
    EntrySplits(f, b);
    FirstByte(e.value);
    FirstByte(f.value);
    if kind.Obj? { KeyUnique(e.key, f.key, Print(e.value) + a, Print(f.value) + b); }
    AfterStarts(kind, e.after, e.rest, r);
    AfterStarts(kind, f.after, f.rest, q);
    ValueUnique(e.value, f.value, a, b);
    TailStarts(kind, e.rest, r);
    TailStarts(kind, f.rest, q);
    PadUnique(e.after, Tail(kind, e.rest) + r, f.after, Tail(kind, f.rest) + q);
    if !e.rest.Nil? {
      BodyUnique(kind, "", e.rest, "", f.rest, r, q);
    }
  }

  lemma {:induction false} KeyUnique(k: Key, l: Key, x: string, y: string)
    requires KeyOk(Obj, k) && KeyOk(Obj, l) && x != "" && !IsDelimiter(x[0]) && y != "" && !IsDelimiter(y[0])
    requires KeyText(k, x) == KeyText(l, y)
    ensures k == l && x == y
    decreases k, 1
  {
    var a, b := k.before + (":" + (k.after + x)), l.before + (":" + (l.after + y));
    AfterKeyStarts(k, x);
    AfterKeyStarts(l, y);
    ValueUnique(k.token, l.token, a, b);
    PadUnique(k.before, ":" + (k.after + x), l.before, ":" + (l.after + y));
    SameFront(":", k.after + x, ":", l.after + y);
    PadUnique(k.after, x, l.after, y);
  }

  // ---- RFC 8259 ----

  predicate IsHex(c: char) { IsDigit(c) || 'a' <= c <= 'f' || 'A' <= c <= 'F' }

  predicate IsShortEscape(c: char) {
    c == '"' || c == '\\' || c == '/' || c == 'b' || c == 'f' || c == 'n' || c == 'r' || c == 't'
  }

  /** String contents of section 7: no bare control character, and the listed escapes. */
  predicate RfcRaw(raw: string) {
    raw == ""
    || (if raw[0] == '\\' then
          |raw| >= 2
          && (if raw[1] == 'u' then |raw| >= 6 && (forall i :: 2 <= i < 6 ==> IsHex(raw[i])) && RfcRaw(raw[6..])
              else IsShortEscape(raw[1]) && RfcRaw(raw[2..]))
        else raw[0] >= ' ' && raw[0] != '"' && RfcRaw(raw[1..]))
  }

  function DropDigits(s: string): (r: string)
    ensures |r| <= |s|
  {
    if s != "" && IsDigit(s[0]) then DropDigits(s[1..]) else s
  }

  /** One digit at least, and what follows the digits. */
  function Digits1(s: string): Option<string> {
    if s != "" && IsDigit(s[0]) then Some(DropDigits(s)) else None
  }

  predicate RfcExponent(s: string) {
    s == ""
    || ((s[0] == 'e' || s[0] == 'E')
        && Digits1(if |s| > 1 && (s[1] == '+' || s[1] == '-') then s[2..] else s[1..]) == Some(""))
  }

  predicate RfcFraction(s: string) {
    if s != "" && s[0] == '.' then Digits1(s[1..]).Some? && RfcExponent(Digits1(s[1..]).value) else RfcExponent(s)
  }

  /** A number of section 6. */
  predicate RfcNumber(s: string) {
    var t := if s != "" && s[0] == '-' then s[1..] else s;
    t != "" && IsDigit(t[0]) && RfcFraction(if t[0] == '0' then t[1..] else DropDigits(t))
  }

  predicate RfcScalar(s: string) { s == "true" || s == "false" || s == "null" || RfcNumber(s) }

  /** The reading takes no liberty: scalars, escapes and keys are those of the standard, and
      no comma precedes a bracket. */
  predicate Strict(v: Value)
    decreases v, 0
  {
    match v
    case Scalar(text) => RfcScalar(text)
    case Token(raw) => RfcRaw(raw)
    case Container(_, _, elems) => StrictElems(elems)
  }

  predicate StrictElems(elems: Elems)
    decreases elems, 0
  {
    match elems
    case Nil => true
    case Comma(_) => false
    case More(_, key, value, _, rest) =>
      (key.Key? ==> key.token.Token? && RfcRaw(key.token.raw)) && Strict(value) && StrictElems(rest)
  }

  /** `text` is a JSON value of RFC 8259. */
  ghost predicate Conforms(text: string) {
    exists w :: ValueOk(w) && Strict(w) && text == Print(w)
  }

  /** What is accepted conforms exactly when its reading takes no liberty. */
  lemma ConformsIff(s: string, v: Value, rest: string, depth: nat)
    requires ReadAs(s, v, rest, depth)
    ensures Skip(s, depth) == Ok(rest)
    ensures Conforms(Print(v)) <==> Strict(v)
    ensures forall w, q :: ReadAs(s, w, q, depth) ==> w == v && q == rest
  {
    SkipPrinted(v, rest, depth);
    forall w | ValueOk(w) && Print(v) == Print(w) ensures w == v {
      assert Print(v) + "" == Print(w) + "";
      ValueUnique(v, w, "", "");
    }
    forall w, q | ReadAs(s, w, q, depth) ensures w == v && q == rest {
      ValueUnique(v, w, rest, q);
    }
  }

  // ---- Each liberty is taken ----

  /** The same elements with a comma after the last. */
  function WithComma(elems: Elems, pad: string): Elems
    requires elems.More?
  {
    if elems.rest.More? then elems.(rest := WithComma(elems.rest, pad)) else elems.(rest := Comma(pad))
  }

  lemma {:induction false} WithCommaOk(kind: Kind, elems: Elems, pad: string)
    requires elems.More? && ElemsOk(kind, elems) && Gap(pad)
    ensures ElemsOk(kind, WithComma(elems, pad)) && ElemsDepth(WithComma(elems, pad)) == ElemsDepth(elems)
    ensures WithComma(elems, pad).More? && !StrictElems(WithComma(elems, pad))
    decreases elems
  {
    if elems.rest.More? { WithCommaOk(kind, elems.rest, pad); }
  }

  /** A comma before the closing bracket of any container with elements, of either kind, at
      any depth the container itself may have, is accepted and does not conform. */
  lemma TrailingCommaSkipped(kind: Kind, elems: Elems, pad: string, rest: string, depth: nat)
    requires elems.More? && ElemsOk(kind, elems) && Gap(pad) && depth + Depth(Container(kind, "", elems)) <= MAX_DEPTH
    ensures var v := Container(kind, "", WithComma(elems, pad));
      Skip(Print(v) + rest, depth) == Ok(rest) && !Conforms(Print(v))
  {
    var v := Container(kind, "", WithComma(elems, pad));
    WithCommaOk(kind, elems, pad);
    ConformsIff(Print(v) + rest, v, rest, depth);
  }

  /** Any other value as a key is accepted, and does not conform. */
  lemma AnyKeySkipped(key: Key, value: Value, rest: string, depth: nat)
    requires KeyOk(Obj, key) && !key.token.Token? && ValueOk(value)
    requires depth + 1 + Max(Depth(key.token), Depth(value)) <= MAX_DEPTH
    ensures var v := Container(Obj, "", More("", key, value, "", Nil));
      Skip(Print(v) + rest, depth) == Ok(rest) && !Conforms(Print(v))
  {
    var v := Container(Obj, "", More("", key, value, "", Nil));
    assert ElemsDepth(v.elems) == Max(Depth(key.token), Depth(value));
    ConformsIff(Print(v) + rest, v, rest, depth);
  }

  /** Any other run of bytes as a scalar, and any other escape, is accepted and does not conform. */
  lemma AnyScalarSkipped(v: Value, rest: string, depth: nat)
    requires ValueOk(v) && Follows(v, rest) && depth <= MAX_DEPTH
    requires (v.Scalar? && !RfcScalar(v.text)) || (v.Token? && !RfcRaw(v.raw))
    ensures Skip(Print(v) + rest, depth) == Ok(rest) && !Conforms(Print(v))
  {
    ConformsIff(Print(v) + rest, v, rest, depth);
  }

  /** Such scalars and escapes exist. */
  lemma LibertiesExist()
    ensures ScalarOk("nope") && !RfcScalar("nope")
    ensures RawOk("\\q") && !RfcRaw("\\q")
  {
    assert "\\q"[2..] == "";
  }
}
