/** The language the JSON skipper accepts, printed: it stops exactly where a value of that
    language ends, and accepts nothing else. Beyond RFC 8259 it allows any value as a key,
    a comma before a closing bracket, and any run of other bytes as a scalar or an escape. */
module JsonPrint {
  import opened Wrappers
  import opened Text
  import opened Json
  import opened Sequences

  /** JSON text with its whitespace: a scalar, a string token, or a container, whose `pad`
      is the whitespace inside when it has no elements. */
  datatype Value =
    | Scalar(text: string)
    | Token(raw: string)
    | Container(kind: Kind, pad: string, elems: Elems)

  /** The elements of a container. A trailing comma is followed by whitespace only. */
  datatype Elems =
    | Nil
    | Comma(pad: string)
    | More(lead: string, key: Key, value: Value, after: string, rest: Elems)

  /** An object member's key and the whitespace around its colon; an array's element has none. */
  datatype Key = NoKey | Key(token: Value, before: string, after: string)

  // ---- Printing ----

  function Print(v: Value): string
    decreases v, 0
  {
    match v
    case Scalar(text) => text
    case Token(raw) => "\"" + raw + "\""
    case Container(kind, pad, elems) => [Open(kind)] + Body(kind, pad, elems)
  }

  /** The elements and the closing bracket. */
  function Body(kind: Kind, pad: string, elems: Elems): string
    decreases elems, 1
  {
    match elems
    case Nil => pad + [Close(kind)]
    case Comma(pad') => pad' + [Close(kind)]
    case More(lead, _, _, after, rest) => lead + Entry(elems) + (after + Tail(kind, rest))
  }

  function Entry(elems: Elems): string
    requires elems.More?
    decreases elems, 0
  {
    KeyText(elems.key, Print(elems.value))
  }

  function KeyText(key: Key, value: string): string
    decreases key, 1
  {
    if key.NoKey? then value else Print(key.token) + (key.before + (":" + (key.after + value)))
  }

  function Tail(kind: Kind, rest: Elems): string
    decreases rest, 2
  {
    if rest.Nil? then [Close(kind)] else "," + Body(kind, "", rest)
  }

  // ---- What is well formed ----

  /** String contents: escapes come in pairs, and no bare quote. */
  predicate RawOk(raw: string) {
    raw == ""
    || (if raw[0] == '\\' then |raw| >= 2 && RawOk(raw[2..]) else raw[0] != '"' && RawOk(raw[1..]))
  }

  /** Whitespace: spaces, tabs and line ends. */
  function Gap(s: string): (b: bool)
    ensures b <==> Blank(IsWs, s)
  {
    forall i :: 0 <= i < |s| ==> s[i] in {' ', '\t', '\r', '\n'}
  }

  /** A run of bytes up to a comma, a closing bracket or whitespace, that is no string or container. */
  function ScalarOk(text: string): (b: bool)
    ensures b ==> forall i :: 0 <= i < |text| ==> !IsDelimiter(text[i])
    ensures text != "" && text[0] !in {'"', '{', '['} && (forall i :: 0 <= i < |text| ==> !IsDelimiter(text[i])) ==> b
  {
    && text != "" && text[0] != '"' && text[0] != '{' && text[0] != '['
    && forall i :: 0 <= i < |text| ==> text[i] !in {',', '}', ']', ' ', '\t', '\r', '\n'}
  }

  predicate ValueOk(v: Value)
    decreases v, 0
  {
    match v
    case Scalar(text) => ScalarOk(text)
    case Token(raw) => RawOk(raw)
    case Container(kind, pad, elems) => Gap(pad) && (!elems.Nil? ==> pad == "") && !elems.Comma? && ElemsOk(kind, elems)
  }

  /** A scalar key needs whitespace before its colon, which would otherwise belong to it. */
  predicate KeyOk(kind: Kind, key: Key)
    decreases key, 0
  {
    && (kind.Obj? <==> key.Key?)
    && (key.Key? ==>
          && ValueOk(key.token) && Gap(key.before) && Gap(key.after)
          && (key.token.Scalar? ==> key.before != ""))
  }

  predicate ElemsOk(kind: Kind, elems: Elems)
    decreases elems, 0
  {
    match elems
    case Nil => true
    case Comma(pad) => Gap(pad)
    case More(lead, key, value, after, rest) =>
      Gap(lead) && Gap(after) && KeyOk(kind, key) && ValueOk(value) && ElemsOk(kind, rest)
  }

  /** An array is printed in brackets and an object in braces. */
  lemma ContainersPrint(kind: Kind, pad: string, elems: Elems)
    ensures var s := Print(Container(kind, pad, elems));
      && |s| >= 2 && s[0] == (if kind == Arr then '[' else '{') && s[|s| - 1] == (if kind == Arr then ']' else '}')
  {
    BodyCloses(kind, pad, elems);
  }

  lemma {:induction false} BodyCloses(kind: Kind, pad: string, elems: Elems)
    ensures Body(kind, pad, elems) != "" && Body(kind, pad, elems)[|Body(kind, pad, elems)| - 1] == (if kind == Arr then ']' else '}')
    decreases elems
  {
    if elems.More? && !elems.rest.Nil? { BodyCloses(kind, "", elems.rest); }
  }

  function Max(a: nat, b: nat): nat { if a > b then a else b }

  /** How deep the values nest; a key counts as a value of its object. */
  function Depth(v: Value): nat {
    if v.Container? && v.elems.More? then 1 + ElemsDepth(v.elems) else 0
  }

  function ElemsDepth(elems: Elems): nat {
    if !elems.More? then 0
    else Max(Max(if elems.key.Key? then Depth(elems.key.token) else 0, Depth(elems.value)), ElemsDepth(elems.rest))
  }

  // ---- Strings and scalars ----

  lemma {:induction false} SkipStringPrinted(raw: string, rest: string, escaped: bool)
    requires RawOk(raw)
    ensures SkipString(raw + "\"" + rest, escaped) == Ok((rest, escaped || '\\' in raw))
    decreases |raw|
  {
    var s := raw + "\"" + rest;
    if raw == "" {
      assert s[1..] == rest;
    } else if raw[0] == '\\' {
      assert s[2..] == raw[2..] + "\"" + rest;
      SkipStringPrinted(raw[2..], rest, true);
    } else {
      assert s[1..] == raw[1..] + "\"" + rest;
      assert '\\' in raw <==> '\\' in raw[1..];
      SkipStringPrinted(raw[1..], rest, escaped);
    }
  }

  lemma {:induction false} SkipStringWasThere(s: string, escaped: bool) returns (raw: string)
    requires SkipString(s, escaped).Ok?
    ensures RawOk(raw) && s == raw + "\"" + SkipString(s, escaped).value.0
    decreases |s|
  {
    if s[0] == '\\' {
      var more := SkipStringWasThere(s[2..], true);
      raw := s[..2] + more;
      assert raw[2..] == more;
    } else if s[0] == '"' {
      raw := "";
    } else {
      var more := SkipStringWasThere(s[1..], escaped);
      raw := s[..1] + more;
      assert raw[1..] == more;
    }
  }

  lemma {:induction false} SkipRunPrinted(text: string, rest: string)
    requires forall i :: 0 <= i < |text| ==> !IsDelimiter(text[i])
    requires rest == "" || IsDelimiter(rest[0])
    ensures SkipRun(text + rest) == rest
  {
    if text == "" { assert text + rest == rest; }
    else {
      assert (text + rest)[1..] == text[1..] + rest;
      SkipRunPrinted(text[1..], rest);
    }
  }

  lemma {:induction false} SkipRunWasThere(s: string) returns (text: string)
    ensures s == text + SkipRun(s) && (SkipRun(s) == "" || IsDelimiter(SkipRun(s)[0]))
    ensures forall i :: 0 <= i < |text| ==> !IsDelimiter(text[i])
  {
    if s == "" || IsDelimiter(s[0]) {
      text := "";
    } else {
      var more := SkipRunWasThere(s[1..]);
      text := s[..1] + more;
    }
  }

  lemma SkipToken(raw: string, rest: string, depth: nat)
    requires RawOk(raw)
    ensures Skip("\"" + raw + "\"" + rest, depth) == if depth > MAX_DEPTH then Err(TooDeep) else Ok(rest)
  {
    var s := "\"" + raw + "\"" + rest;
    assert s[1..] == raw + "\"" + rest;
    SkipStringPrinted(raw, rest, false);
  }

  lemma SkipScalar(text: string, rest: string, depth: nat)
    requires ScalarOk(text) && (rest == "" || IsDelimiter(rest[0]))
    ensures Skip(text + rest, depth) == if depth > MAX_DEPTH then Err(TooDeep) else Ok(rest)
  {
    SkipRunPrinted(text, rest);
  }

  /** A value's first byte is not whitespace, nor any closing bracket. */
  lemma FirstByte(v: Value)
    requires ValueOk(v)
    ensures Print(v) != "" && !IsDelimiter(Print(v)[0])
  {}

  /** What may follow a value: anything, but a scalar needs a delimiter. */
  function Follows(v: Value, rest: string): (b: bool)
    ensures b <==> (v.Scalar? ==> rest == "" || IsDelimiter(rest[0]))
  {
    v.Scalar? ==> rest == "" || rest[0] in {',', '}', ']', ' ', '\t', '\r', '\n'}
  }

  lemma SkipOpen(kind: Kind, s: string, depth: nat)
    ensures Skip([Open(kind)] + s, depth) == if depth > MAX_DEPTH then Err(TooDeep) else Elements(kind, s, depth)
  {
    assert ([Open(kind)] + s)[1..] == s;
  }

  // ---- One element ----

  lemma ElementsEnd(kind: Kind, pad: string, rest: string, depth: nat)
    requires Gap(pad)
    ensures Elements(kind, pad + ([Close(kind)] + rest), depth) == Ok(rest)
  {
    var t := [Close(kind)] + rest;
    TrimFrontIs(IsWs, pad, t);
    assert t[1..] == rest;
  }

  lemma ElementStep(kind: Kind, depth: nat, t: string, value: string, after: string, u: string)
    requires t != "" && t[0] != Close(kind) && SkipKey(kind, t, depth) == Ok(value)
    requires Skip(value, depth + 1) == Ok(after) && TrimStart(after) == u && u != ""
    ensures Element(kind, t, depth) ==
      if u[0] == ',' then Elements(kind, TrimStart(u[1..]), depth)
      else if u[0] == Close(kind) then Ok(u[1..]) else Err(BadJson)
  {}

  lemma ElementFails(kind: Kind, depth: nat, t: string)
    requires t != "" && t[0] != Close(kind)
    requires SkipKey(kind, t, depth) == Err(TooDeep)
             || (SkipKey(kind, t, depth).Ok? && Skip(SkipKey(kind, t, depth).value, depth + 1) == Err(TooDeep))
    ensures Element(kind, t, depth) == Err(TooDeep)
  {}

  lemma ElementsTrimmed(kind: Kind, s: string, depth: nat)
    ensures Elements(kind, TrimStart(s), depth) == Elements(kind, s, depth)
  {
    TrimTwice(s);
  }

  lemma TrimTwice(s: string)
    ensures TrimStart(TrimStart(s)) == TrimStart(s)
  {}

  lemma SkipColon(key: Key, value: string, s: string, depth: nat)
    requires key.Key? && Gap(key.before) && Gap(key.after) && value != "" && !IsWs(value[0]) && s != ""
    requires Skip(s, depth + 1) == Ok(key.before + (":" + (key.after + value)))
    ensures SkipKey(Obj, s, depth) == Ok(value)
  {
    var colon := ":" + (key.after + value);
    TrimFrontIs(IsWs, key.before, colon);
    assert colon[1..] == key.after + value;
    TrimFrontIs(IsWs, key.after, value);
  }

  /** How a printed value is skipped at `depth`, whatever may follow it. */
  ghost predicate Skips(v: Value, depth: nat) {
    forall x {:trigger Follows(v, x)} :: Follows(v, x) ==>
      Skip(Print(v) + x, depth) == if depth + Depth(v) > MAX_DEPTH then Err(TooDeep) else Ok(x)
  }

  /** An element's key and value nest too deep at `depth`. */
  predicate TooDeepHere(elems: Elems, depth: nat)
    requires elems.More?
  {
    || (elems.key.Key? && depth + 1 + Depth(elems.key.token) > MAX_DEPTH)
    || depth + 1 + Depth(elems.value) > MAX_DEPTH
  }

  lemma AfterKeyStarts(key: Key, value: string)
    requires KeyOk(Obj, key)
    ensures Follows(key.token, key.before + (":" + (key.after + value)))
  {}

  lemma SkipKeyPrinted(kind: Kind, key: Key, value: string, depth: nat)
    requires KeyOk(kind, key) && value != "" && !IsDelimiter(value[0]) && (key.Key? ==> Skips(key.token, depth + 1))
    ensures var t := KeyText(key, value);
      && t != "" && !IsDelimiter(t[0])
      && SkipKey(kind, t, depth) == if key.Key? && depth + 1 + Depth(key.token) > MAX_DEPTH then Err(TooDeep) else Ok(value)
  {
    if key.Key? {
      var after := key.before + (":" + (key.after + value));
      FirstByte(key.token);
      AfterKeyStarts(key, value);
      assert Skip(Print(key.token) + after, depth + 1) == if depth + 1 + Depth(key.token) > MAX_DEPTH then Err(TooDeep) else Ok(after);
      if depth + 1 + Depth(key.token) <= MAX_DEPTH { SkipColon(key, value, Print(key.token) + after, depth); }
    }
  }

  lemma EntrySplits(elems: Elems, after: string)
    requires elems.More?
    ensures Entry(elems) + after == KeyText(elems.key, Print(elems.value) + after)
  {}

  lemma TailStarts(kind: Kind, rest: Elems, text: string)
    ensures var t := Tail(kind, rest) + text;
      && t != "" && IsDelimiter(t[0]) && !IsWs(t[0])
      && (if rest.Nil? then t[0] == Close(kind) && t[1..] == text else t[0] == ',' && t[1..] == Body(kind, "", rest) + text)
  {
    if rest.Nil? { HeadAndRest([Close(kind)], "", text); } else { HeadAndRest(",", Body(kind, "", rest), text); }
  }

  lemma HeadAndRest(head: string, body: string, text: string)
    requires |head| == 1
    ensures var t := head + body + text; t != "" && t[0] == head[0] && t[1..] == body + text
    ensures head + "" == head && "" + text == text
  {}

  lemma BodySplits(kind: Kind, pad: string, elems: Elems, rest: string)
    ensures elems.Nil? ==> Body(kind, pad, elems) + rest == pad + ([Close(kind)] + rest)
    ensures elems.Comma? ==> Body(kind, pad, elems) + rest == elems.pad + ([Close(kind)] + rest)
    ensures elems.More? ==>
      Body(kind, pad, elems) + rest == elems.lead + (Entry(elems) + (elems.after + (Tail(kind, elems.rest) + rest)))
  {}

  lemma AfterStarts(kind: Kind, after: string, rest: Elems, text: string)
    requires Gap(after)
    ensures IsDelimiter((after + (Tail(kind, rest) + text))[0])
  {
    TailStarts(kind, rest, text);
  }

  /** An element whose value was skipped, up to the next one or past the bracket. */
  lemma ElementSkipped(kind: Kind, t: string, value: string, after: string, rest: Elems, text: string, depth: nat)
    requires t != "" && t[0] != Close(kind) && SkipKey(kind, t, depth) == Ok(value) && Gap(after)
    requires Skip(value, depth + 1) == Ok(after + (Tail(kind, rest) + text))
    ensures Element(kind, t, depth) ==
      if rest.Nil? then Ok(text) else Elements(kind, TrimStart(Body(kind, "", rest) + text), depth)
  {
    var tail := Tail(kind, rest) + text;
    TailStarts(kind, rest, text);
    TrimFrontIs(IsWs, after, tail);
    ElementStep(kind, depth, t, value, after + tail, tail);
  }

  /** The key and value of a printed element are skipped, or nest too deep. */
  lemma EntryValue(kind: Kind, elems: Elems, after: string, depth: nat)
    requires elems.More? && ElemsOk(kind, elems) && (elems.key.Key? ==> Skips(elems.key.token, depth + 1))
    requires Skip(Print(elems.value) + after, depth + 1)
          == if depth + 1 + Depth(elems.value) > MAX_DEPTH then Err(TooDeep) else Ok(after)
    ensures var t := Entry(elems) + after;
      && t != "" && !IsDelimiter(t[0])
      && (if TooDeepHere(elems, depth) then Element(kind, t, depth) == Err(TooDeep)
          else SkipKey(kind, t, depth) == Ok(Print(elems.value) + after))
  {
    FirstByte(elems.value);
    EntrySplits(elems, after);
    SkipKeyPrinted(kind, elems.key, Print(elems.value) + after, depth);
    if TooDeepHere(elems, depth) { ElementFails(kind, depth, Entry(elems) + after); }
  }

  /** One printed element, given how its key and value are skipped. */
  lemma ElementPrinted(kind: Kind, elems: Elems, rest: string, depth: nat)
    requires elems.More? && ElemsOk(kind, elems)
    requires (elems.key.Key? ==> Skips(elems.key.token, depth + 1)) && Skips(elems.value, depth + 1)
    ensures var t := Entry(elems) + (elems.after + (Tail(kind, elems.rest) + rest));
      && t != "" && !IsDelimiter(t[0])
      && Element(kind, t, depth) ==
         if TooDeepHere(elems, depth) then Err(TooDeep)
         else if elems.rest.Nil? then Ok(rest) else Elements(kind, TrimStart(Body(kind, "", elems.rest) + rest), depth)
  {
    var after := elems.after + (Tail(kind, elems.rest) + rest);
    AfterStarts(kind, elems.after, elems.rest, rest);
    assert Follows(elems.value, after);
    EntryValue(kind, elems, after, depth);
    if !TooDeepHere(elems, depth) {
      ElementSkipped(kind, Entry(elems) + after, Print(elems.value) + after, elems.after, elems.rest, rest, depth);
    }
  }

  lemma FirstElement(kind: Kind, pad: string, elems: Elems, rest: string, depth: nat)
    requires elems.More? && ElemsOk(kind, elems)
    requires (elems.key.Key? ==> Skips(elems.key.token, depth + 1)) && Skips(elems.value, depth + 1)
    ensures Elements(kind, Body(kind, pad, elems) + rest, depth) ==
      if TooDeepHere(elems, depth) then Err(TooDeep)
      else if elems.rest.Nil? then Ok(rest) else Elements(kind, Body(kind, "", elems.rest) + rest, depth)
  {
    BodySplits(kind, pad, elems, rest);
    ElementPrinted(kind, elems, rest, depth);
    TrimFrontIs(IsWs, elems.lead, Entry(elems) + (elems.after + (Tail(kind, elems.rest) + rest)));
    ElementsTrimmed(kind, Body(kind, "", elems.rest) + rest, depth);
  }

  // ---- What is printed is accepted ----

  /** Skipping a printed value leaves exactly what follows it, and fails only on depth. */
  lemma {:induction false} SkipPrinted(v: Value, rest: string, depth: nat)
    requires ValueOk(v) && Follows(v, rest)
    ensures Skip(Print(v) + rest, depth) == if depth + Depth(v) > MAX_DEPTH then Err(TooDeep) else Ok(rest)
    decreases v, 1
  {
    match v
    case Scalar(text) => SkipScalar(text, rest, depth);
    case Token(raw) => SkipToken(raw, rest, depth);
    case Container(kind, pad, elems) =>
      assert Print(v) + rest == [Open(kind)] + (Body(kind, pad, elems) + rest);
      SkipOpen(kind, Body(kind, pad, elems) + rest, depth);
      if depth <= MAX_DEPTH { ElementsPrinted(kind, pad, elems, rest, depth); }
  }

  lemma {:induction false} ElementsPrinted(kind: Kind, pad: string, elems: Elems, rest: string, depth: nat)
    requires Gap(pad) && ElemsOk(kind, elems) && depth <= MAX_DEPTH
    ensures Elements(kind, Body(kind, pad, elems) + rest, depth) ==
      if elems.More? && depth + 1 + ElemsDepth(elems) > MAX_DEPTH then Err(TooDeep) else Ok(rest)
    decreases elems, 0
  {
    BodySplits(kind, pad, elems, rest);
    match elems
    case Nil => ElementsEnd(kind, pad, rest, depth);
    case Comma(pad') => ElementsEnd(kind, pad', rest, depth);
    case More(_, key, value, _, more) =>
      forall x | Follows(value, x)
        ensures Skip(Print(value) + x, depth + 1) == if depth + 1 + Depth(value) > MAX_DEPTH then Err(TooDeep) else Ok(x)
      {
        SkipPrinted(value, x, depth + 1);
      }
      if key.Key? { KeySkips(key, depth); }
      FirstElement(kind, pad, elems, rest, depth);
      if !more.Nil? { ElementsPrinted(kind, "", more, rest, depth); }
  }

  lemma {:induction false} KeySkips(key: Key, depth: nat)
    requires KeyOk(Obj, key)
    ensures Skips(key.token, depth + 1)
    decreases key, 0
  {
    forall x | Follows(key.token, x)
      ensures Skip(Print(key.token) + x, depth + 1) == if depth + 1 + Depth(key.token) > MAX_DEPTH then Err(TooDeep) else Ok(x)
    {
      SkipPrinted(key.token, x, depth + 1);
    }
  }

  // ---- What is accepted was printed ----

  /** What the start of a text was read as, and what it leaves. */
  ghost predicate ReadAs(s: string, v: Value, rest: string, depth: nat) {
    ValueOk(v) && s == Print(v) + rest && Follows(v, rest) && depth + Depth(v) <= MAX_DEPTH
  }

  lemma {:induction false} SkipWasPrinted(s: string, depth: nat) returns (v: Value)
    requires Skip(s, depth).Ok?
    ensures ReadAs(s, v, Skip(s, depth).value, depth)
    decreases |s|, 0
  {
    if s[0] == '"' {
      var raw := SkipStringWasThere(s[1..], false);
      v := Token(raw);
      assert s == "\"" + s[1..];
    } else if s[0] == '{' {
      v := ContainerWasPrinted(Obj, s, depth);
    } else if s[0] == '[' {
      v := ContainerWasPrinted(Arr, s, depth);
    } else {
      var text := SkipRunWasThere(s);
      v := Scalar(text);
    }
  }

  lemma {:induction false} ContainerWasPrinted(kind: Kind, s: string, depth: nat) returns (v: Value)
    requires s != "" && s[0] == Open(kind) && depth <= MAX_DEPTH && Elements(kind, s[1..], depth).Ok?
    ensures ReadAs(s, v, Elements(kind, s[1..], depth).value, depth)
    decreases |s| - 1, 4
  {
    var pad, elems := ElementsWerePrinted(kind, s[1..], depth);
    v := Container(kind, pad, elems);
    assert ValueOk(v);
    assert s == [Open(kind)] + s[1..];
    Regroup([Open(kind)], Body(kind, pad, elems), Elements(kind, s[1..], depth).value);
  }

  lemma {:induction false} ElementsWerePrinted(kind: Kind, s: string, depth: nat) returns (pad: string, elems: Elems)
    requires Elements(kind, s, depth).Ok? && depth <= MAX_DEPTH
    ensures Gap(pad) && ElemsOk(kind, elems) && !elems.Comma? && (elems.More? ==> pad == "")
    ensures s == Body(kind, pad, elems) + Elements(kind, s, depth).value
    ensures elems.More? ==> depth + 1 + ElemsDepth(elems) <= MAX_DEPTH
    decreases |s|, 3
  {
    var t, rest := TrimStart(s), Elements(kind, s, depth).value;
    var lead := FrontIsPadding(IsWs, s);
    if t[0] == Close(kind) {
      pad, elems := lead, Nil;
      assert t == [Close(kind)] + t[1..];
      BodySplits(kind, pad, elems, rest);
    } else {
      var more := MoreWerePrinted(kind, t, depth);
      pad, elems := "", more.(lead := lead);
      LeadMoves(kind, more, lead, rest);
      assert ElemsOk(kind, elems);
    }
  }

  /** Only the whitespace before the first element differs. */
  lemma LeadMoves(kind: Kind, elems: Elems, lead: string, rest: string)
    requires elems.More? && elems.lead == ""
    ensures Entry(elems.(lead := lead)) == Entry(elems) && ElemsDepth(elems.(lead := lead)) == ElemsDepth(elems)
    ensures Body(kind, "", elems.(lead := lead)) + rest == lead + (Body(kind, "", elems) + rest)
  {
    BodySplits(kind, "", elems.(lead := lead), rest);
    BodySplits(kind, "", elems, rest);
    assert "" + (Entry(elems) + (elems.after + (Tail(kind, elems.rest) + rest)))
        == Entry(elems) + (elems.after + (Tail(kind, elems.rest) + rest));
  }

  lemma {:induction false} MoreWerePrinted(kind: Kind, t: string, depth: nat) returns (elems: Elems)
    requires t != "" && t[0] != Close(kind) && Element(kind, t, depth).Ok? && depth <= MAX_DEPTH
    ensures elems.More? && elems.lead == "" && ElemsOk(kind, elems)
    ensures t == Body(kind, "", elems) + Element(kind, t, depth).value
    ensures depth + 1 + ElemsDepth(elems) <= MAX_DEPTH
    decreases |t|, 2
  {
    var value := SkipKey(kind, t, depth).value;
    var key := KeyWasPrinted(kind, t, depth);
    var v := SkipWasPrinted(value, depth + 1);
    var after := Skip(value, depth + 1).value;
    var u := TrimStart(after);
    var pad := FrontIsPadding(IsWs, after);
    var more := RestWerePrinted(kind, u, depth);
    elems := More("", key, v, pad, more);
    var rest := Element(kind, t, depth).value;
    assert after == pad + (Tail(kind, more) + rest);
    EntrySplits(elems, after);
    BodySplits(kind, "", elems, rest);
    assert "" + t == t;
  }

  /** After an element: the bracket, or a comma and what it leads to. */
  lemma {:induction false} RestWerePrinted(kind: Kind, u: string, depth: nat) returns (more: Elems)
    requires u != "" && depth <= MAX_DEPTH && (u[0] == ',' || u[0] == Close(kind))
    requires u[0] == ',' ==> Elements(kind, TrimStart(u[1..]), depth).Ok?
    ensures ElemsOk(kind, more) && (more.More? ==> depth + 1 + ElemsDepth(more) <= MAX_DEPTH)
    ensures u == Tail(kind, more) + (if u[0] == ',' then Elements(kind, TrimStart(u[1..]), depth).value else u[1..])
    decreases |u|, 0
  {
    if u[0] == ',' {
      ElementsTrimmed(kind, u[1..], depth);
      var pad, elems := ElementsWerePrinted(kind, u[1..], depth);
      more := if elems.Nil? then Comma(pad) else elems;
      var rest := Elements(kind, u[1..], depth).value;
      PadIsIgnored(kind, pad, elems, more, rest);
      assert u == "," + u[1..];
      Regroup(",", Body(kind, "", more), rest);
    } else {
      more := Nil;
      assert u == [Close(kind)] + u[1..];
    }
  }

  lemma PadIsIgnored(kind: Kind, pad: string, elems: Elems, more: Elems, rest: string)
    requires !elems.Comma? && more == if elems.Nil? then Comma(pad) else elems
    ensures Body(kind, pad, elems) + rest == Body(kind, "", more) + rest
  {}

  lemma {:induction false} KeyWasPrinted(kind: Kind, t: string, depth: nat) returns (key: Key)
    requires t != "" && SkipKey(kind, t, depth).Ok? && depth <= MAX_DEPTH
    ensures KeyOk(kind, key) && t == KeyText(key, SkipKey(kind, t, depth).value)
    ensures key.Key? ==> depth + 1 + Depth(key.token) <= MAX_DEPTH
    decreases |t|, 1
  {
    var value := SkipKey(kind, t, depth).value;
    if kind.Arr? {
      key := NoKey;
    } else {
      var v := SkipWasPrinted(t, depth + 1);
      var after := Skip(t, depth + 1).value;
      var u := TrimStart(after);
      var before := FrontIsPadding(IsWs, after);
      var pad := FrontIsPadding(IsWs, u[1..]);
      key := Key(v, before, pad);
      assert u == ":" + u[1..];
      ColonIsNoDelimiter(v, before, u, after);
    }
  }

  lemma ColonIsNoDelimiter(v: Value, before: string, u: string, after: string)
    requires Follows(v, after) && after == before + u && u != "" && u[0] == ':'
    ensures v.Scalar? ==> before != ""
  {}

  /** The skipper accepts a text and leaves `rest` exactly when the text starts with a value
      of the language, nested within the cap, and `rest` may follow it. */
  lemma SkipIff(s: string, rest: string, depth: nat)
    ensures Skip(s, depth) == Ok(rest) <==> exists v :: ReadAs(s, v, rest, depth)
  {
    if Skip(s, depth) == Ok(rest) { var v := SkipWasPrinted(s, depth); }
    forall v | ReadAs(s, v, rest, depth) ensures Skip(s, depth) == Ok(rest) { SkipPrinted(v, rest, depth); }
  }
}
