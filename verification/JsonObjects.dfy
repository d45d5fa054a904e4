/** Reading printed objects: field lookup, requests, and responses. */
module JsonObjects {
  import opened Wrappers
  import opened Text
  import opened Json
  import opened JsonPrint
  import opened Output

  // ---- Members of a printed object ----

  /** A member the lookup gets past: its key is a string free of escapes, and its value does
      not nest too deep to be skipped. */
  predicate Readable(elems: Elems)
    requires elems.More?
  {
    elems.key.Key? && elems.key.token.Token? && '\\' !in elems.key.token.raw && Depth(elems.value) <= MAX_DEPTH
  }

  /** The first member called `key`, if every member up to it is readable. */
  function Lookup(elems: Elems, key: string): Option<Value> {
    if !elems.More? || !Readable(elems) then None
    else if elems.key.token.raw == key then Some(elems.value)
    else Lookup(elems.rest, key)
  }

  function Span(v: Option<Value>): Option<string> {
    if v.None? then None else Some(Print(v.value))
  }

  /** The members without the closing bracket. */
  function Inner(pad: string, elems: Elems): string
    decreases elems, 0
  {
    match elems
    case Nil => pad
    case Comma(pad') => pad'
    case More(lead, _, _, after, rest) => lead + (Entry(elems) + (after + InnerTail(rest)))
  }

  function InnerTail(rest: Elems): string
    decreases rest, 1
  {
    if rest.Nil? then "" else "," + Inner("", rest)
  }

  lemma {:induction false} BodyIsInner(pad: string, elems: Elems)
    ensures Body(Obj, pad, elems) == Inner(pad, elems) + "}"
    decreases elems
  {
    if elems.More? {
      if !elems.rest.Nil? { BodyIsInner("", elems.rest); }
      assert Tail(Obj, elems.rest) == InnerTail(elems.rest) + "}";
    }
  }

  lemma TakeToken(raw: string, rest: string)
    requires RawOk(raw)
    ensures TakeString("\"" + raw + "\"" + rest) == if '\\' in raw then Err(EscapedString) else Ok((raw, rest))
  {
    var s := "\"" + raw + "\"" + rest;
    assert s[1..] == raw + "\"" + rest;
    SkipStringPrinted(raw, rest, false);
    assert s[1..|s| - |rest| - 1] == raw;
  }

  /** One turn of the lookup loop. */
  lemma FindStep(s: string, name: string, afterName: string, value: string, after: string, key: string)
    requires TakeString(s) == Ok((name, afterName))
    requires TrimStart(afterName) != "" && TrimStart(afterName)[0] == ':' && TrimStart(TrimStart(afterName)[1..]) == value
    requires Skip(value, 0) == Ok(after)
    ensures FindMember(s, key) ==
      if name == key then Some(value[..|value| - |after|])
      else
        var u := TrimStart(after);
        if u != "" && u[0] == ',' then FindMember(TrimStart(u[1..]), key) else None
  {}

  lemma KeyPrinted(key: Key, value: string)
    requires KeyOk(Obj, key) && key.token.Token? && '\\' !in key.token.raw && value != "" && !IsWs(value[0])
    ensures var s := KeyText(key, value);
      && TakeString(s) == Ok((key.token.raw, key.before + (":" + (key.after + value))))
      && TrimStart(key.before + (":" + (key.after + value))) == ":" + (key.after + value)
      && TrimStart((":" + (key.after + value))[1..]) == value
  {
    var colon := ":" + (key.after + value);
    TakeToken(key.token.raw, key.before + colon);
    TrimFrontIs(IsWs, key.before, colon);
    assert colon[1..] == key.after + value;
    TrimFrontIs(IsWs, key.after, value);
  }

  /** A key that is no string, or has escapes, ends the lookup. */
  lemma KeyRefused(key: Key, value: string)
    requires KeyOk(Obj, key) && !(key.token.Token? && '\\' !in key.token.raw)
    ensures TakeString(KeyText(key, value)).Err?
  {
    if key.token.Token? { TakeToken(key.token.raw, key.before + (":" + (key.after + value))); }
    else { FirstByte(key.token); KeyStarts(key.token); }
  }

  lemma KeyStarts(v: Value)
    requires ValueOk(v) && !v.Token?
    ensures Print(v) != "" && Print(v)[0] != '"'
  {}

  lemma FindStops(s: string, key: string)
    requires s != "" && TakeString(s).Err?
    ensures FindMember(s, key) == None
  {}

  lemma FindTooDeep(s: string, name: string, afterName: string, value: string, key: string)
    requires TakeString(s) == Ok((name, afterName))
    requires TrimStart(afterName) != "" && TrimStart(afterName)[0] == ':' && TrimStart(TrimStart(afterName)[1..]) == value
    requires Skip(value, 0).Err?
    ensures FindMember(s, key) == None
  {}

  /** One member: its span when the key is asked for, otherwise on to the next; nothing once
      a member cannot be read. */
  lemma MemberPrinted(elems: Elems, after: string, key: string)
    requires elems.More? && ElemsOk(Obj, elems) && Follows(elems.value, after)
    ensures FindMember(Entry(elems) + after, key) ==
      if !Readable(elems) then None
      else if elems.key.token.raw == key then Some(Print(elems.value))
      else
        var u := TrimStart(after);
        if u != "" && u[0] == ',' then FindMember(TrimStart(u[1..]), key) else None
  {
    var k, value := elems.key, Print(elems.value) + after;
    FirstByte(elems.value);
    EntrySplits(elems, after);
    FirstByte(k.token);
    if !(k.token.Token? && '\\' !in k.token.raw) {
      KeyRefused(k, value);
      FindStops(KeyText(k, value), key);
    } else {
      KeyPrinted(k, value);
      SkipPrinted(elems.value, after, 0);
      if Depth(elems.value) > MAX_DEPTH {
        FindTooDeep(KeyText(k, value), k.token.raw, k.before + (":" + (k.after + value)), value, key);
      } else {
        FindStep(KeyText(k, value), k.token.raw, k.before + (":" + (k.after + value)), value, after, key);
        FrontOf(Print(elems.value), after);
      }
    }
  }

  lemma FrontOf(a: string, b: string)
    ensures (a + b)[..|a + b| - |b|] == a
  {}

  lemma InnerStarts(elems: Elems)
    requires elems.More? && ElemsOk(Obj, elems)
    ensures TrimStart(Inner("", elems)) == Entry(elems) + (elems.after + InnerTail(elems.rest))
    ensures Follows(elems.value, elems.after + InnerTail(elems.rest))
    ensures TrimStart(elems.after + InnerTail(elems.rest)) == InnerTail(elems.rest)
  {
    var after := elems.after + InnerTail(elems.rest);
    EntrySplits(elems, after);
    FirstByte(elems.key.token);
    TrimFrontIs(IsWs, elems.lead, Entry(elems) + after);
    TrimFrontIs(IsWs, elems.after, InnerTail(elems.rest));
  }

  /** The lookup loop finds the first member asked for, and nothing for an absent key. */
  lemma {:induction false} MembersPrinted(elems: Elems, key: string)
    requires elems.More? && ElemsOk(Obj, elems)
    ensures FindMember(TrimStart(Inner("", elems)), key) == Span(Lookup(elems, key))
    decreases elems
  {
    InnerStarts(elems);
    MemberPrinted(elems, elems.after + InnerTail(elems.rest), key);
    if !elems.rest.Nil? { assert InnerTail(elems.rest)[1..] == Inner("", elems.rest); }
    if elems.rest.More? { MembersPrinted(elems.rest, key); }
    if elems.rest.Comma? { PadIsNothing(elems.rest.pad); }
  }

  lemma PadIsNothing(pad: string)
    requires Gap(pad)
    ensures TrimStart(pad) == ""
  {
    assert pad + "" == pad;
    TrimFrontIs(IsWs, pad, "");
  }

  lemma ObjectPrints(pad: string, elems: Elems)
    ensures var s := Print(Container(Obj, pad, elems));
      && |s| >= 2 && s[0] == '{' && s[|s| - 1] == '}' && s[1..|s| - 1] == Inner(pad, elems)
  {
    BodyIsInner(pad, elems);
    Between("{", Inner(pad, elems), "}");
  }

  lemma Between(open: string, inner: string, close: string)
    requires |open| == 1 && |close| == 1
    ensures var s := open + (inner + close); |s| >= 2 && s[0] == open[0] && s[|s| - 1] == close[0] && s[1..|s| - 1] == inner
  {}

  lemma ObjGetRawIs(obj: string, s: string, inner: string, key: string)
    requires TrimBoth(IsWs, obj) == s && |s| >= 2 && s[0] == '{' && s[|s| - 1] == '}' && s[1..|s| - 1] == inner
    ensures ObjGetRaw(obj, key) == FindMember(TrimStart(inner), key)
  {}

  lemma InnerFound(pad: string, elems: Elems, key: string)
    requires ValueOk(Container(Obj, pad, elems))
    ensures FindMember(TrimStart(Inner(pad, elems)), key) == Span(Lookup(elems, key))
  {
    if elems.Nil? { PadIsNothing(pad); } else { MembersPrinted(elems, key); }
  }

  lemma ObjectTrims(before: string, pad: string, elems: Elems, after: string)
    requires Gap(before) && Gap(after)
    ensures TrimBoth(IsWs, before + Print(Container(Obj, pad, elems)) + after) == Print(Container(Obj, pad, elems))
  {
    ObjectPrints(pad, elems);
    TrimPadded(IsWs, before, Print(Container(Obj, pad, elems)), after);
  }

  /** `obj_get_raw` on any object the skipper accepts, and any that nests deeper: the exact
      span of the first member called `key`, and nothing for an absent key or past a member
      it cannot read. */
  lemma ObjGetRawPrinted(before: string, pad: string, elems: Elems, after: string, key: string)
    requires Gap(before) && Gap(after)
    requires ValueOk(Container(Obj, pad, elems))
    ensures ObjGetRaw(before + Print(Container(Obj, pad, elems)) + after, key) == Span(Lookup(elems, key))
  {
    var s := Print(Container(Obj, pad, elems));
    var inner := Inner(pad, elems);
    ObjectTrims(before, pad, elems, after);
    ObjectPrints(pad, elems);
    ObjGetRawIs(before + s + after, s, inner, key);
    InnerFound(pad, elems, key);
  }

  // ---- Strings, numbers, requests ----

  /** `as_str` on a printed value. */
  lemma AsStrPrinted(v: Value)
    requires ValueOk(v)
    ensures AsStr(Print(v)) ==
      if v.Token? then (if '\\' in v.raw then Err(EscapedString) else Ok(v.raw)) else Err(BadJson)
  {
    FirstByte(v);
    if v.Token? { AsStrToken(v.raw); } else { TrimKeepsFirst(Print(v)); }
  }

  lemma AsStrToken(raw: string)
    requires RawOk(raw)
    ensures AsStr("\"" + raw + "\"") == if '\\' in raw then Err(EscapedString) else Ok(raw)
  {
    var s := "\"" + raw + "\"";
    assert s == "" + s + "" == s + "";
    TrimPadded(IsWs, "", s, "");
    TakeToken(raw, "");
  }

  lemma TrimKeepsFirst(s: string)
    requires s != "" && !IsWs(s[0])
    ensures TrimBoth(IsWs, s) != "" && TrimBoth(IsWs, s)[0] == s[0]
  {
    var trail := BackIsPadding(IsWs, s);
    assert TrimBack(IsWs, s) == "" ==> trail == s;
  }

  function I64Text(n: int): string {
    if n < 0 then "-" + Digits(-n) else Digits(n)
  }

  lemma DigitsFit(n: nat)
    ensures ParseDigits(Digits(n), 19, I64_MAX) == if n <= I64_MAX then Some(n) else None
  {
    ValueOfDigits(n);
    DigitCount(n, 19);
    assert Pow10(7) == 10_000_000;
    assert Pow10(13) == 10_000_000_000_000;
    assert Pow10(19) == 10_000_000_000_000_000_000;
  }

  /** `parse_i64` inverts `put_i64` on every `i64` but the minimum, which it refuses. */
  lemma I64RoundTrip(n: int)
    ensures ParseI64(I64Text(n)) == if -I64_MAX <= n <= I64_MAX then Ok(n) else Err(BadNumber)
  {
    if n < 0 {
      DigitsFit(-n);
      assert I64Text(n)[1..] == Digits(-n);
    } else {
      DigitsFit(n);
      assert IsDigit(Digits(n)[0]);
    }
  }

  lemma NoMinus(s: string, n: int, width: nat)
    requires s != "" && s[0] == '-'
    ensures n >= 0 ==> !Spells(s, n, width)
  {
    if n >= 0 && Spells(s, n, width) {
      SpellsDigits(s, n, width);
      assert false;
    }
  }

  /** `parse_i64` accepts exactly at most 19 digits, zeros first or not, of a value below
      2^63, after a minus sign or none. */
  lemma ParseI64Iff(s: string, n: int)
    ensures ParseI64(s) == Ok(n) <==>
      || (0 <= n <= I64_MAX && Spells(s, n, 19))
      || (-I64_MAX <= n <= 0 && s != "" && s[0] == '-' && Spells(s[1..], -n, 19))
  {
    if s != "" && s[0] == '-' {
      if n <= 0 { ParseDigitsIff(s[1..], 19, I64_MAX, -n); }
      NoMinus(s, n, 19);
    } else if n >= 0 {
      ParseDigitsIff(s, 19, I64_MAX, n);
    }
  }

  // ---- Requests ----

  lemma ObjectSpanIs(body: string, t: string, rest: Result<string, McpError>)
    requires TrimBoth(IsWs, body) == t && t != "" && t[0] == '{' && Skip(t, 0) == rest
    requires rest.Ok? ==> rest.value == ""
    ensures ObjectSpan(body) == if rest.Err? then Err(rest.error) else Ok(t)
  {
    assert TrimBoth(IsWs, "") == "";
    assert t[..|t|] == t;
  }

  /** The span of a printed object alone in a body, refused only for its depth. */
  lemma ObjectSpanPrinted(before: string, pad: string, elems: Elems, after: string)
    requires Gap(before) && Gap(after) && ValueOk(Container(Obj, pad, elems))
    ensures var o := Container(Obj, pad, elems);
      ObjectSpan(before + Print(o) + after) == if Depth(o) > MAX_DEPTH then Err(TooDeep) else Ok(Print(o))
  {
    var o := Container(Obj, pad, elems);
    ObjectTrims(before, pad, elems, after);
    ObjectPrints(pad, elems);
    SkipPrinted(o, "", 0);
    assert Print(o) + "" == Print(o);
    ObjectSpanIs(before + Print(o) + after, Print(o), if Depth(o) > MAX_DEPTH then Err(TooDeep) else Ok(""));
  }

  /** `parse_request` on a printed object reads its first `jsonrpc`, `method`, `id` and
      `params` members, whatever else it holds. */
  lemma ParseRequestPrinted(before: string, pad: string, elems: Elems, after: string)
    requires Gap(before) && Gap(after)
    requires ValueOk(Container(Obj, pad, elems))
    ensures ParseRequest(before + Print(Container(Obj, pad, elems)) + after) ==
      if Depth(Container(Obj, pad, elems)) > MAX_DEPTH then Err(TooDeep)
      else RequestOf(Span(Lookup(elems, "jsonrpc")), Span(Lookup(elems, "method")),
                     Span(Lookup(elems, "id")), Span(Lookup(elems, "params")))
  {
    var s := Print(Container(Obj, pad, elems));
    ObjectSpanPrinted(before, pad, elems, after);
    if Depth(Container(Obj, pad, elems)) <= MAX_DEPTH {
      assert "" + s + "" == s;
      ObjGetRawPrinted("", pad, elems, "", "jsonrpc");
      ObjGetRawPrinted("", pad, elems, "", "method");
      ObjGetRawPrinted("", pad, elems, "", "id");
      ObjGetRawPrinted("", pad, elems, "", "params");
    }
  }

  /** A blank text trims to nothing, and only a blank one does. */
  lemma TrimsAway(s: string)
    requires TrimBoth(IsWs, s) == ""
    ensures Gap(s)
  {
    var lead, trail := TrimIsPadding(IsWs, s);
    assert s == lead + "" + trail;
  }

  /** What a trimmed value leaves, if blank, is nothing. */
  lemma NothingAfter(front: string, rest: string)
    requires Trimmed(IsWs, front + rest) && Gap(rest)
    ensures rest == ""
  {}

  /** Every body that is read as a request is an object of the accepted language, alone
      between whitespace; `parse_request` then reads what it prints. */
  lemma RequestWasPrinted(body: string) returns (before: string, pad: string, elems: Elems, after: string)
    requires ObjectSpan(body).Ok?
    ensures Gap(before) && Gap(after) && ValueOk(Container(Obj, pad, elems))
    ensures body == before + Print(Container(Obj, pad, elems)) + after && Depth(Container(Obj, pad, elems)) <= MAX_DEPTH
    ensures ParseRequest(body) ==
      RequestOf(Span(Lookup(elems, "jsonrpc")), Span(Lookup(elems, "method")), Span(Lookup(elems, "id")), Span(Lookup(elems, "params")))
  {
    before, after := TrimIsPadding(IsWs, body);
    var t := TrimBoth(IsWs, body);
    var rest := Skip(t, 0).value;
    var v := SkipWasPrinted(t, 0);
    TrimsAway(rest);
    NothingAfter(Print(v), rest);
    assert Print(v) + "" == Print(v);
    FirstByte(v);
    assert v.Container? && v.kind == Obj;
    pad, elems := v.pad, v.elems;
    ParseRequestPrinted(before, pad, elems, after);
  }

  /** How an id is written as a member, if it is. */
  function IdValue(id: Id): Option<Value> {
    match id
    case Int(n) => Some(Scalar(I64Text(n)))
    case Str(s) => Some(Token(s))
    case Null => Some(Scalar("null"))
    case Absent => None
  }

  /** Ids a peer may send: an `i64` other than the minimum, or an escape-free string. */
  predicate IdOk(id: Id) {
    && (id.Int? ==> -I64_MAX <= id.value <= I64_MAX)
    && (id.Str? ==> PlainText(id.text))
  }

  predicate PlainText(s: string) { RawOk(s) && '\\' !in s }

  lemma I64TextStarts(n: int)
    ensures I64Text(n) != "" && (I64Text(n)[0] == '-' || IsDigit(I64Text(n)[0]))
  {}

  lemma IdReads(id: Id)
    requires IdOk(id)
    ensures IdOf(Span(IdValue(id))) == Ok(id)
  {
    match id
    case Int(n) =>
      I64RoundTrip(n);
      I64TextStarts(n);
    case Str(s) => AsStrToken(s);
    case Null =>
    case Absent =>
  }

  /** A request printed in any layout, with any further members, parses to itself. */
  lemma RequestRoundTrip(before: string, pad: string, elems: Elems, after: string, id: Id, name: string)
    requires Gap(before) && Gap(after)
    requires ValueOk(Container(Obj, pad, elems)) && Depth(Container(Obj, pad, elems)) <= MAX_DEPTH
    requires Lookup(elems, "jsonrpc") == Some(Token("2.0")) && Lookup(elems, "method") == Some(Token(name)) && PlainText(name)
    requires Lookup(elems, "id") == IdValue(id) && IdOk(id)
    ensures ParseRequest(before + Print(Container(Obj, pad, elems)) + after) == Ok(RpcRequest(id, name, Span(Lookup(elems, "params"))))
  {
    RequestIff(before, pad, elems, after, RpcRequest(id, name, Span(Lookup(elems, "params"))));
    LookupOk(elems, "id");
    IdReads(id);
    IdReadsIff(Lookup(elems, "id"), id);
  }

  // ---- Which requests are accepted ----

  /** What an id member means: absent, null, an escape-free string, or an integer. */
  ghost predicate IdReadsAs(v: Option<Value>, id: Id) {
    match v
    case None => id == Absent
    case Some(Token(raw)) => '\\' !in raw && id == Str(raw)
    case Some(Scalar(text)) =>
      if text == "null" then id == Null
      else
        id.Int? && (|| (0 <= id.value <= I64_MAX && Spells(text, id.value, 19))
                    || (-I64_MAX <= id.value <= 0 && text != "" && text[0] == '-' && Spells(text[1..], -id.value, 19)))
    case Some(Container(_, _, _)) => false
  }

  lemma IdReadsIff(v: Option<Value>, id: Id)
    requires v.Some? ==> ValueOk(v.value)
    ensures IdOf(Span(v)) == Ok(id) <==> IdReadsAs(v, id)
  {
    match v
    case None =>
    case Some(Token(raw)) => TokenId(raw, id);
    case Some(Scalar(text)) => ScalarId(text, id);
    case Some(Container(_, _, _)) => ContainerIsNoNumber(v.value);
  }

  lemma TokenId(raw: string, id: Id)
    requires RawOk(raw)
    ensures IdOf(Some(Print(Token(raw)))) == Ok(id) <==> '\\' !in raw && id == Str(raw)
  {
    AsStrPrinted(Token(raw));
    assert Print(Token(raw))[0] == '"' && "null"[0] == 'n';
  }

  lemma ScalarId(text: string, id: Id)
    requires ScalarOk(text)
    ensures IdOf(Some(text)) == Ok(id) <==> IdReadsAs(Some(Scalar(text)), id)
  {
    if id.Int? { ParseI64Iff(text, id.value); }
  }

  lemma ContainerIsNoNumber(v: Value)
    requires v.Container?
    ensures Print(v) != "null" && Print(v) != "" && Print(v)[0] != '"' && ParseI64(Print(v)).Err?
  {
    assert Print(v)[0] == Open(v.kind) && !IsDigit(Open(v.kind));
  }

  /** The text a member must have: a string, free of escapes. */
  function StringOf(v: Option<Value>): Result<string, McpError> {
    match v
    case None => Err(BadRequest)
    case Some(Token(raw)) => if '\\' in raw then Err(EscapedString) else Ok(raw)
    case Some(_) => Err(BadJson)
  }

  lemma StringReads(v: Option<Value>)
    requires v.Some? ==> ValueOk(v.value)
    ensures RequiredStr(Span(v)) == StringOf(v)
  {
    if v.Some? { AsStrPrinted(v.value); }
  }

  lemma {:induction false} LookupOk(elems: Elems, key: string)
    requires ElemsOk(Obj, elems)
    ensures Lookup(elems, key).Some? ==> ValueOk(Lookup(elems, key).value)
    decreases elems
  {
    if elems.More? { LookupOk(elems.rest, key); }
  }

  /** A body is read as a request exactly when it nests within the cap, its `jsonrpc` is the
      string 2.0, its `method` an escape-free string, its `id` one that means the request's,
      and its `params` are exactly that span. */
  lemma RequestIff(before: string, pad: string, elems: Elems, after: string, r: RpcRequest)
    requires Gap(before) && Gap(after) && ValueOk(Container(Obj, pad, elems))
    ensures ParseRequest(before + Print(Container(Obj, pad, elems)) + after) == Ok(r) <==>
      && Depth(Container(Obj, pad, elems)) <= MAX_DEPTH
      && Lookup(elems, "jsonrpc") == Some(Token("2.0"))
      && Lookup(elems, "method") == Some(Token(r.name)) && '\\' !in r.name
      && IdReadsAs(Lookup(elems, "id"), r.id)
      && r.params == Span(Lookup(elems, "params"))
  {
    ParseRequestPrinted(before, pad, elems, after);
    MembersRead(elems, r.id);
    StringOfIff(Lookup(elems, "jsonrpc"), "2.0");
    StringOfIff(Lookup(elems, "method"), r.name);
    RequestOfIs(Span(Lookup(elems, "jsonrpc")), Span(Lookup(elems, "method")),
                Span(Lookup(elems, "id")), Span(Lookup(elems, "params")), r);
  }

  lemma StringOfIff(v: Option<Value>, s: string)
    ensures StringOf(v) == Ok(s) <==> v == Some(Token(s)) && '\\' !in s
  {}

  lemma RequestOfIs(version: Option<string>, name: Option<string>, id: Option<string>, params: Option<string>, r: RpcRequest)
    ensures RequestOf(version, name, id, params) == Ok(r) <==>
      RequiredStr(version) == Ok("2.0") && RequiredStr(name) == Ok(r.name) && IdOf(id) == Ok(r.id) && params == r.params
  {}

  lemma MembersRead(elems: Elems, id: Id)
    requires ElemsOk(Obj, elems)
    ensures RequiredStr(Span(Lookup(elems, "jsonrpc"))) == StringOf(Lookup(elems, "jsonrpc"))
    ensures RequiredStr(Span(Lookup(elems, "method"))) == StringOf(Lookup(elems, "method"))
    ensures IdOf(Span(Lookup(elems, "id"))) == Ok(id) <==> IdReadsAs(Lookup(elems, "id"), id)
  {
    LookupOk(elems, "jsonrpc");
    LookupOk(elems, "method");
    LookupOk(elems, "id");
    StringReads(Lookup(elems, "jsonrpc"));
    StringReads(Lookup(elems, "method"));
    IdReadsIff(Lookup(elems, "id"), id);
  }

  /** A body whose first byte past whitespace opens no object is no request. */
  lemma NotAnObject(before: string, text: string)
    requires Gap(before) && (text == "" || (text[0] != '{' && text[0] !in {' ', '\t', '\r', '\n'}))
    ensures ParseRequest(before + text) == Err(BadRequest)
  {
    TrimFrontIs(IsWs, before, text);
    if text != "" { TrimKeepsFirst(text); }
    assert text != "" ==> TrimFront(IsWs, text) == text;
  }

  /** The first thing wrong decides the refusal: a `jsonrpc` that is missing, no string or
      escaped; one of any other version; then the `method` alike. */
  lemma RequestRefusals(before: string, pad: string, elems: Elems, after: string)
    requires Gap(before) && Gap(after) && ValueOk(Container(Obj, pad, elems)) && Depth(Container(Obj, pad, elems)) <= MAX_DEPTH
    ensures var r := ParseRequest(before + Print(Container(Obj, pad, elems)) + after);
      var version, name := StringOf(Lookup(elems, "jsonrpc")), StringOf(Lookup(elems, "method"));
      && (version.Err? ==> r == Err(version.error))
      && (version.Ok? && version.value != "2.0" ==> r == Err(BadRequest))
      && (version == Ok("2.0") && name.Err? ==> r == Err(name.error))
  {
    ParseRequestPrinted(before, pad, elems, after);
    MembersRead(elems, Absent);
  }

  // ---- Responses ----

  function IdText(id: Id): string {
    match id
    case Int(n) => I64Text(n)
    case Str(s) => "\"" + s + "\""
    case _ => "null"
  }

  function Quoted(s: string): string { "\"" + s + "\"" }

  /** What `respond_result` writes, piece by piece. */
  function ResultPieces(id: Id, result: string): seq<string> {
    ["{" + (Quoted("jsonrpc") + ":" + Quoted("2.0")) + "," + (Quoted("id") + ":"), IdText(id),
     "," + (Quoted("result") + ":"), result, "}"]
  }

  /** The response as a value: an absent id is written as null. */
  function ResultMembers(id: Id, result: Value): Elems {
    var idValue := if id.Absent? then Scalar("null") else IdValue(id).value;
    More("", Key(Token("jsonrpc"), "", ""), Token("2.0"), "",
      More("", Key(Token("id"), "", ""), idValue, "",
        More("", Key(Token("result"), "", ""), result, "", Nil)))
  }

  lemma TightEntry(key: string, v: Value, rest: Elems)
    ensures Entry(More("", Key(Token(key), "", ""), v, "", rest)) == Quoted(key) + ":" + Print(v)
  {
    assert Print(Token(key)) == Quoted(key);
    assert Quoted(key) + ("" + (":" + ("" + Print(v)))) == Quoted(key) + ":" + Print(v);
  }

  lemma TightMember(key: string, v: Value, rest: Elems)
    ensures Body(Obj, "", More("", Key(Token(key), "", ""), v, "", rest))
         == (Quoted(key) + ":" + Print(v)) + (if rest.Nil? then "}" else "," + Body(Obj, "", rest))
  {
    TightEntry(key, v, rest);
    Unpadded(Quoted(key) + ":" + Print(v), Tail(Obj, rest));
    TailIs(rest);
  }

  lemma Unpadded(entry: string, tail: string)
    ensures "" + entry + ("" + tail) == entry + tail
  {}

  lemma TailIs(rest: Elems)
    ensures Tail(Obj, rest) == if rest.Nil? then "}" else "," + Body(Obj, "", rest)
  {}

  lemma RegroupResponse(open: string, a: string, comma: string, q2: string, idText: string, q3: string, result: string, close: string)
    ensures open + ((a) + (comma + ((q2 + idText) + (comma + ((q3 + result) + close)))))
         == (open + a + comma + q2) + (idText + ((comma + q3) + (result + (close + ""))))
  {}

  /** A response is a printed object. */
  lemma ResultIsPrinted(id: Id, result: Value)
    ensures Concat(ResultPieces(id, Print(result))) == Print(Container(Obj, "", ResultMembers(id, result)))
  {
    var idValue := if id.Absent? then Scalar("null") else IdValue(id).value;
    var last := More("", Key(Token("result"), "", ""), result, "", Nil);
    var middle := More("", Key(Token("id"), "", ""), idValue, "", last);
    assert Print(idValue) == IdText(id);
    TightMember("result", result, Nil);
    TightMember("id", idValue, last);
    TightMember("jsonrpc", Token("2.0"), middle);
    assert Print(Token("2.0")) == Quoted("2.0");
    ResultText(IdText(id), Print(result), Body(Obj, "", last), Body(Obj, "", middle), Body(Obj, "", ResultMembers(id, result)));
    ConcatOfFive("{" + (Quoted("jsonrpc") + ":" + Quoted("2.0")) + "," + (Quoted("id") + ":"), IdText(id),
                 "," + (Quoted("result") + ":"), Print(result), "}");
  }

  lemma ResultText(idText: string, result: string, last: string, middle: string, all: string)
    requires last == (Quoted("result") + ":" + result) + "}"
    requires middle == (Quoted("id") + ":" + idText) + ("," + last)
    requires all == (Quoted("jsonrpc") + ":" + Quoted("2.0")) + ("," + middle)
    ensures ("{" + (Quoted("jsonrpc") + ":" + Quoted("2.0")) + "," + (Quoted("id") + ":"))
            + (idText + (("," + (Quoted("result") + ":")) + (result + ("}" + "")))) == "{" + all
  {
    RegroupResponse("{", Quoted("jsonrpc") + ":" + Quoted("2.0"), ",", Quoted("id") + ":", idText, Quoted("result") + ":", result, "}");
  }

  lemma {:induction false} DigitsAreScalar(n: nat)
    ensures ScalarOk(Digits(n))
  {}

  lemma IdValueOk(id: Id)
    requires id.Str? ==> PlainText(id.text)
    ensures var v := if id.Absent? then Scalar("null") else IdValue(id).value; ValueOk(v) && Depth(v) == 0 && Print(v) == IdText(id)
  {
    if id.Int? { DigitsAreScalar(if id.value < 0 then -id.value else id.value); }
  }

  lemma ResultMembersOk(id: Id, result: Value)
    requires (id.Str? ==> PlainText(id.text)) && ValueOk(result) && Depth(result) <= MAX_DEPTH
    ensures ValueOk(Container(Obj, "", ResultMembers(id, result)))
  {
    IdValueOk(id);
    PlainWords();
    var idValue := if id.Absent? then Scalar("null") else IdValue(id).value;
    var last := More("", Key(Token("result"), "", ""), result, "", Nil);
    var middle := More("", Key(Token("id"), "", ""), idValue, "", last);
    TightOk("result", result, Nil);
    TightOk("id", idValue, last);
    TightOk("jsonrpc", Token("2.0"), middle);
  }

  lemma TightOk(key: string, v: Value, rest: Elems)
    requires PlainText(key) && ValueOk(v) && Depth(v) <= MAX_DEPTH && ElemsOk(Obj, rest)
    ensures var elems := More("", Key(Token(key), "", ""), v, "", rest); ElemsOk(Obj, elems) && Readable(elems)
  {}

  lemma PlainWords()
    ensures PlainText("jsonrpc") && PlainText("id") && PlainText("result") && PlainText("2.0")
  {
    RawWithoutQuotes("jsonrpc");
    RawWithoutQuotes("id");
    RawWithoutQuotes("result");
    RawWithoutQuotes("2.0");
  }

  lemma {:induction false} RawWithoutQuotes(s: string)
    requires '"' !in s && '\\' !in s
    ensures RawOk(s)
  {
    if s != "" { RawWithoutQuotes(s[1..]); }
  }

  /** A response reads back: the printed id and the exact span of the result, for any
      single result value, and the id itself unless it is the least `i64`. */
  lemma ResultReadsBack(id: Id, result: Value)
    requires (id.Str? ==> PlainText(id.text)) && ValueOk(result) && Depth(result) <= MAX_DEPTH
    ensures var text := Concat(ResultPieces(id, Print(result)));
      && ObjGetRaw(text, "jsonrpc") == Some(Quoted("2.0"))
      && ObjGetRaw(text, "id") == Some(IdText(id))
      && ObjGetRaw(text, "result") == Some(Print(result))
      && (id.Int? ==> ParseI64(IdText(id)) == if -I64_MAX <= id.value <= I64_MAX then Ok(id.value) else Err(BadNumber))
  {
    var elems := ResultMembers(id, result);
    var text := Print(Container(Obj, "", elems));
    ResultIsPrinted(id, result);
    ResultMembersOk(id, result);
    IdValueOk(id);
    assert "" + text + "" == text;
    ObjGetRawPrinted("", "", elems, "", "jsonrpc");
    ObjGetRawPrinted("", "", elems, "", "id");
    ObjGetRawPrinted("", "", elems, "", "result");
    ResultLookups(id, result);
    if id.Int? { I64RoundTrip(id.value); }
  }

  lemma ResultLookups(id: Id, result: Value)
    requires (id.Str? ==> PlainText(id.text)) && Depth(result) <= MAX_DEPTH
    ensures var elems := ResultMembers(id, result);
      && Lookup(elems, "jsonrpc") == Some(Token("2.0"))
      && Lookup(elems, "id") == Some(if id.Absent? then Scalar("null") else IdValue(id).value)
      && Lookup(elems, "result") == Some(result)
  {
    assert |"jsonrpc"| != |"id"| && |"jsonrpc"| != |"result"| && |"id"| != |"result"|;
    var elems := ResultMembers(id, result);
    IdValueOk(id);
    PlainWords();
    assert Readable(elems) && Readable(elems.rest) && Readable(elems.rest.rest);
    assert Lookup(elems, "result") == Lookup(elems.rest, "result") == Lookup(elems.rest.rest, "result");
    assert Lookup(elems, "id") == Lookup(elems.rest, "id");
  }
}
