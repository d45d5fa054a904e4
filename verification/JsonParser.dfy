/** The index loops of the JSON skipper, the lookups over them, and the response writer. */
module JsonParser {
  import opened Wrappers
  import opened Text
  import opened Json
  import opened JsonPrint
  import opened JsonObjects
  import opened Output
  import opened Sequences

  /** How many whitespace bytes start `s` at `i`. */
  method SkipWs(s: string, i: nat) returns (j: nat)
    requires i <= |s|
    ensures i <= j <= |s| && TrimStart(s[i..]) == s[j..] && (j < |s| ==> !IsWs(s[j]))
  {
    j := i;
    while j < |s| && IsWs(s[j])
      invariant i <= j <= |s| && TrimStart(s[j..]) == TrimStart(s[i..])
    {
      assert s[j..][1..] == s[j + 1..];
      j := j + 1;
    }
    assert TrimStart(s[j..]) == s[j..];
  }

  /** `string_end`: from the opening quote past the closing one. */
  method StringEnd(s: string) returns (r: Result<(nat, bool), McpError>)
    requires s != ""
    ensures r.Err? ==> SkipString(s[1..], false) == Err(r.error)
    ensures r.Ok? ==> 2 <= r.value.0 <= |s| && SkipString(s[1..], false) == Ok((s[r.value.0..], r.value.1))
  {
    var i, escaped := 1, false;
    while i < |s|
      invariant 1 <= i <= |s| + 1
      invariant i <= |s| ==> SkipString(s[i..], escaped) == SkipString(s[1..], false)
      invariant i > |s| ==> SkipString(s[1..], false) == Err(BadJson)
    {
      assert s[i..][1..] == s[i + 1..];
      if s[i] == '\\' {
        if i + 2 <= |s| { assert s[i..][2..] == s[i + 2..]; }
        escaped := true;
        i := i + 2;
      } else if s[i] == '"' {
        return Ok((i + 1, escaped));
      } else {
        i := i + 1;
      }
    }
    return Err(BadJson);
  }

  /** The end of a number or a literal. */
  method RunEnd(s: string) returns (i: nat)
    ensures i <= |s| && SkipRun(s) == s[i..]
  {
    i := 0;
    while i < |s| && !IsDelimiter(s[i])
      invariant i <= |s| && SkipRun(s[i..]) == SkipRun(s)
    {
      assert s[i..][1..] == s[i + 1..];
      i := i + 1;
    }
  }

  /** What a length says about a skip. */
  ghost predicate Agrees(s: string, r: Result<nat, McpError>, skip: Result<string, McpError>) {
    match r
    case Err(e) => skip == Err(e)
    case Ok(n) => n <= |s| && skip == Ok(s[n..])
  }

  /** `value_len`. */
  method ValueLen(s: string, depth: nat) returns (r: Result<nat, McpError>)
    ensures Agrees(s, r, Skip(s, depth))
    decreases |s|, 0
  {
    if depth > MAX_DEPTH { return Err(TooDeep); }
    if s == "" { return Err(BadJson); }
    if s[0] == '"' {
      var end := StringEnd(s);
      return match end case Err(e) => Err(e) case Ok((n, _)) => Ok(n);
    }
    if s[0] == '{' {
      r := ContainerLen(Obj, s, depth);
    } else if s[0] == '[' {
      r := ContainerLen(Arr, s, depth);
    } else {
      var i := RunEnd(s);
      return if i == 0 then Err(BadJson) else Ok(i);
    }
  }

  /** One turn of the container loop: past the closing bracket, at the next element, or refused. */
  datatype Turn = Closed(end: nat) | NextAt(i: nat) | Refused(error: McpError)

  ghost predicate TurnAgrees(s: string, start: nat, turn: Turn, kind: Kind, depth: nat, skip: Result<string, McpError>) {
    match turn
    case Refused(e) => skip == Err(e)
    case Closed(end) => end <= |s| && skip == Ok(s[end..])
    case NextAt(i) => start < i <= |s| && skip == Elements(kind, s[i..], depth)
  }

  /** The container loop: an index moves from element to element. */
  method ContainerLen(kind: Kind, s: string, depth: nat) returns (r: Result<nat, McpError>)
    requires s != ""
    ensures Agrees(s, r, Elements(kind, s[1..], depth))
    decreases |s| - 1, 3
  {
    var i := 1;
    while true
      invariant 1 <= i <= |s| && Elements(kind, s[i..], depth) == Elements(kind, s[1..], depth)
      decreases |s| - i
    {
      var turn := OneElement(kind, s, i, depth);
      match turn
      case Refused(e) => return Err(e);
      case Closed(end) => return Ok(end);
      case NextAt(next) => i := next;
    }
  }

  method OneElement(kind: Kind, s: string, start: nat, depth: nat) returns (turn: Turn)
    requires 1 <= start <= |s|
    ensures TurnAgrees(s, start, turn, kind, depth, Elements(kind, s[start..], depth))
    decreases |s| - start, 2
  {
    var i := SkipWs(s, start);
    if i == |s| { return Refused(BadJson); }
    if s[i] == Close(kind) {
      DropDrop(s, i, 1);
      return Closed(i + 1);
    }
    var value := KeyLen(kind, s, i, depth);
    if value.Err? { return Refused(value.error); }
    var n := ValueLen(s[value.value..], depth + 1);
    if n.Err? { return Refused(n.error); }
    DropDrop(s, value.value, n.value);
    turn := AfterElement(kind, s, i, value.value, value.value + n.value, depth);
  }

  method AfterElement(kind: Kind, s: string, start: nat, value: nat, after: nat, depth: nat) returns (turn: Turn)
    requires 1 <= start < |s| && start <= value <= after <= |s| && s[start] != Close(kind)
    requires SkipKey(kind, s[start..], depth) == Ok(s[value..]) && Skip(s[value..], depth + 1) == Ok(s[after..])
    ensures TurnAgrees(s, start, turn, kind, depth, Element(kind, s[start..], depth))
  {
    var i := SkipWs(s, after);
    if i == |s| { return Refused(BadJson); }
    ElementStep(kind, depth, s[start..], s[value..], s[after..], s[i..]);
    DropDrop(s, i, 1);
    if s[i] == Close(kind) { return Closed(i + 1); }
    if s[i] != ',' { return Refused(BadJson); }
    i := SkipWs(s, i + 1);
    return NextAt(i);
  }

  /** Past a member's key and colon. */
  method KeyLen(kind: Kind, s: string, start: nat, depth: nat) returns (r: Result<nat, McpError>)
    requires 1 <= start < |s|
    ensures r.Err? ==> SkipKey(kind, s[start..], depth) == Err(r.error)
    ensures r.Ok? ==> start <= r.value <= |s| && SkipKey(kind, s[start..], depth) == Ok(s[r.value..])
    decreases |s| - start, 1
  {
    if kind.Arr? { return Ok(start); }
    var n := ValueLen(s[start..], depth + 1);
    if n.Err? { return Err(n.error); }
    DropDrop(s, start, n.value);
    var i := SkipWs(s, start + n.value);
    if i == |s| || s[i] != ':' { return Err(BadJson); }
    i := SkipWs(s, i + 1);
    return Ok(i);
  }

  // ---- Lookups ----

  method TakeText(s: string) returns (r: Result<(string, string), McpError>)
    ensures r == TakeString(s)
  {
    if s == "" || s[0] != '"' { return Err(BadJson); }
    var end := StringEnd(s);
    if end.Err? { return Err(end.error); }
    var (n, escaped) := end.value;
    return if escaped then Err(EscapedString) else Ok((s[1..n - 1], s[n..]));
  }

  method TrimLeft(s: string) returns (r: string)
    ensures r == TrimStart(s)
  {
    var i := SkipWs(s, 0);
    assert s[0..] == s;
    return s[i..];
  }

  /** `obj_get_raw`: the member loop consumes the object from the front. */
  method GetRaw(obj: string, key: string) returns (r: Option<string>)
    ensures r == ObjGetRaw(obj, key)
  {
    var s := Trim(IsWs, obj);
    if |s| < 2 || s[0] != '{' || s[|s| - 1] != '}' { return None; }
    var inner := TrimLeft(s[1..|s| - 1]);
    r := FindIn(inner, key);
  }

  method FindIn(members: string, key: string) returns (r: Option<string>)
    ensures r == FindMember(members, key)
  {
    var s := members;
    while s != ""
      invariant FindMember(s, key) == FindMember(members, key)
      decreases |s|
    {
      var name := TakeText(s);
      if name.Err? { return None; }
      var colon := TrimLeft(name.value.1);
      if colon == "" || colon[0] != ':' { return None; }
      var value := TrimLeft(colon[1..]);
      var n := ValueLen(value, 0);
      if n.Err? { return None; }
      var after := value[n.value..];
      FindStep(s, name.value.0, name.value.1, value, after, key);
      if name.value.0 == key { return Some(value[..n.value]); }
      var u := TrimLeft(after);
      if u == "" || u[0] != ',' { return None; }
      s := TrimLeft(u[1..]);
    }
    return None;
  }

  method ReadStr(raw: string) returns (r: Result<string, McpError>)
    ensures r == AsStr(raw)
  {
    var s := Trim(IsWs, raw);
    var text := TakeText(s);
    if text.Err? { return Err(text.error); }
    var rest := Trim(IsWs, text.value.1);
    return if rest != "" then Err(BadJson) else Ok(text.value.0);
  }

  method ReadI64(s: string) returns (r: Result<int, McpError>)
    ensures r == ParseI64(s)
  {
    var negative := s != "" && s[0] == '-';
    var n := ReadDigits(if negative then s[1..] else s, 19, I64_MAX);
    if n.None? { return Err(BadNumber); }
    var value: int := n.value;
    return Ok(if negative then -value else value);
  }

  /** The top-level object, alone in the body. */
  method ReadObject(body: string) returns (r: Result<string, McpError>)
    ensures r == ObjectSpan(body)
  {
    var t := Trim(IsWs, body);
    if t == "" || t[0] != '{' { return Err(BadRequest); }
    var n := ValueLen(t, 0);
    if n.Err? { return Err(n.error); }
    var rest := Trim(IsWs, t[n.value..]);
    return if rest != "" then Err(BadJson) else Ok(t[..n.value]);
  }

  method ReadId(raw: Option<string>) returns (r: Result<Id, McpError>)
    ensures r == IdOf(raw)
  {
    if raw.None? { return Ok(Absent); }
    if raw.value == "null" { return Ok(Null); }
    if raw.value != "" && raw.value[0] == '"' {
      var s := ReadStr(raw.value);
      return match s case Err(e) => Err(e) case Ok(text) => Ok(Str(text));
    }
    var n := ReadI64(raw.value);
    return match n case Err(e) => Err(e) case Ok(value) => Ok(Int(value));
  }

  method ReadRequired(raw: Option<string>) returns (r: Result<string, McpError>)
    ensures r == RequiredStr(raw)
  {
    if raw.None? { return Err(BadRequest); }
    r := ReadStr(raw.value);
  }

  /** `parse_request`. */
  method ReadRequest(body: string) returns (r: Result<RpcRequest, McpError>)
    ensures r == ParseRequest(body)
  {
    var obj := ReadObject(body);
    if obj.Err? { return Err(obj.error); }
    var version := GetRaw(obj.value, "jsonrpc");
    var name := GetRaw(obj.value, "method");
    var id := GetRaw(obj.value, "id");
    var params := GetRaw(obj.value, "params");
    r := ReadMembers(version, name, id, params);
  }

  method ReadMembers(version: Option<string>, name: Option<string>, id: Option<string>, params: Option<string>)
    returns (r: Result<RpcRequest, McpError>)
    ensures r == RequestOf(version, name, id, params)
  {
    var v := ReadRequired(version);
    if v.Err? { return Err(v.error); }
    if v.value != "2.0" { return Err(BadRequest); }
    var n := ReadRequired(name);
    if n.Err? { return Err(n.error); }
    var i := ReadId(id);
    if i.Err? { return Err(i.error); }
    return Ok(RpcRequest(i.value, n.value, params));
  }

  method PrintI64(n: int) returns (s: string)
    ensures s == I64Text(n)
  {
    s := PrintDecimal(if n < 0 then -n else n);
    if n < 0 { s := "-" + s; }
  }

  /** `respond_result`: the whole response, or a refusal exactly when it does not fit. */
  method RespondResult(out: array<char>, id: Id, result: string) returns (r: Option<nat>)
    modifies out
    ensures var text := Concat(ResultPieces(id, result));
      && r == (if |text| <= out.Length then Some(|text|) else None)
      && (r.Some? ==> out[..r.value] == text)
  {
    var w := new Writer(out);
    var idText := "null";
    if id.Int? { idText := PrintI64(id.value); }
    if id.Str? { idText := Quoted(id.text); }
    var ok := w.PutAll([
      "{" + (Quoted("jsonrpc") + ":" + Quoted("2.0")) + "," + (Quoted("id") + ":"),
      idText, "," + (Quoted("result") + ":"), result, "}"]);
    return if ok then Some(w.len) else None;
  }
}
