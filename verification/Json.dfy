/** The JSON skipper and the JSON-RPC framing, as functions of the bytes. Each skipper
    gives back what follows the value it skips; a span's length is the difference. */
module Json {
  import opened Wrappers
  import opened Text

  const MAX_DEPTH: nat := 16
  const I64_MAX: int := 0x7FFF_FFFF_FFFF_FFFF

  datatype McpError = BadJson | TooDeep | BadRequest | EscapedString | BadNumber

  predicate IsWs(c: char) { c == ' ' || c == '\t' || c == '\r' || c == '\n' }

  function TrimStart(s: string): string { TrimFront(IsWs, s) }

  /** Where a number, `true`, `false` or `null` ends. */
  predicate IsDelimiter(c: char) { c == ',' || c == '}' || c == ']' || IsWs(c) }

  datatype Kind = Arr | Obj

  function Open(kind: Kind): char { if kind.Arr? then '[' else '{' }

  function Close(kind: Kind): char { if kind.Arr? then ']' else '}' }

  // ---- Skipping one value ----

  /** After the closing quote of a string, and whether it had escapes. */
  function SkipString(s: string, escaped: bool): (r: Result<(string, bool), McpError>)
    ensures r.Ok? ==> |r.value.0| < |s|
  {
    if s == "" then Err(BadJson)
    else if s[0] == '\\' then
      if |s| < 2 then Err(BadJson) else SkipString(s[2..], true)
    else if s[0] == '"' then Ok((s[1..], escaped))
    else SkipString(s[1..], escaped)
  }

  function SkipRun(s: string): (r: string)
    ensures |r| <= |s|
  {
    if s == "" || IsDelimiter(s[0]) then s else SkipRun(s[1..])
  }

  /** `value_len`: what follows the value at the start of `s`. */
  function Skip(s: string, depth: nat): (r: Result<string, McpError>)
    ensures r.Ok? ==> |r.value| < |s|
    decreases |s|, 0
  {
    if depth > MAX_DEPTH then Err(TooDeep)
    else if s == "" then Err(BadJson)
    else if s[0] == '"' then
      match SkipString(s[1..], false)
      case Err(e) => Err(e)
      case Ok((rest, _)) => Ok(rest)
    else if s[0] == '{' then Elements(Obj, s[1..], depth)
    else if s[0] == '[' then Elements(Arr, s[1..], depth)
    else
      var rest := SkipRun(s);
      if |rest| == |s| then Err(BadJson) else Ok(rest)
  }

  /** The elements of a container from here to its closing bracket. */
  function Elements(kind: Kind, s: string, depth: nat): (r: Result<string, McpError>)
    ensures r.Ok? ==> |r.value| < |s|
    decreases |s|, 3
  {
    Element(kind, TrimStart(s), depth)
  }

  /** The same once whitespace is skipped. */
  function Element(kind: Kind, t: string, depth: nat): (r: Result<string, McpError>)
    ensures r.Ok? ==> |r.value| < |t|
    decreases |t|, 2
  {
    if t == "" then Err(BadJson)
    else if t[0] == Close(kind) then Ok(t[1..])
    else
      match SkipKey(kind, t, depth)
      case Err(e) => Err(e)
      case Ok(value) =>
        match Skip(value, depth + 1)
        case Err(e) => Err(e)
        case Ok(after) =>
          var u := TrimStart(after);
          if u == "" then Err(BadJson)
          else if u[0] == ',' then Elements(kind, TrimStart(u[1..]), depth)
          else if u[0] == Close(kind) then Ok(u[1..])
          else Err(BadJson)
  }

  /** Past the key and colon of an object's member; nothing for an array's element. */
  function SkipKey(kind: Kind, s: string, depth: nat): (r: Result<string, McpError>)
    requires s != ""
    ensures r.Ok? ==> |r.value| <= |s|
    decreases |s|, 1
  {
    if kind.Arr? then Ok(s)
    else
      match Skip(s, depth + 1)
      case Err(e) => Err(e)
      case Ok(after) =>
        var u := TrimStart(after);
        if u == "" || u[0] != ':' then Err(BadJson) else Ok(TrimStart(u[1..]))
  }

  // ---- Strings and numbers ----

  /** The contents of the escape-free string at the start of `s`, and what follows it. */
  function TakeString(s: string): (r: Result<(string, string), McpError>)
    ensures r.Ok? ==> |r.value.1| < |s|
  {
    if s == "" || s[0] != '"' then Err(BadJson)
    else
      match SkipString(s[1..], false)
      case Err(e) => Err(e)
      case Ok((rest, escaped)) =>
        if escaped then Err(EscapedString) else Ok((s[1..|s| - |rest| - 1], rest))
  }

  function AsStr(raw: string): Result<string, McpError> {
    match TakeString(TrimBoth(IsWs, raw))
    case Err(e) => Err(e)
    case Ok((text, rest)) => if TrimBoth(IsWs, rest) != "" then Err(BadJson) else Ok(text)
  }

  function ParseI64(s: string): Result<int, McpError> {
    var negative := s != "" && s[0] == '-';
    match ParseDigits(if negative then s[1..] else s, 19, I64_MAX)
    case None => Err(BadNumber)
    case Some(n) =>
      var value: int := n;
      Ok(if negative then -value else value)
  }

  // ---- Objects ----

  /** The raw span of the first member called `key`, from the members that start here. */
  function FindMember(s: string, key: string): Option<string>
    decreases |s|
  {
    if s == "" then None
    else
      match TakeString(s)
      case Err(_) => None
      case Ok((name, afterName)) =>
        var colon := TrimStart(afterName);
        if colon == "" || colon[0] != ':' then None
        else
          var value := TrimStart(colon[1..]);
          match Skip(value, 0)
          case Err(_) => None
          case Ok(after) =>
            if name == key then Some(value[..|value| - |after|])
            else
              var u := TrimStart(after);
              if u != "" && u[0] == ',' then FindMember(TrimStart(u[1..]), key) else None
  }

  /** `obj_get_raw`. */
  function ObjGetRaw(obj: string, key: string): Option<string> {
    var s := TrimBoth(IsWs, obj);
    if |s| < 2 || s[0] != '{' || s[|s| - 1] != '}' then None
    else FindMember(TrimStart(s[1..|s| - 1]), key)
  }

  // ---- Requests ----

  datatype Id = Int(value: int) | Str(text: string) | Null | Absent

  datatype RpcRequest = RpcRequest(id: Id, name: string, params: Option<string>)

  /** The top-level object, alone in the body. */
  function ObjectSpan(body: string): Result<string, McpError> {
    var t := TrimBoth(IsWs, body);
    if t == "" || t[0] != '{' then Err(BadRequest)
    else
      match Skip(t, 0)
      case Err(e) => Err(e)
      case Ok(rest) => if TrimBoth(IsWs, rest) != "" then Err(BadJson) else Ok(t[..|t| - |rest|])
  }

  function RequiredStr(raw: Option<string>): Result<string, McpError> {
    if raw.None? then Err(BadRequest) else AsStr(raw.value)
  }

  function IdOf(raw: Option<string>): Result<Id, McpError> {
    match raw
    case None => Ok(Absent)
    case Some(text) =>
      if text == "null" then Ok(Null)
      else if text != "" && text[0] == '"' then
        match AsStr(text) case Err(e) => Err(e) case Ok(s) => Ok(Str(s))
      else
        match ParseI64(text) case Err(e) => Err(e) case Ok(n) => Ok(Int(n))
  }

  /** The request once its four members are found. */
  function RequestOf(version: Option<string>, name: Option<string>, id: Option<string>, params: Option<string>)
    : Result<RpcRequest, McpError> {
    match RequiredStr(version)
    case Err(e) => Err(e)
    case Ok(v) =>
      if v != "2.0" then Err(BadRequest)
      else
        match RequiredStr(name)
        case Err(e) => Err(e)
        case Ok(n) =>
          match IdOf(id)
          case Err(e) => Err(e)
          case Ok(i) => Ok(RpcRequest(i, n, params))
  }

  /** `parse_request`. */
  function ParseRequest(body: string): Result<RpcRequest, McpError> {
    match ObjectSpan(body)
    case Err(e) => Err(e)
    case Ok(obj) =>
      RequestOf(ObjGetRaw(obj, "jsonrpc"), ObjGetRaw(obj, "method"), ObjGetRaw(obj, "id"), ObjGetRaw(obj, "params"))
  }
}
