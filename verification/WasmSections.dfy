/** The WebAssembly section walker (sections 5.5.2 and 5.5.3 of the core specification):
    it finds the first custom section of a name in any well-formed module. */
module WasmSections {
  import opened Wrappers
  import opened Bytes
  import opened Leb128
  import opened Sequences

  datatype ManifestError = Missing | Short | BadMagic | UnsupportedAbiVersion | UnknownKind | UnknownSig

  /** What a search found: a payload, nothing, or an ill-formed module. */
  type Search = Result<Option<seq<byte>>, ManifestError>

  function Preamble(): (r: seq<byte>)
    ensures |r| == 8
  {
    [0x00, 0x61, 0x73, 0x6D, 0x01, 0x00, 0x00, 0x00]
  }

  /** One section at the front of `s`: its id, its contents, and what follows. */
  datatype Cut = Cut(id: byte, size: nat, tail: seq<byte>)

  function CutSection(s: seq<byte>): (r: Result<Cut, ManifestError>)
    requires s != []
    ensures r.Ok? ==> r.value.size <= |r.value.tail| < |s|
  {
    match ReadLeb(s[1..])
    case Err(_) => Err(Short)
    case Ok((size, used)) =>
      var tail := s[1 + used..];
      if size > |tail| then Err(Short) else Ok(Cut(s[0], size, tail))
  }

  /** What a custom section holds after its name, when that is `target`. The name's length
      is read where the section starts, and may not run past where the section ends. */
  function CustomPayload(tail: seq<byte>, size: nat, target: seq<byte>): Search
    requires size <= |tail|
  {
    match ReadLeb(tail)
    case Err(_) => Err(Short)
    case Ok((length, used)) =>
      var end := used + length;
      if end > size then Err(Short)
      else if tail[used..end] == target then Ok(Some(tail[end..size]))
      else Ok(None)
  }

  /** What one section's name check finds. */
  function Found(c: Cut, target: seq<byte>): Search
    requires c.size <= |c.tail|
  {
    if c.id == 0 then CustomPayload(c.tail, c.size, target) else Ok(None)
  }

  /** The sections of `s` in order. */
  function Walk(s: seq<byte>, target: seq<byte>): Search
    decreases |s|
  {
    if s == [] then Ok(None)
    else
      match CutSection(s)
      case Err(e) => Err(e)
      case Ok(c) =>
        var found := Found(c, target);
        if found == Ok(None) then Walk(c.tail[c.size..], target) else found
  }

  /** `find_section_payload`. */
  function FindSection(wasm: seq<byte>, target: seq<byte>): Search {
    if |wasm| < 8 then Err(Short)
    else if wasm[..8] != Preamble() then Err(Missing)
    else Walk(wasm[8..], target)
  }

  // ---- Modules ----

  /** A section with the LEB128 spelling of its sizes, padded or not. */
  datatype Section =
    | Custom(sizeLeb: seq<byte>, nameLeb: seq<byte>, name: seq<byte>, payload: seq<byte>)
    | Standard(id: byte, sizeLeb: seq<byte>, body: seq<byte>)

  function Content(sec: Section): seq<byte> {
    match sec
    case Custom(_, nameLeb, name, payload) => nameLeb + (name + payload)
    case Standard(_, _, body) => body
  }

  function IdOf(sec: Section): byte { if sec.Custom? then 0 else sec.id }

  /** A section the walker passes over or finds: its sizes are read as they are. */
  predicate SectionOk(sec: Section) {
    && ReadsAsWord(sec.sizeLeb, |Content(sec)|)
    && (sec.Custom? ==> ReadsAsWord(sec.nameLeb, |sec.name|))
    && (sec.Standard? ==> sec.id != 0)
  }

  function SectionBytes(sec: Section): seq<byte> {
    [IdOf(sec)] + (sec.sizeLeb + Content(sec))
  }

  function SectionsBytes(secs: seq<Section>): seq<byte> {
    if secs == [] then [] else SectionBytes(secs[0]) + SectionsBytes(secs[1..])
  }

  function ModuleBytes(secs: seq<Section>): seq<byte> { Preamble() + SectionsBytes(secs) }

  /** The payload of the first custom section called `target`. */
  function FirstNamed(secs: seq<Section>, target: seq<byte>): Option<seq<byte>> {
    if secs == [] then None
    else if secs[0].Custom? && secs[0].name == target then Some(secs[0].payload)
    else FirstNamed(secs[1..], target)
  }

  // ---- The walk over a printed module ----

  lemma CutParts(id: byte, leb: seq<byte>, n: nat, tail: seq<byte>)
    requires ReadsAsWord(leb, n) && n <= |tail|
    ensures CutSection([id] + (leb + tail)) == Ok(Cut(id, n, tail))
  {
    var s := [id] + (leb + tail);
    assert s[1..] == leb + tail;
    ReadWord(leb, n, tail);
    assert s[1 + |leb|..] == tail;
  }

  lemma CutPrinted(sec: Section, rest: seq<byte>)
    requires SectionOk(sec)
    ensures CutSection(SectionBytes(sec) + rest) == Ok(Cut(IdOf(sec), |Content(sec)|, Content(sec) + rest))
  {
    var content := Content(sec);
    CutParts(IdOf(sec), sec.sizeLeb, |content|, content + rest);
    Reassociate(IdOf(sec), sec.sizeLeb, content, rest);
  }

  lemma Reassociate(id: byte, leb: seq<byte>, content: seq<byte>, rest: seq<byte>)
    ensures [id] + (leb + content) + rest == [id] + (leb + (content + rest))
  {}

  lemma PayloadPrinted(leb: seq<byte>, name: seq<byte>, payload: seq<byte>, rest: seq<byte>, target: seq<byte>)
    requires ReadsAsWord(leb, |name|)
    ensures CustomPayload(leb + (name + payload) + rest, |leb + (name + payload)|, target)
         == Ok(if name == target then Some(payload) else None)
  {
    var tail, used, n := leb + (name + payload) + rest, |leb|, |name|;
    assert tail == leb + (name + payload + rest);
    ReadWord(leb, n, name + payload + rest);
    assert tail[used..used + n] == name;
    assert tail[used + n..used + n + |payload|] == payload;
  }

  lemma WalkStep(s: seq<byte>, c: Cut, rest: seq<byte>, found: Search, target: seq<byte>)
    requires s != [] && CutSection(s) == Ok(c) && c.size <= |c.tail| && c.tail[c.size..] == rest && Found(c, target) == found
    ensures Walk(s, target) == if found == Ok(None) then Walk(rest, target) else found
  {}

  ghost predicate AllOk(secs: seq<Section>) { forall i :: 0 <= i < |secs| ==> SectionOk(secs[i]) }

  predicate IsTarget(sec: Section, target: seq<byte>) { sec.Custom? && sec.name == target }

  /** What a section contributes to the walk. */
  function FoundIn(sec: Section, target: seq<byte>): Search {
    Ok(if IsTarget(sec, target) then Some(sec.payload) else None)
  }

  /** One section at the front, whatever follows. */
  lemma SectionWalks(sec: Section, rest: seq<byte>, target: seq<byte>)
    requires SectionOk(sec)
    ensures Walk(SectionBytes(sec) + rest, target) == if IsTarget(sec, target) then FoundIn(sec, target) else Walk(rest, target)
  {
    CutPrinted(sec, rest);
    if sec.Custom? { PayloadPrinted(sec.nameLeb, sec.name, sec.payload, rest, target); }
    assert (Content(sec) + rest)[|Content(sec)|..] == rest;
    WalkStep(SectionBytes(sec) + rest, Cut(IdOf(sec), |Content(sec)|, Content(sec) + rest), rest, FoundIn(sec, target), target);
  }

  /** Over whole sections the walk finds the first of the name, or goes on after them. */
  lemma {:induction false} WalkPrinted(secs: seq<Section>, rest: seq<byte>, target: seq<byte>)
    requires AllOk(secs)
    ensures Walk(SectionsBytes(secs) + rest, target) ==
      if FirstNamed(secs, target).Some? then Ok(FirstNamed(secs, target)) else Walk(rest, target)
  {
    if secs == [] { assert SectionsBytes(secs) + rest == rest; }
    else {
      var more := SectionsBytes(secs[1..]);
      Regroup(SectionBytes(secs[0]), more, rest);
      SectionWalks(secs[0], more + rest, target);
      WalkPrinted(secs[1..], rest, target);
    }
  }

  lemma FindAfterPreamble(body: seq<byte>, target: seq<byte>)
    ensures FindSection(Preamble() + body, target) == Walk(body, target)
  {
    assert (Preamble() + body)[..8] == Preamble() && (Preamble() + body)[8..] == body;
  }

  /** In any well-formed module, exactly the first custom section of the name is found. */
  lemma FindSectionPrinted(secs: seq<Section>, target: seq<byte>)
    requires AllOk(secs)
    ensures FindSection(ModuleBytes(secs), target) == Ok(FirstNamed(secs, target))
  {
    FindAfterPreamble(SectionsBytes(secs), target);
    assert SectionsBytes(secs) + [] == SectionsBytes(secs);
    WalkPrinted(secs, [], target);
  }

  // ---- What is found was there ----

  /** The section that a cut took. */
  lemma CutWas(s: seq<byte>, target: seq<byte>) returns (sec: Section, rest: seq<byte>)
    requires s != [] && CutSection(s).Ok? && Found(CutSection(s).value, target).Ok?
    ensures SectionOk(sec) && s == SectionBytes(sec) + rest && |rest| < |s|
  {
    var c := CutSection(s).value;
    var leb := CutShape(s);
    var content := c.tail[..c.size];
    rest := c.tail[c.size..];
    assert c.tail == content + rest;
    sec := if c.id == 0 then CustomWas(c.tail, c.size, leb, target) else Standard(c.id, leb, content);
    Reassociate(c.id, leb, content, rest);
  }

  lemma CutShape(s: seq<byte>) returns (leb: seq<byte>)
    requires s != [] && CutSection(s).Ok?
    ensures var c := CutSection(s).value;
      c.id == s[0] && ReadsAsWord(leb, c.size) && s == [c.id] + (leb + c.tail)
  {
    var used := ReadLeb(s[1..]).value.1;
    ReadWasEncoded(s[1..]);
    leb := s[1..][..used];
    HeadMiddleTail(s, used);
  }

  lemma HeadMiddleTail(s: seq<byte>, used: nat)
    requires 1 + used <= |s|
    ensures s == [s[0]] + (s[1..][..used] + s[1 + used..])
  {}

  function CustomWas(tail: seq<byte>, n: nat, leb: seq<byte>, target: seq<byte>): (sec: Section)
    requires n <= |tail| && CustomPayload(tail, n, target).Ok? && ReadsAsWord(leb, n)
    ensures sec.Custom? && sec.sizeLeb == leb && SectionOk(sec) && Content(sec) == tail[..n]
  {
    var (length, used) := ReadLeb(tail).value;
    ReadWasEncoded(tail);
    var end := used + length;
    assert tail[..used] + (tail[used..end] + tail[end..n]) == tail[..n];
    Custom(leb, tail[..used], tail[used..end], tail[end..n])
  }

  /** Sections none of which is called `target`, then the one that is found. */
  ghost predicate EndsAtTarget(secs: seq<Section>, target: seq<byte>, payload: seq<byte>) {
    && secs != [] && FirstNamed(secs[..|secs| - 1], target) == None
    && IsTarget(secs[|secs| - 1], target) && secs[|secs| - 1].payload == payload
  }

  lemma OneSection(sec: Section, target: seq<byte>)
    requires SectionOk(sec) && IsTarget(sec, target)
    ensures AllOk([sec]) && SectionsBytes([sec]) == SectionBytes(sec) && EndsAtTarget([sec], target, sec.payload)
  {
    assert [sec][1..] == [] && [sec][..0] == [];
    assert SectionBytes(sec) + [] == SectionBytes(sec);
  }

  lemma SectionBefore(sec: Section, more: seq<Section>, rest: seq<byte>, target: seq<byte>)
    requires SectionOk(sec) && AllOk(more) && !IsTarget(sec, target)
    ensures AllOk([sec] + more) && SectionsBytes([sec] + more) + rest == SectionBytes(sec) + (SectionsBytes(more) + rest)
    ensures FirstNamed([sec] + more, target) == FirstNamed(more, target)
    ensures forall payload :: EndsAtTarget(more, target, payload) ==> EndsAtTarget([sec] + more, target, payload)
  {
    var secs := [sec] + more;
    assert secs[1..] == more && secs[0] == sec;
    Regroup(SectionBytes(sec), SectionsBytes(more), rest);
    forall payload | EndsAtTarget(more, target, payload) ensures EndsAtTarget(secs, target, payload) {
      EndsLater(sec, more, target, payload);
    }
  }

  lemma EndsLater(sec: Section, more: seq<Section>, target: seq<byte>, payload: seq<byte>)
    requires EndsAtTarget(more, target, payload) && !IsTarget(sec, target)
    ensures EndsAtTarget([sec] + more, target, payload)
  {
    var secs, front := [sec] + more, more[..|more| - 1];
    assert secs[..|secs| - 1] == [sec] + front && ([sec] + front)[1..] == front;
  }

  /** A completed walk went over whole sections: all of them, or up to the first of the name. */
  lemma {:induction false} WalkWas(s: seq<byte>, target: seq<byte>) returns (secs: seq<Section>, rest: seq<byte>)
    requires Walk(s, target).Ok?
    ensures AllOk(secs) && s == SectionsBytes(secs) + rest
    ensures match Walk(s, target).value
      case None => rest == [] && FirstNamed(secs, target) == None
      case Some(payload) => EndsAtTarget(secs, target, payload)
    decreases |s|
  {
    if s == [] {
      secs, rest := [], [];
    } else {
      var sec, after := CutWas(s, target);
      SectionWalks(sec, after, target);
      if IsTarget(sec, target) {
        secs, rest := [sec], after;
        OneSection(sec, target);
      } else {
        var more;
        more, rest := WalkWas(after, target);
        SectionBefore(sec, more, rest, target);
        secs := [sec] + more;
      }
    }
  }

  lemma {:induction false} FirstIsLast(secs: seq<Section>, target: seq<byte>, payload: seq<byte>)
    requires EndsAtTarget(secs, target, payload)
    ensures FirstNamed(secs, target) == Some(payload)
  {
    if |secs| > 1 {
      assert secs[..|secs| - 1][1..] == secs[1..][..|secs[1..]| - 1];
      FirstIsLast(secs[1..], target, payload);
    }
  }

  /** Whole sections follow the preamble, then `rest`. */
  ghost predicate ModuleStarts(wasm: seq<byte>, secs: seq<Section>, rest: seq<byte>) {
    AllOk(secs) && wasm == ModuleBytes(secs) + rest
  }

  lemma ModuleWalks(wasm: seq<byte>, secs: seq<Section>, rest: seq<byte>, target: seq<byte>)
    requires ModuleStarts(wasm, secs, rest)
    ensures FindSection(wasm, target) == if FirstNamed(secs, target).Some? then Ok(FirstNamed(secs, target)) else Walk(rest, target)
  {
    Regroup(Preamble(), SectionsBytes(secs), rest);
    FindAfterPreamble(SectionsBytes(secs) + rest, target);
    WalkPrinted(secs, rest, target);
  }

  lemma ModuleWas(wasm: seq<byte>, target: seq<byte>) returns (secs: seq<Section>, rest: seq<byte>)
    requires FindSection(wasm, target).Ok?
    ensures ModuleStarts(wasm, secs, rest)
    ensures match FindSection(wasm, target).value
      case None => rest == [] && FirstNamed(secs, target) == None
      case Some(payload) => EndsAtTarget(secs, target, payload)
  {
    secs, rest := WalkWas(wasm[8..], target);
    assert wasm == Preamble() + wasm[8..];
    Regroup(Preamble(), SectionsBytes(secs), rest);
  }

  /** A payload is found exactly in a module that starts with whole sections, of which the
      last alone is called `target` and holds it; nothing is found exactly in a module of
      whole sections none of which is. */
  lemma FindSectionIff(wasm: seq<byte>, target: seq<byte>, payload: seq<byte>)
    ensures FindSection(wasm, target) == Ok(Some(payload)) <==>
      exists secs, rest :: ModuleStarts(wasm, secs, rest) && EndsAtTarget(secs, target, payload)
    ensures FindSection(wasm, target) == Ok(None) <==>
      exists secs :: ModuleStarts(wasm, secs, []) && FirstNamed(secs, target) == None
  {
    forall secs, rest | ModuleStarts(wasm, secs, rest) && EndsAtTarget(secs, target, payload)
      ensures FindSection(wasm, target) == Ok(Some(payload))
    {
      ModuleWalks(wasm, secs, rest, target);
      FirstIsLast(secs, target, payload);
    }
    forall secs | ModuleStarts(wasm, secs, []) && FirstNamed(secs, target) == None
      ensures FindSection(wasm, target) == Ok(None)
    {
      ModuleWalks(wasm, secs, [], target);
    }
    if FindSection(wasm, target).Ok? { var secs, rest := ModuleWas(wasm, target); }
  }

  lemma {:induction false} WalkRefusal(s: seq<byte>, target: seq<byte>)
    ensures Walk(s, target).Err? ==> Walk(s, target) == Err(Short)
    decreases |s|
  {
    if s != [] && CutSection(s).Ok? {
      var c := CutSection(s).value;
      WalkRefusal(c.tail[c.size..], target);
    }
  }

  /** A module of eight bytes at least that starts otherwise is refused as holding no
      manifest; every other refusal is for its length or its sizes. */
  lemma FindSectionRefusal(wasm: seq<byte>, target: seq<byte>)
    ensures FindSection(wasm, target) == Err(Missing) <==>
      |wasm| >= 8 && wasm[..8] != [0x00, 0x61, 0x73, 0x6D, 0x01, 0x00, 0x00, 0x00]
    ensures FindSection(wasm, target).Err? ==> FindSection(wasm, target).error in {Missing, Short}
  {
    if |wasm| >= 8 { WalkRefusal(wasm[8..], target); }
  }

  // ---- The loop ----

  /** The name check of the custom section that spans `start..end`. */
  method ReadCustom(wasm: seq<byte>, start: nat, end: nat, target: seq<byte>) returns (r: Search)
    requires start <= end <= |wasm|
    ensures r == CustomPayload(wasm[start..], end - start, target)
  {
    var length := ReadLebLoop(wasm, start);
    if length.Err? { return Err(Short); }
    var (n, after) := length.value;
    var nameEnd := after + n;
    if nameEnd > end { return Err(Short); }
    SliceDrop(wasm, start, after - start, nameEnd - start);
    SliceDrop(wasm, start, nameEnd - start, end - start);
    return if wasm[after..nameEnd] == target then Ok(Some(wasm[nameEnd..end])) else Ok(None);
  }

  /** The extent of the section at `i`. */
  method ReadCut(wasm: seq<byte>, i: nat) returns (r: Result<(nat, nat), ManifestError>)
    requires i < |wasm|
    ensures r.Err? ==> CutSection(wasm[i..]) == Err(r.error)
    ensures r.Ok? ==> i < r.value.0 && r.value.0 + r.value.1 <= |wasm|
                      && CutSection(wasm[i..]) == Ok(Cut(wasm[i], r.value.1, wasm[r.value.0..]))
  {
    DropDrop(wasm, i, 1);
    var size := ReadLebLoop(wasm, i + 1);
    if size.Err? { return Err(Short); }
    var (n, start) := size.value;
    DropDrop(wasm, i, start - i);
    return if start + n > |wasm| then Err(Short) else Ok((start, n));
  }

  method ReadFound(wasm: seq<byte>, id: byte, start: nat, n: nat, target: seq<byte>) returns (r: Search)
    requires start + n <= |wasm|
    ensures r == Found(Cut(id, n, wasm[start..]), target)
  {
    if id != 0 { return Ok(None); }
    r := ReadCustom(wasm, start, start + n, target);
  }

  lemma WalkStepAt(wasm: seq<byte>, i: nat, start: nat, end: nat, found: Search, target: seq<byte>)
    requires i < |wasm| && start <= end <= |wasm| && CutSection(wasm[i..]) == Ok(Cut(wasm[i], end - start, wasm[start..]))
    requires Found(Cut(wasm[i], end - start, wasm[start..]), target) == found
    ensures Walk(wasm[i..], target) == if found == Ok(None) then Walk(wasm[end..], target) else found
  {
    DropDrop(wasm, start, end - start);
    WalkStep(wasm[i..], Cut(wasm[i], end - start, wasm[start..]), wasm[end..], found, target);
  }

  lemma WalkFails(s: seq<byte>, e: ManifestError, target: seq<byte>)
    requires s != [] && CutSection(s) == Err(e)
    ensures Walk(s, target) == Err(e)
  {}

  /** `find_section_payload`: an index moves from section to section. */
  method FindSectionLoop(wasm: seq<byte>, target: seq<byte>) returns (r: Search)
    ensures r == FindSection(wasm, target)
  {
    if |wasm| < 8 { return Err(Short); }
    if wasm[..8] != Preamble() { return Err(Missing); }
    r := WalkLoop(wasm, 8, target);
  }

  method WalkLoop(wasm: seq<byte>, start: nat, target: seq<byte>) returns (r: Search)
    requires start <= |wasm|
    ensures r == Walk(wasm[start..], target)
  {
    var i := start;
    ghost var all := Walk(wasm[start..], target);
    while i < |wasm|
      invariant start <= i <= |wasm| && Walk(wasm[i..], target) == all
    {
      var found, next := ReadSection(wasm, i, target);
      if found != Ok(None) { return found; }
      i := next;
    }
    assert wasm[i..] == [];
    return Ok(None);
  }

  /** One turn of the loop: what the section at `i` holds under the name, and where the next one starts. */
  method ReadSection(wasm: seq<byte>, i: nat, target: seq<byte>) returns (found: Search, next: nat)
    requires i < |wasm|
    ensures i < next <= |wasm|
    ensures Walk(wasm[i..], target) == if found == Ok(None) then Walk(wasm[next..], target) else found
  {
    var cut := ReadCut(wasm, i);
    if cut.Err? {
      WalkFails(wasm[i..], cut.error, target);
      return Err(cut.error), |wasm|;
    }
    found := ReadFound(wasm, wasm[i], cut.value.0, cut.value.1, target);
    next := cut.value.0 + cut.value.1;
    WalkStepAt(wasm, i, cut.value.0, next, found, target);
  }
}
