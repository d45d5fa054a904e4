/** Which modules and payloads give which view: a view's declarations, spread over the
    bytes the reader passes by. */
module ManifestViews {
  import opened Wrappers
  import opened Bytes
  import opened WasmSections
  import opened Manifest

  /** The bytes of a payload that its view does not show. */
  datatype Unread = Unread(reserved: seq<byte>, exportPads: seq<seq<byte>>, importPads: seq<seq<byte>>, extra: seq<byte>)

  predicate ExportDeclOk(e: ExportDecl) { |e.name| == NAME_MAX }

  predicate ImportDeclOk(i: ImportDecl) { |i.space| == MODULE_MAX && |i.name| == NAME_MAX }

  /** Field sizes, and counts that fit their 16 bits. */
  ghost predicate Spreads(v: View, u: Unread) {
    && v.kind < 0x1_0000 && |v.exports| < 0x1_0000 && |v.imports| < 0x1_0000
    && (forall i :: 0 <= i < |v.exports| ==> ExportDeclOk(v.exports[i]))
    && (forall i :: 0 <= i < |v.imports| ==> ImportDeclOk(v.imports[i]))
    && |u.reserved| == 4
    && |u.exportPads| == |v.exports| && AllOfSize(u.exportPads, 3)
    && |u.importPads| == |v.imports| && AllOfSize(u.importPads, 3)
  }

  function ExportChunk(e: ExportDecl, pad: seq<byte>): seq<byte> { e.name + ([e.sig] + pad) }

  function ImportChunk(i: ImportDecl, pad: seq<byte>): seq<byte> { i.space + (i.name + ([i.sig] + pad)) }

  function SpreadExports(decls: seq<ExportDecl>, pads: seq<seq<byte>>): (r: seq<seq<byte>>)
    requires |pads| == |decls|
    ensures |r| == |decls| && forall i :: 0 <= i < |r| ==> r[i] == ExportChunk(decls[i], pads[i])
  {
    seq(|decls|, i requires 0 <= i < |decls| => ExportChunk(decls[i], pads[i]))
  }

  function SpreadImports(decls: seq<ImportDecl>, pads: seq<seq<byte>>): (r: seq<seq<byte>>)
    requires |pads| == |decls|
    ensures |r| == |decls| && forall i :: 0 <= i < |r| ==> r[i] == ImportChunk(decls[i], pads[i])
  {
    seq(|decls|, i requires 0 <= i < |decls| => ImportChunk(decls[i], pads[i]))
  }

  /** The payload that shows `v` and hides `u`. */
  ghost function Payload(v: View, u: Unread): seq<byte>
    requires Spreads(v, u)
  {
    HeaderOf(v.kind, |v.exports|, |v.imports|, u.reserved)
    + (Flatten(SpreadExports(v.exports, u.exportPads)) + (Flatten(SpreadImports(v.imports, u.importPads)) + u.extra))
  }

  // ---- A payload is read as its view ----

  lemma ExportChunkReads(e: ExportDecl, pad: seq<byte>)
    requires ExportDeclOk(e) && |pad| == 3
    ensures |ExportChunk(e, pad)| == EXPORT_SIZE && ReadExport(ExportChunk(e, pad)) == e
  {
    assert ExportChunk(e, pad)[..NAME_MAX] == e.name;
  }

  lemma ImportChunkReads(i: ImportDecl, pad: seq<byte>)
    requires ImportDeclOk(i) && |pad| == 3
    ensures |ImportChunk(i, pad)| == IMPORT_SIZE && ReadImport(ImportChunk(i, pad)) == i
  {
    var c := ImportChunk(i, pad);
    assert c[..MODULE_MAX] == i.space;
    assert c[MODULE_MAX..MODULE_MAX + NAME_MAX] == i.name;
  }

  lemma ExportsRead(decls: seq<ExportDecl>, pads: seq<seq<byte>>)
    requires |pads| == |decls| && AllOfSize(pads, 3) && forall i :: 0 <= i < |decls| ==> ExportDeclOk(decls[i])
    ensures AllOfSize(SpreadExports(decls, pads), EXPORT_SIZE) && Exports(SpreadExports(decls, pads)) == decls
  {
    var chunks := SpreadExports(decls, pads);
    forall i | 0 <= i < |decls| ensures |chunks[i]| == EXPORT_SIZE && ReadExport(chunks[i]) == decls[i] {
      ExportChunkReads(decls[i], pads[i]);
    }
  }

  lemma ImportsRead(decls: seq<ImportDecl>, pads: seq<seq<byte>>)
    requires |pads| == |decls| && AllOfSize(pads, 3) && forall i :: 0 <= i < |decls| ==> ImportDeclOk(decls[i])
    ensures AllOfSize(SpreadImports(decls, pads), IMPORT_SIZE) && Imports(SpreadImports(decls, pads)) == decls
  {
    var chunks := SpreadImports(decls, pads);
    forall i | 0 <= i < |decls| ensures |chunks[i]| == IMPORT_SIZE && ReadImport(chunks[i]) == decls[i] {
      ImportChunkReads(decls[i], pads[i]);
    }
  }

  lemma PayloadReads(v: View, u: Unread)
    requires Spreads(v, u) && SigsKnown(v)
    ensures ParsePayload(Payload(v, u)) == Ok(v)
  {
    var es, ims := SpreadExports(v.exports, u.exportPads), SpreadImports(v.imports, u.importPads);
    var decls := Flatten(es) + (Flatten(ims) + u.extra);
    HeaderReads(v.kind, |v.exports|, |v.imports|, u.reserved, decls);
    ExportsRead(v.exports, u.exportPads);
    ImportsRead(v.imports, u.importPads);
    ChunksOfFlatten(es, Flatten(ims) + u.extra, EXPORT_SIZE);
    ChunksOfFlatten(ims, u.extra, IMPORT_SIZE);
    FlattenSize(es, EXPORT_SIZE);
    assert decls[|v.exports| * EXPORT_SIZE..] == Flatten(ims) + u.extra;
    PayloadIs(Payload(v, u), v, |v.exports|, |v.imports|);
  }

  // ---- A payload that was read is one that shows its view ----

  lemma {:induction false} LeBytesOfValue(b: seq<byte>)
    ensures LeBytes(LeValue(b), |b|) == b && LeValue(b) < Pow256(|b|)
  {
    if b != [] { LeBytesOfValue(b[1..]); }
  }

  lemma U16Was(p: seq<byte>, off: nat)
    requires off + 2 <= |p|
    ensures U16At(p, off) < 0x1_0000 && LeBytes(U16At(p, off), 2) == p[off..off + 2]
  {
    assert Pow256(2) == 0x1_0000;
    LeBytesOfValue(p[off..off + 2]);
  }

  lemma HeaderWas(p: seq<byte>)
    requires |p| >= HEADER_SIZE && p[..4] == Magic() && U16At(p, 4) == ABI_VERSION
    ensures U16At(p, 6) < 0x1_0000 && U16At(p, 8) < 0x1_0000 && U16At(p, 10) < 0x1_0000
    ensures p == HeaderOf(U16At(p, 6), U16At(p, 8), U16At(p, 10), p[12..HEADER_SIZE]) + p[HEADER_SIZE..]
  {
    U16Was(p, 4);
    U16Was(p, 6);
    U16Was(p, 8);
    U16Was(p, 10);
    CutInSix(p);
  }

  lemma CutInSix(p: seq<byte>)
    requires |p| >= HEADER_SIZE
    ensures p == p[..4] + (p[4..6] + (p[6..8] + (p[8..10] + (p[10..12] + p[12..HEADER_SIZE])))) + p[HEADER_SIZE..]
  {}

  lemma OneLess(n: nat, size: nat)
    requires n > 0
    ensures n * size == size + (n - 1) * size
  {}

  lemma FrontCut(p: seq<byte>, a: nat, b: nat)
    requires a <= b <= |p|
    ensures p[..b] == p[..a] + p[a..][..b - a]
  {}

  lemma {:induction false} FlattenOfChunks(p: seq<byte>, size: nat, n: nat)
    requires n * size <= |p|
    ensures Flatten(Chunks(p, size, n)) == p[..n * size]
    decreases n
  {
    if n > 0 {
      OneLess(n, size);
      FlattenOfChunks(p[size..], size, n - 1);
      assert Chunks(p, size, n)[1..] == Chunks(p[size..], size, n - 1);
      FrontCut(p, size, n * size);
    }
  }

  lemma ExportsWere(chunks: seq<seq<byte>>) returns (pads: seq<seq<byte>>)
    requires AllOfSize(chunks, EXPORT_SIZE)
    ensures |pads| == |chunks| && AllOfSize(pads, 3) && SpreadExports(Exports(chunks), pads) == chunks
    ensures forall i :: 0 <= i < |chunks| ==> ExportDeclOk(Exports(chunks)[i])
  {
    pads := seq(|chunks|, i requires 0 <= i < |chunks| => chunks[i][NAME_MAX + 1..]);
    forall i | 0 <= i < |chunks| ensures ExportChunk(Exports(chunks)[i], pads[i]) == chunks[i] {
      var c := chunks[i];
      assert c == c[..NAME_MAX] + ([c[NAME_MAX]] + c[NAME_MAX + 1..]);
    }
  }

  lemma ImportsWere(chunks: seq<seq<byte>>) returns (pads: seq<seq<byte>>)
    requires AllOfSize(chunks, IMPORT_SIZE)
    ensures |pads| == |chunks| && AllOfSize(pads, 3) && SpreadImports(Imports(chunks), pads) == chunks
    ensures forall i :: 0 <= i < |chunks| ==> ImportDeclOk(Imports(chunks)[i])
  {
    var sig := MODULE_MAX + NAME_MAX;
    pads := seq(|chunks|, i requires 0 <= i < |chunks| => chunks[i][sig + 1..]);
    forall i | 0 <= i < |chunks| ensures ImportChunk(Imports(chunks)[i], pads[i]) == chunks[i] {
      var c := chunks[i];
      assert c == c[..MODULE_MAX] + (c[MODULE_MAX..sig] + ([c[sig]] + c[sig + 1..]));
    }
  }

  lemma DeclsWere(kind: nat, decls: seq<byte>, exportCount: nat, importCount: nat, reserved: seq<byte>) returns (u: Unread)
    requires exportCount * EXPORT_SIZE + importCount * IMPORT_SIZE <= |decls| && |reserved| == 4
    requires kind < 0x1_0000 && exportCount < 0x1_0000 && importCount < 0x1_0000
    ensures var v := ReadDecls(kind, decls, exportCount, importCount);
      && |v.exports| == exportCount && |v.imports| == importCount && u.reserved == reserved && Spreads(v, u)
      && decls == Flatten(SpreadExports(v.exports, u.exportPads)) + (Flatten(SpreadImports(v.imports, u.importPads)) + u.extra)
  {
    var n, rest := exportCount * EXPORT_SIZE, decls[exportCount * EXPORT_SIZE..];
    var m := importCount * IMPORT_SIZE;
    var exportPads := ExportsWere(Chunks(decls, EXPORT_SIZE, exportCount));
    var importPads := ImportsWere(Chunks(rest, IMPORT_SIZE, importCount));
    FlattenOfChunks(decls, EXPORT_SIZE, exportCount);
    FlattenOfChunks(rest, IMPORT_SIZE, importCount);
    u := Unread(reserved, exportPads, importPads, rest[m..]);
    ThreeParts(decls, n, m);
  }

  lemma ThreeParts(s: seq<byte>, n: nat, m: nat)
    requires n + m <= |s|
    ensures s == s[..n] + (s[n..][..m] + s[n..][m..])
  {}

  lemma PayloadWas(p: seq<byte>) returns (u: Unread)
    requires ParsePayload(p).Ok?
    ensures var v := ParsePayload(p).value;
      Spreads(v, u) && SigsKnown(v) && p == Payload(v, u)
  {
    HeaderWas(p);
    u := DeclsWere(U16At(p, 6), p[HEADER_SIZE..], U16At(p, 8), U16At(p, 10), p[12..HEADER_SIZE]);
  }

  // ---- The views, exactly ----

  ghost predicate Shows(p: seq<byte>, v: View) {
    SigsKnown(v) && exists u :: Spreads(v, u) && p == Payload(v, u)
  }

  /** A payload is read as a view exactly when it shows it: its header, declarations with
      known signatures, and any bytes in the reserved places and after them. */
  lemma ParsePayloadIff(p: seq<byte>, v: View)
    ensures ParsePayload(p) == Ok(v) <==> Shows(p, v)
  {
    if ParsePayload(p) == Ok(v) { var u := PayloadWas(p); }
    if Shows(p, v) {
      var u :| Spreads(v, u) && p == Payload(v, u);
      PayloadReads(v, u);
    }
  }

  /** A module is read as a view exactly when, of the sections it starts with, the last alone
      is called the manifest and shows it. */
  lemma ParseFromWasmIff(wasm: seq<byte>, v: View)
    ensures ParseFromWasm(wasm) == Ok(v) <==>
      exists secs, rest, payload :: ModuleStarts(wasm, secs, rest) && EndsAtTarget(secs, SectionName(), payload) && Shows(payload, v)
  {
    forall secs, rest, payload | ModuleStarts(wasm, secs, rest) && EndsAtTarget(secs, SectionName(), payload) && Shows(payload, v)
      ensures ParseFromWasm(wasm) == Ok(v)
    {
      FindSectionIff(wasm, SectionName(), payload);
      ParsePayloadIff(payload, v);
      FromPayload(wasm, payload, v);
    }
    if ParseFromWasm(wasm) == Ok(v) {
      var payload := FindSection(wasm, SectionName()).value.value;
      ParsePayloadIff(payload, v);
      var secs, rest := ModuleWas(wasm, SectionName());
    }
  }

  // ---- Refusals ----

  /** The counts a payload declares. */
  function Declared(p: seq<byte>): nat
    requires |p| >= 16
  {
    16 + 36 * LeValue(p[8..10]) + 60 * LeValue(p[10..12])
  }

  /** A payload is refused, in this order, for a header cut short, another magic, another
      version, declarations cut short, or a signature that is none. */
  lemma PayloadRefusal(p: seq<byte>)
    ensures var r := ParsePayload(p);
      && (r == Err(BadMagic) <==> |p| >= 16 && p[..4] != [0x57, 0x44, 0x4D, 0x00])
      && (r == Err(UnsupportedAbiVersion) <==> |p| >= 16 && p[..4] == [0x57, 0x44, 0x4D, 0x00] && LeValue(p[4..6]) != 2)
      && (r == Err(Short) <==>
            |p| < 16 || (p[..4] == [0x57, 0x44, 0x4D, 0x00] && LeValue(p[4..6]) == 2 && |p| < Declared(p)))
      && (r.Err? ==> r.error in {Short, BadMagic, UnsupportedAbiVersion, UnknownSig})
  {
    if |p| >= 16 { assert Declared(p) == ManifestSize(U16At(p, 8), U16At(p, 10)); }
  }

  /** A module without the section is refused as holding none; otherwise the refusal is the
      section walk's or the payload's. */
  lemma FromWasmRefusal(wasm: seq<byte>, payload: seq<byte>)
    ensures var found := FindSection(wasm, SectionName());
      && (found == Ok(None) ==> ParseFromWasm(wasm) == Err(Missing))
      && (found.Err? ==> ParseFromWasm(wasm) == Err(found.error))
      && (found == Ok(Some(payload)) ==> ParseFromWasm(wasm) == ParsePayload(payload))
  {}
}
