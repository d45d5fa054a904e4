/** Driver manifests: the byte image a driver is built with, and the view the kernel
    reads back out of the driver's WebAssembly module. */
module Manifest {
  import opened Wrappers
  import opened Bytes
  import opened WasmSections

  const ABI_VERSION: nat := 2
  const NAME_MAX: nat := 32
  const MODULE_MAX: nat := 24
  const HEADER_SIZE: nat := 16
  const EXPORT_SIZE: nat := NAME_MAX + 4
  const IMPORT_SIZE: nat := MODULE_MAX + NAME_MAX + 4

  /** "WDM" and a NUL. */
  function Magic(): (r: seq<byte>)
    ensures |r| == 4
  {
    [0x57, 0x44, 0x4D, 0x00]
  }

  /** "wari_driver_manifest". */
  function SectionName(): seq<byte> {
    [0x77, 0x61, 0x72, 0x69, 0x5F, 0x64, 0x72, 0x69, 0x76, 0x65, 0x72, 0x5F,
     0x6D, 0x61, 0x6E, 0x69, 0x66, 0x65, 0x73, 0x74]
  }

  // ---- Discriminants ----

  datatype DriverKind = Uart | Net | Block | Tier1App

  function KindRaw(k: DriverKind): nat {
    match k case Uart => 1 case Net => 2 case Block => 3 case Tier1App => 4
  }

  function KindFromRaw(v: nat): Option<DriverKind> {
    if v == 1 then Some(Uart) else if v == 2 then Some(Net) else if v == 3 then Some(Block)
    else if v == 4 then Some(Tier1App) else None
  }

  datatype FuncSig =
    | UnitUnit | U32xU32I32 | U32I32 | U32U32 | U64I32 | UnitU64
    | U32x5I32 | U32x3I32 | U32x4I32 | U32Unit | UnitI32

  function SigRaw(s: FuncSig): byte {
    match s
    case UnitUnit => 1 case U32xU32I32 => 2 case U32I32 => 3 case U32U32 => 4 case U64I32 => 5 case UnitU64 => 6
    case U32x5I32 => 7 case U32x3I32 => 8 case U32x4I32 => 9 case U32Unit => 10 case UnitI32 => 11
  }

  function SigFromRaw(v: byte): Option<FuncSig> {
    if v == 1 then Some(UnitUnit) else if v == 2 then Some(U32xU32I32) else if v == 3 then Some(U32I32)
    else if v == 4 then Some(U32U32) else if v == 5 then Some(U64I32) else if v == 6 then Some(UnitU64)
    else if v == 7 then Some(U32x5I32) else if v == 8 then Some(U32x3I32) else if v == 9 then Some(U32x4I32)
    else if v == 10 then Some(U32Unit) else if v == 11 then Some(UnitI32) else None
  }

  /** Both decodings accept exactly the raw values of their variants. */
  lemma DiscriminantsDecode(k: DriverKind, s: FuncSig, v: nat, b: byte)
    ensures KindFromRaw(v) == Some(k) <==> v == KindRaw(k)
    ensures SigFromRaw(b) == Some(s) <==> b == SigRaw(s)
  {}

  /** The values the format assigns. */
  lemma DiscriminantValues(v: nat, b: byte)
    ensures KindFromRaw(v) == if 1 <= v <= 4 then Some([Uart, Net, Block, Tier1App][v - 1]) else None
    ensures SigFromRaw(b) ==
      if 1 <= b <= 11
      then Some([UnitUnit, U32xU32I32, U32I32, U32U32, U64I32, UnitU64, U32x5I32, U32x3I32, U32x4I32, U32Unit, UnitI32][b - 1])
      else None
  {}

  // ---- Building ----

  datatype Export = Export(name: seq<byte>, sig: FuncSig)

  datatype Import = Import(space: seq<byte>, name: seq<byte>, sig: FuncSig)

  /** A name NUL-padded to its field. */
  function Pad(name: seq<byte>, n: nat): (r: seq<byte>)
    requires |name| <= n
    ensures |r| == n
  {
    name + Zeros(n - |name|)
  }

  predicate ExportFits(e: Export) { |e.name| < NAME_MAX }

  predicate ImportFits(i: Import) { |i.space| < MODULE_MAX && |i.name| < NAME_MAX }

  function ExportBytes(e: Export): (r: seq<byte>)
    requires ExportFits(e)
    ensures |r| == EXPORT_SIZE
  {
    Pad(e.name, NAME_MAX) + [SigRaw(e.sig), 0, 0, 0]
  }

  function ImportBytes(i: Import): (r: seq<byte>)
    requires ImportFits(i)
    ensures |r| == IMPORT_SIZE
  {
    Pad(i.space, MODULE_MAX) + Pad(i.name, NAME_MAX) + [SigRaw(i.sig), 0, 0, 0]
  }

  /** A header's fields, and the four bytes after them that no reader looks at. */
  function HeaderOf(kind: nat, exportCount: nat, importCount: nat, reserved: seq<byte>): (r: seq<byte>)
    requires |reserved| == 4
    ensures |r| == HEADER_SIZE
  {
    Magic() + (LeBytes(ABI_VERSION, 2) + (LeBytes(kind, 2) + (LeBytes(exportCount, 2) + (LeBytes(importCount, 2) + reserved))))
  }

  function Header(kind: DriverKind, exportCount: nat, importCount: nat): (r: seq<byte>)
    ensures |r| == HEADER_SIZE
  {
    HeaderOf(KindRaw(kind), exportCount % 0x1_0000, importCount % 0x1_0000, Zeros(4))
  }

  predicate AllFit(exports: seq<Export>, imports: seq<Import>) {
    && (forall i :: 0 <= i < |exports| ==> ExportFits(exports[i]))
    && (forall i :: 0 <= i < |imports| ==> ImportFits(imports[i]))
  }

  function ExportChunks(exports: seq<Export>): (r: seq<seq<byte>>)
    requires forall i :: 0 <= i < |exports| ==> ExportFits(exports[i])
    ensures |r| == |exports| && AllOfSize(r, EXPORT_SIZE) && forall i :: 0 <= i < |r| ==> r[i] == ExportBytes(exports[i])
  {
    seq(|exports|, i requires 0 <= i < |exports| => ExportBytes(exports[i]))
  }

  function ImportChunks(imports: seq<Import>): (r: seq<seq<byte>>)
    requires forall i :: 0 <= i < |imports| ==> ImportFits(imports[i])
    ensures |r| == |imports| && AllOfSize(r, IMPORT_SIZE) && forall i :: 0 <= i < |r| ==> r[i] == ImportBytes(imports[i])
  {
    seq(|imports|, i requires 0 <= i < |imports| => ImportBytes(imports[i]))
  }

  /** `manifest_size`. */
  function ManifestSize(exportCount: nat, importCount: nat): nat {
    HEADER_SIZE + exportCount * EXPORT_SIZE + importCount * IMPORT_SIZE
  }

  function ManifestBytes(kind: DriverKind, exports: seq<Export>, imports: seq<Import>): (r: seq<byte>)
    requires AllFit(exports, imports)
  {
    Header(kind, |exports|, |imports|) + (Flatten(ExportChunks(exports)) + Flatten(ImportChunks(imports)))
  }

  // ---- Reading ----

  datatype ExportDecl = ExportDecl(name: seq<byte>, sig: byte)

  datatype ImportDecl = ImportDecl(space: seq<byte>, name: seq<byte>, sig: byte)

  /** The header's kind, undecoded, and the declarations in order. */
  datatype View = View(kind: nat, exports: seq<ExportDecl>, imports: seq<ImportDecl>)

  function U16At(p: seq<byte>, off: nat): nat
    requires off + 2 <= |p|
  {
    LeValue(p[off..off + 2])
  }

  function ReadExport(chunk: seq<byte>): ExportDecl
    requires |chunk| == EXPORT_SIZE
  {
    ExportDecl(chunk[..NAME_MAX], chunk[NAME_MAX])
  }

  function ReadImport(chunk: seq<byte>): ImportDecl
    requires |chunk| == IMPORT_SIZE
  {
    ImportDecl(chunk[..MODULE_MAX], chunk[MODULE_MAX..MODULE_MAX + NAME_MAX], chunk[MODULE_MAX + NAME_MAX])
  }

  /** The `n` declarations of `size` bytes from the front. */
  function Chunks(p: seq<byte>, size: nat, n: nat): (r: seq<seq<byte>>)
    requires n * size <= |p|
    ensures |r| == n && AllOfSize(r, size)
    decreases n
  {
    if n == 0 then []
    else
      Distribute(size, n - 1);
      assert (n - 1) * size == size * (n - 1);
      [p[..size]] + Chunks(p[size..], size, n - 1)
  }

  function Exports(chunks: seq<seq<byte>>): (r: seq<ExportDecl>)
    requires AllOfSize(chunks, EXPORT_SIZE)
    ensures |r| == |chunks| && forall i :: 0 <= i < |r| ==> r[i] == ReadExport(chunks[i])
  {
    seq(|chunks|, i requires 0 <= i < |chunks| => ReadExport(chunks[i]))
  }

  function Imports(chunks: seq<seq<byte>>): (r: seq<ImportDecl>)
    requires AllOfSize(chunks, IMPORT_SIZE)
    ensures |r| == |chunks| && forall i :: 0 <= i < |r| ==> r[i] == ReadImport(chunks[i])
  {
    seq(|chunks|, i requires 0 <= i < |chunks| => ReadImport(chunks[i]))
  }

  predicate SigsKnown(v: View) {
    && (forall i :: 0 <= i < |v.exports| ==> SigFromRaw(v.exports[i].sig).Some?)
    && (forall i :: 0 <= i < |v.imports| ==> SigFromRaw(v.imports[i].sig).Some?)
  }

  /** The declarations after the header, once the counts are known to fit. */
  function ReadDecls(kind: nat, decls: seq<byte>, exportCount: nat, importCount: nat): View
    requires exportCount * EXPORT_SIZE + importCount * IMPORT_SIZE <= |decls|
  {
    View(kind, Exports(Chunks(decls, EXPORT_SIZE, exportCount)),
         Imports(Chunks(decls[exportCount * EXPORT_SIZE..], IMPORT_SIZE, importCount)))
  }

  /** `parse_payload`. */
  function ParsePayload(p: seq<byte>): Result<View, ManifestError> {
    if |p| < HEADER_SIZE then Err(Short)
    else if p[..4] != Magic() then Err(BadMagic)
    else if U16At(p, 4) != ABI_VERSION then Err(UnsupportedAbiVersion)
    else
      var exportCount, importCount := U16At(p, 8), U16At(p, 10);
      if ManifestSize(exportCount, importCount) > |p| then Err(Short)
      else
        var v := ReadDecls(U16At(p, 6), p[HEADER_SIZE..], exportCount, importCount);
        if SigsKnown(v) then Ok(v) else Err(UnknownSig)
  }

  /** `kind()`: decoded only when asked for. */
  function KindOf(v: View): Result<DriverKind, ManifestError> {
    match KindFromRaw(v.kind)
    case None => Err(UnknownKind)
    case Some(k) => Ok(k)
  }

  /** `parse_from_wasm`. */
  function ParseFromWasm(wasm: seq<byte>): Result<View, ManifestError> {
    match FindSection(wasm, SectionName())
    case Err(e) => Err(e)
    case Ok(None) => Err(Missing)
    case Ok(Some(payload)) => ParsePayload(payload)
  }

  /** `trim_nul`. */
  function TrimNul(buf: seq<byte>): seq<byte> {
    if buf != [] && buf[|buf| - 1] == 0 then TrimNul(buf[..|buf| - 1]) else buf
  }

  // ---- The round trip ----

  lemma {:induction false} TrimZeros(name: seq<byte>, n: nat)
    requires name == [] || name[|name| - 1] != 0
    ensures TrimNul(name + Zeros(n)) == name
  {
    if n == 0 { assert name + Zeros(0) == name; }
    else {
      assert (name + Zeros(n))[..|name| + n - 1] == name + Zeros(n - 1);
      TrimZeros(name, n - 1);
    }
  }

  lemma {:induction false} TrimmedEnds(buf: seq<byte>)
    ensures var r := TrimNul(buf); r == [] || r[|r| - 1] != 0
  {
    if buf != [] && buf[|buf| - 1] == 0 { TrimmedEnds(buf[..|buf| - 1]); }
  }

  /** A name survives its padding exactly when it does not end in NUL. */
  lemma NameSurvivesIff(name: seq<byte>, n: nat)
    requires |name| <= n
    ensures TrimNul(Pad(name, n)) == name <==> name == [] || name[|name| - 1] != 0
  {
    if name == [] || name[|name| - 1] != 0 { TrimZeros(name, n - |name|); }
    else { TrimmedEnds(Pad(name, n)); }
  }

  /** The view of what was built: padded names and raw signatures, in order. */
  function Built(kind: DriverKind, exports: seq<Export>, imports: seq<Import>): View
    requires AllFit(exports, imports)
  {
    View(KindRaw(kind),
         seq(|exports|, i requires 0 <= i < |exports| => ExportDecl(Pad(exports[i].name, NAME_MAX), SigRaw(exports[i].sig))),
         seq(|imports|, i requires 0 <= i < |imports| =>
           ImportDecl(Pad(imports[i].space, MODULE_MAX), Pad(imports[i].name, NAME_MAX), SigRaw(imports[i].sig))))
  }

  lemma {:induction false} ChunksOfFlatten(chunks: seq<seq<byte>>, rest: seq<byte>, size: nat)
    requires AllOfSize(chunks, size)
    ensures |chunks| * size <= |Flatten(chunks) + rest| && Chunks(Flatten(chunks) + rest, size, |chunks|) == chunks
  {
    FlattenSize(chunks, size);
    assert |chunks| * size == size * |chunks|;
    if chunks != [] {
      var s := Flatten(chunks) + rest;
      assert s == chunks[0] + (Flatten(chunks[1..]) + rest);
      assert s[..size] == chunks[0] && s[size..] == Flatten(chunks[1..]) + rest;
      ChunksOfFlatten(chunks[1..], rest, size);
    }
  }

  lemma ExportReads(e: Export)
    requires ExportFits(e)
    ensures ReadExport(ExportBytes(e)) == ExportDecl(Pad(e.name, NAME_MAX), SigRaw(e.sig))
  {
    assert ExportBytes(e)[..NAME_MAX] == Pad(e.name, NAME_MAX);
  }

  lemma ImportReads(i: Import)
    requires ImportFits(i)
    ensures ReadImport(ImportBytes(i)) == ImportDecl(Pad(i.space, MODULE_MAX), Pad(i.name, NAME_MAX), SigRaw(i.sig))
  {
    var b := ImportBytes(i);
    assert b[..MODULE_MAX] == Pad(i.space, MODULE_MAX);
    assert b[MODULE_MAX..MODULE_MAX + NAME_MAX] == Pad(i.name, NAME_MAX);
  }

  lemma TwoBytes(n: nat)
    requires n < 0x1_0000
    ensures LeValue(LeBytes(n, 2)) == n
  {
    assert Pow256(2) == 0x1_0000;
    LeRoundTrip(n, 2);
  }

  lemma HeaderReads(kind: nat, exportCount: nat, importCount: nat, reserved: seq<byte>, rest: seq<byte>)
    requires kind < 0x1_0000 && exportCount < 0x1_0000 && importCount < 0x1_0000 && |reserved| == 4
    ensures var p := HeaderOf(kind, exportCount, importCount, reserved) + rest;
      && |p| == HEADER_SIZE + |rest| && p[..4] == Magic() && U16At(p, 4) == ABI_VERSION && U16At(p, 6) == kind
      && U16At(p, 8) == exportCount && U16At(p, 10) == importCount && p[HEADER_SIZE..] == rest
  {
    var p := HeaderOf(kind, exportCount, importCount, reserved) + rest;
    TwoBytes(ABI_VERSION);
    TwoBytes(kind);
    TwoBytes(exportCount);
    TwoBytes(importCount);
    assert p[4..6] == LeBytes(ABI_VERSION, 2);
    assert p[6..8] == LeBytes(kind, 2);
    assert p[8..10] == LeBytes(exportCount, 2);
    assert p[10..12] == LeBytes(importCount, 2);
  }

  lemma DeclsRead(kind: DriverKind, exports: seq<Export>, imports: seq<Import>, extra: seq<byte>)
    requires AllFit(exports, imports)
    ensures var decls := Flatten(ExportChunks(exports)) + Flatten(ImportChunks(imports)) + extra;
      && |exports| * EXPORT_SIZE + |imports| * IMPORT_SIZE <= |decls|
      && ReadDecls(KindRaw(kind), decls, |exports|, |imports|) == Built(kind, exports, imports)
  {
    var es, ims := ExportChunks(exports), ImportChunks(imports);
    var decls := Flatten(es) + Flatten(ims) + extra;
    assert decls == Flatten(es) + (Flatten(ims) + extra);
    ChunksOfFlatten(es, Flatten(ims) + extra, EXPORT_SIZE);
    ChunksOfFlatten(ims, extra, IMPORT_SIZE);
    FlattenSize(es, EXPORT_SIZE);
    assert decls[|exports| * EXPORT_SIZE..] == Flatten(ims) + extra;
    forall i | 0 <= i < |exports| ensures Exports(es)[i] == Built(kind, exports, imports).exports[i] { ExportReads(exports[i]); }
    forall i | 0 <= i < |imports| ensures Imports(ims)[i] == Built(kind, exports, imports).imports[i] { ImportReads(imports[i]); }
    assert Exports(es) == Built(kind, exports, imports).exports;
    assert Imports(ims) == Built(kind, exports, imports).imports;
  }

  lemma BuiltSigsKnown(kind: DriverKind, exports: seq<Export>, imports: seq<Import>)
    requires AllFit(exports, imports)
    ensures SigsKnown(Built(kind, exports, imports))
  {}

  lemma PayloadIs(p: seq<byte>, v: View, exportCount: nat, importCount: nat)
    requires |p| >= HEADER_SIZE && p[..4] == Magic() && U16At(p, 4) == ABI_VERSION
    requires U16At(p, 8) == exportCount && U16At(p, 10) == importCount
    requires exportCount * EXPORT_SIZE + importCount * IMPORT_SIZE <= |p[HEADER_SIZE..]|
    requires ReadDecls(U16At(p, 6), p[HEADER_SIZE..], exportCount, importCount) == v && SigsKnown(v)
    ensures ParsePayload(p) == Ok(v)
  {}

  lemma BuiltHeader(kind: DriverKind, exports: seq<Export>, imports: seq<Import>, extra: seq<byte>)
    requires AllFit(exports, imports)
    ensures var p := ManifestBytes(kind, exports, imports) + extra;
      && |p| >= HEADER_SIZE && p[..4] == Magic() && U16At(p, 4) == ABI_VERSION && U16At(p, 6) == KindRaw(kind)
      && U16At(p, 8) == |exports| % 0x1_0000 && U16At(p, 10) == |imports| % 0x1_0000
      && p[HEADER_SIZE..] == Flatten(ExportChunks(exports)) + Flatten(ImportChunks(imports)) + extra
  {
    var decls := Flatten(ExportChunks(exports)) + Flatten(ImportChunks(imports)) + extra;
    assert ManifestBytes(kind, exports, imports) + extra == Header(kind, |exports|, |imports|) + decls;
    HeaderReads(KindRaw(kind), |exports| % 0x1_0000, |imports| % 0x1_0000, Zeros(4), decls);
  }

  /** What was built is read back, whatever follows it, exactly when both counts fit 16 bits. */
  lemma PayloadRoundTripIff(kind: DriverKind, exports: seq<Export>, imports: seq<Import>, extra: seq<byte>)
    requires AllFit(exports, imports)
    ensures ParsePayload(ManifestBytes(kind, exports, imports) + extra) == Ok(Built(kind, exports, imports))
            <==> |exports| < 0x1_0000 && |imports| < 0x1_0000
  {
    var p := ManifestBytes(kind, exports, imports) + extra;
    BuiltHeader(kind, exports, imports, extra);
    if |exports| < 0x1_0000 && |imports| < 0x1_0000 {
      DeclsRead(kind, exports, imports, extra);
      BuiltSigsKnown(kind, exports, imports);
      PayloadIs(p, Built(kind, exports, imports), |exports|, |imports|);
    } else {
      CountsRead(p);
    }
  }

  lemma CountsRead(p: seq<byte>)
    ensures ParsePayload(p).Ok? ==>
      && |p| >= HEADER_SIZE
      && |ParsePayload(p).value.exports| == U16At(p, 8) && |ParsePayload(p).value.imports| == U16At(p, 10)
  {}

  /** Names as the loader compares them, and decoded signatures. */
  predicate ReadsAs(v: View, kind: DriverKind, exports: seq<Export>, imports: seq<Import>) {
    && KindOf(v) == Ok(kind) && |v.exports| == |exports| && |v.imports| == |imports|
    && (forall i :: 0 <= i < |exports| ==>
          TrimNul(v.exports[i].name) == exports[i].name && SigFromRaw(v.exports[i].sig) == Some(exports[i].sig))
    && (forall i :: 0 <= i < |imports| ==>
          && TrimNul(v.imports[i].space) == imports[i].space && TrimNul(v.imports[i].name) == imports[i].name
          && SigFromRaw(v.imports[i].sig) == Some(imports[i].sig))
  }

  predicate NoTrailingNul(name: seq<byte>) { name == [] || name[|name| - 1] != 0 }

  lemma BuiltReadsAs(kind: DriverKind, exports: seq<Export>, imports: seq<Import>)
    requires AllFit(exports, imports)
    requires forall i :: 0 <= i < |exports| ==> NoTrailingNul(exports[i].name)
    requires forall i :: 0 <= i < |imports| ==> NoTrailingNul(imports[i].space) && NoTrailingNul(imports[i].name)
    ensures ReadsAs(Built(kind, exports, imports), kind, exports, imports)
  {
    var v := Built(kind, exports, imports);
    forall i | 0 <= i < |exports|
      ensures TrimNul(v.exports[i].name) == exports[i].name && SigFromRaw(v.exports[i].sig) == Some(exports[i].sig)
    {
      NameSurvivesIff(exports[i].name, NAME_MAX);
    }
    forall i | 0 <= i < |imports|
      ensures TrimNul(v.imports[i].space) == imports[i].space && TrimNul(v.imports[i].name) == imports[i].name
              && SigFromRaw(v.imports[i].sig) == Some(imports[i].sig)
    {
      NameSurvivesIff(imports[i].space, MODULE_MAX);
      NameSurvivesIff(imports[i].name, NAME_MAX);
    }
  }

  lemma BuiltReads(kind: DriverKind, exports: seq<Export>, imports: seq<Import>)
    requires AllFit(exports, imports) && |exports| < 0x1_0000 && |imports| < 0x1_0000
    ensures ParsePayload(ManifestBytes(kind, exports, imports)) == Ok(Built(kind, exports, imports))
  {
    PayloadRoundTripIff(kind, exports, imports, []);
    assert ManifestBytes(kind, exports, imports) + [] == ManifestBytes(kind, exports, imports);
  }

  lemma FromPayload(wasm: seq<byte>, payload: seq<byte>, v: View)
    requires FindSection(wasm, SectionName()) == Ok(Some(payload)) && ParsePayload(payload) == Ok(v)
    ensures ParseFromWasm(wasm) == Ok(v)
  {}

  /** A module of any well-formed sections whose first manifest section holds a built
      manifest is read back as the same kind, names and signatures, in order. */
  lemma ModuleRoundTrip(secs: seq<Section>, kind: DriverKind, exports: seq<Export>, imports: seq<Import>)
    requires AllOk(secs)
    requires AllFit(exports, imports) && |exports| < 0x1_0000 && |imports| < 0x1_0000
    requires FirstNamed(secs, SectionName()) == Some(ManifestBytes(kind, exports, imports))
    requires forall i :: 0 <= i < |exports| ==> NoTrailingNul(exports[i].name)
    requires forall i :: 0 <= i < |imports| ==> NoTrailingNul(imports[i].space) && NoTrailingNul(imports[i].name)
    ensures ParseFromWasm(ModuleBytes(secs)) == Ok(Built(kind, exports, imports))
    ensures ReadsAs(Built(kind, exports, imports), kind, exports, imports)
  {
    FindSectionPrinted(secs, SectionName());
    BuiltReads(kind, exports, imports);
    FromPayload(ModuleBytes(secs), ManifestBytes(kind, exports, imports), Built(kind, exports, imports));
    BuiltReadsAs(kind, exports, imports);
  }
}
