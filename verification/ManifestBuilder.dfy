/** The manifest image filled in place, and the reading loops. */
module ManifestBuilder {
  import opened Wrappers
  import opened Bytes
  import opened WasmSections
  import opened Manifest
  import opened Sequences

  /** Copies `s` into `buf` from `at`. */
  method PutBytes(buf: array<byte>, at: nat, s: seq<byte>)
    requires at + |s| <= buf.Length
    modifies buf
    ensures buf[..] == old(buf[..at]) + s + old(buf[at + |s|..])
  {
    var k := 0;
    while k < |s|
      invariant k <= |s|
      invariant buf[..] == old(buf[..at]) + s[..k] + old(buf[at + k..])
    {
      buf[at + k] := s[k];
      assert s[..k + 1] == s[..k] + [s[k]];
      k := k + 1;
    }
  }

  /** The image so far: written to `i`, zero from there. */
  ghost predicate WrittenTo(buf: array<byte>, i: nat, image: seq<byte>)
    reads buf
  {
    i == |image| && i <= buf.Length && buf[..] == image + Zeros(buf.Length - i)
  }

  /** A field appended over zeros: the bytes of `s`, then zeros up to `n`. */
  method PutField(buf: array<byte>, i: nat, n: nat, s: seq<byte>, ghost image: seq<byte>)
    requires WrittenTo(buf, i, image) && |s| <= n && i + n <= buf.Length
    modifies buf
    ensures WrittenTo(buf, i + n, image + Pad(s, n))
  {
    PutBytes(buf, i, s);
    assert Zeros(buf.Length - i) == Zeros(|s|) + Zeros(n - |s|) + Zeros(buf.Length - i - n);
  }

  /** Header fields, in order. */
  method PutHeader(buf: array<byte>, kind: DriverKind, exportCount: nat, importCount: nat)
    requires WrittenTo(buf, 0, []) && buf.Length >= HEADER_SIZE
    modifies buf
    ensures WrittenTo(buf, HEADER_SIZE, Header(kind, exportCount, importCount))
  {
    ghost var image := Header(kind, exportCount, importCount);
    PutField(buf, 0, HEADER_SIZE, Header(kind, exportCount, importCount)[..12], []);
    assert image == [] + Pad(image[..12], HEADER_SIZE);
  }

  method PutExport(buf: array<byte>, i: nat, e: Export, ghost image: seq<byte>)
    requires WrittenTo(buf, i, image) && ExportFits(e) && i + EXPORT_SIZE <= buf.Length
    modifies buf
    ensures WrittenTo(buf, i + EXPORT_SIZE, image + ExportBytes(e))
  {
    PutField(buf, i, NAME_MAX, e.name, image);
    PutField(buf, i + NAME_MAX, 4, [SigRaw(e.sig)], image + Pad(e.name, NAME_MAX));
    assert Pad([SigRaw(e.sig)], 4) == [SigRaw(e.sig), 0, 0, 0];
    assert image + Pad(e.name, NAME_MAX) + [SigRaw(e.sig), 0, 0, 0] == image + ExportBytes(e);
  }

  method PutImport(buf: array<byte>, at: nat, i: Import, ghost image: seq<byte>)
    requires WrittenTo(buf, at, image) && ImportFits(i) && at + IMPORT_SIZE <= buf.Length
    modifies buf
    ensures WrittenTo(buf, at + IMPORT_SIZE, image + ImportBytes(i))
  {
    ghost var space, name := Pad(i.space, MODULE_MAX), Pad(i.name, NAME_MAX);
    PutField(buf, at, MODULE_MAX, i.space, image);
    PutField(buf, at + MODULE_MAX, NAME_MAX, i.name, image + space);
    PutField(buf, at + MODULE_MAX + NAME_MAX, 4, [SigRaw(i.sig)], image + space + name);
    assert Pad([SigRaw(i.sig)], 4) == [SigRaw(i.sig), 0, 0, 0];
    assert image + space + name + [SigRaw(i.sig), 0, 0, 0] == image + ImportBytes(i);
  }

  lemma {:induction false} FlattenBack(chunks: seq<seq<byte>>, c: seq<byte>)
    ensures Flatten(chunks + [c]) == Flatten(chunks) + c
  {
    if chunks == [] {
      assert [] + [c] == [c];
      assert Flatten([c]) == c + Flatten([]);
    } else {
      assert (chunks + [c])[1..] == chunks[1..] + [c];
      FlattenBack(chunks[1..], c);
    }
  }

  lemma ExportsGrow(image: seq<byte>, exports: seq<Export>, e: nat)
    requires e < |exports| && forall k :: 0 <= k <= e ==> ExportFits(exports[k])
    ensures image + Flatten(ExportChunks(exports[..e + 1])) == image + Flatten(ExportChunks(exports[..e])) + ExportBytes(exports[e])
  {
    var done := ExportChunks(exports[..e]);
    FlattenBack(done, ExportBytes(exports[e]));
    assert ExportChunks(exports[..e + 1]) == done + [ExportBytes(exports[e])];
  }

  lemma ImportsGrow(image: seq<byte>, imports: seq<Import>, m: nat)
    requires m < |imports| && forall k :: 0 <= k <= m ==> ImportFits(imports[k])
    ensures image + Flatten(ImportChunks(imports[..m + 1])) == image + Flatten(ImportChunks(imports[..m])) + ImportBytes(imports[m])
  {
    var done := ImportChunks(imports[..m]);
    FlattenBack(done, ImportBytes(imports[m]));
    assert ImportChunks(imports[..m + 1]) == done + [ImportBytes(imports[m])];
  }

  method PutExports(buf: array<byte>, exports: seq<Export>, ghost image: seq<byte>) returns (r: bool, i: nat)
    requires WrittenTo(buf, HEADER_SIZE, image) && HEADER_SIZE + |exports| * EXPORT_SIZE <= buf.Length
    modifies buf
    ensures r <==> forall e :: 0 <= e < |exports| ==> ExportFits(exports[e])
    ensures r ==> i == HEADER_SIZE + |exports| * EXPORT_SIZE && WrittenTo(buf, i, image + Flatten(ExportChunks(exports)))
  {
    i := HEADER_SIZE;
    var e := 0;
    assert image + Flatten([]) == image;
    while e < |exports|
      invariant e <= |exports| && i == HEADER_SIZE + e * EXPORT_SIZE
      invariant forall k :: 0 <= k < e ==> ExportFits(exports[k])
      invariant WrittenTo(buf, i, image + Flatten(ExportChunks(exports[..e])))
    {
      if |exports[e].name| >= NAME_MAX { return false, i; }
      ExportsGrow(image, exports, e);
      PutExport(buf, i, exports[e], image + Flatten(ExportChunks(exports[..e])));
      i, e := i + EXPORT_SIZE, e + 1;
    }
    assert exports[..e] == exports;
    r := true;
  }

  method PutImports(buf: array<byte>, start: nat, imports: seq<Import>, ghost image: seq<byte>) returns (r: bool)
    requires WrittenTo(buf, start, image) && start + |imports| * IMPORT_SIZE == buf.Length
    modifies buf
    ensures r <==> forall m :: 0 <= m < |imports| ==> ImportFits(imports[m])
    ensures r ==> buf[..] == image + Flatten(ImportChunks(imports))
  {
    var i, m := start, 0;
    assert image + Flatten([]) == image;
    while m < |imports|
      invariant m <= |imports| && i == start + m * IMPORT_SIZE
      invariant forall k :: 0 <= k < m ==> ImportFits(imports[k])
      invariant WrittenTo(buf, i, image + Flatten(ImportChunks(imports[..m])))
    {
      if |imports[m].space| >= MODULE_MAX || |imports[m].name| >= NAME_MAX { return false; }
      ImportsGrow(image, imports, m);
      PutImport(buf, i, imports[m], image + Flatten(ImportChunks(imports[..m])));
      i, m := i + IMPORT_SIZE, m + 1;
    }
    assert imports[..m] == imports;
    assert buf[..] == (image + Flatten(ImportChunks(imports))) + Zeros(0);
    r := true;
  }

  /** `build_manifest`: none where the build would abort, because the size disagrees or a
      name does not leave room for its NUL. */
  method BuildManifest(n: nat, kind: DriverKind, exports: seq<Export>, imports: seq<Import>) returns (r: Option<array<byte>>)
    ensures r.Some? <==> n == ManifestSize(|exports|, |imports|) && AllFit(exports, imports)
    ensures r.Some? ==> fresh(r.value) && r.value[..] == ManifestBytes(kind, exports, imports)
  {
    if n != ManifestSize(|exports|, |imports|) { return None; }
    var buf := new byte[n](_ => 0);
    assert buf[..] == [] + Zeros(n);
    PutHeader(buf, kind, |exports|, |imports|);
    var ok := PutDecls(buf, exports, imports, Header(kind, |exports|, |imports|));
    return if ok then Some(buf) else None;
  }

  method PutDecls(buf: array<byte>, exports: seq<Export>, imports: seq<Import>, ghost header: seq<byte>) returns (ok: bool)
    requires WrittenTo(buf, HEADER_SIZE, header) && buf.Length == ManifestSize(|exports|, |imports|)
    modifies buf
    ensures ok <==> AllFit(exports, imports)
    ensures ok ==> buf[..] == header + (Flatten(ExportChunks(exports)) + Flatten(ImportChunks(imports)))
  {
    var i;
    ok, i := PutExports(buf, exports, header);
    if !ok { return false; }
    ok := PutImports(buf, i, imports, header + Flatten(ExportChunks(exports)));
    if ok { Regroup(header, Flatten(ExportChunks(exports)), Flatten(ImportChunks(imports))); }
  }

  // ---- Reading loops ----

  method Trim(buf: seq<byte>) returns (r: seq<byte>)
    ensures r == TrimNul(buf)
  {
    var end := |buf|;
    assert buf[..end] == buf;
    while end > 0 && buf[end - 1] == 0
      invariant end <= |buf| && TrimNul(buf[..end]) == TrimNul(buf)
    {
      assert buf[..end][..end - 1] == buf[..end - 1];
      end := end - 1;
    }
    return buf[..end];
  }

  /** The signature check over exports and then imports. */
  method CheckSigs(v: View) returns (ok: bool)
    ensures ok <==> SigsKnown(v)
  {
    var i := 0;
    while i < |v.exports|
      invariant i <= |v.exports| && forall k :: 0 <= k < i ==> SigFromRaw(v.exports[k].sig).Some?
    {
      if SigFromRaw(v.exports[i].sig).None? { return false; }
      i := i + 1;
    }
    i := 0;
    while i < |v.imports|
      invariant i <= |v.imports| && forall k :: 0 <= k < i ==> SigFromRaw(v.imports[k].sig).Some?
    {
      if SigFromRaw(v.imports[i].sig).None? { return false; }
      i := i + 1;
    }
    return true;
  }

  method ReadPayload(p: seq<byte>) returns (r: Result<View, ManifestError>)
    ensures r == ParsePayload(p)
  {
    if |p| < HEADER_SIZE { return Err(Short); }
    if p[..4] != Magic() { return Err(BadMagic); }
    if U16At(p, 4) != ABI_VERSION { return Err(UnsupportedAbiVersion); }
    var exportCount, importCount := U16At(p, 8), U16At(p, 10);
    if ManifestSize(exportCount, importCount) > |p| { return Err(Short); }
    var v := ReadDecls(U16At(p, 6), p[HEADER_SIZE..], exportCount, importCount);
    var ok := CheckSigs(v);
    return if ok then Ok(v) else Err(UnknownSig);
  }

  /** `parse_from_wasm`. */
  method ReadFromWasm(wasm: seq<byte>) returns (r: Result<View, ManifestError>)
    ensures r == ParseFromWasm(wasm)
  {
    var payload := FindSectionLoop(wasm, SectionName());
    if payload.Err? { return Err(payload.error); }
    if payload.value.None? { return Err(Missing); }
    r := ReadPayload(payload.value.value);
  }
}
