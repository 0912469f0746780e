/** Cross-flow package transfer: the sender's printer and the receiver's verifier and unpacker (nodes/embassy). */
module Embassy {
  import opened Prelude

  type Bytes = seq<bv8>

  /** The hex digest of SHA-256, of which only that it is a function is used. */
  type Hash = Bytes -> string

  function ComputeDigest(h: Hash, data: Bytes): (d: string)
    ensures d != ""
  {
    "sha256:" + h(data)
  }

  datatype ArtefactManifest = ArtefactManifest(name: string, digest: string, size: nat, foreignStamps: seq<string>)

  datatype Manifest = Manifest(importType: string, sourceFlow: string, targetFlow: string, transferId: string,
                               artefacts: seq<ArtefactManifest>)

  datatype Chunk = Header(manifest: Manifest) | Content(bytes: Bytes) | Trailer(digest: string) | Blank

  function Concat(parts: seq<Bytes>): Bytes {
    if parts == [] then [] else Concat(parts[..|parts| - 1]) + parts[|parts| - 1]
  }

  // --------------------------------------------------------------------- sender

  /** What the sender's Archivist holds for the workitem. */
  datatype Source = Source(contents: map<string, Bytes>, stamps: map<string, seq<string>>)

  function StampsOf(source: Source, name: string): seq<string> {
    if name in source.stamps then source.stamps[name] else []
  }

  function Declare(h: Hash, source: Source, name: string): ArtefactManifest
    requires name in source.contents
  {
    ArtefactManifest(name, ComputeDigest(h, source.contents[name]), |source.contents[name]|, StampsOf(source, name))
  }

  ghost predicate AllHeld(source: Source, refs: seq<string>) {
    forall i :: 0 <= i < |refs| ==> refs[i] in source.contents
  }

  function Declarations(h: Hash, source: Source, refs: seq<string>): seq<ArtefactManifest>
    requires AllHeld(source, refs)
  {
    seq(|refs|, i requires 0 <= i < |refs| => Declare(h, source, refs[i]))
  }

  /** Restriction of the held contents to the listed artefacts. */
  function ContentMap(source: Source, refs: seq<string>): map<string, Bytes> {
    map name | name in refs && name in source.contents :: source.contents[name]
  }

  method BuildExportManifest(h: Hash, source: Source, refs: seq<string>, importType: string, targetFlow: string,
                             sourceFlow: string, transferId: string)
    returns (r: Result<Manifest>, contentMap: map<string, Bytes>)
    ensures r.Ok? <==> refs != [] && AllHeld(source, refs)
    ensures r.Ok? ==> r.value == Manifest(importType, sourceFlow, targetFlow, transferId, Declarations(h, source, refs))
                      && contentMap == ContentMap(source, refs)
    // Each declaration: the name, the content's digest and size, and the stamps held.
    ensures r.Ok? ==> |r.value.artefacts| == |refs| && forall i :: 0 <= i < |refs| ==>
              refs[i] in source.contents
              && var a, content := r.value.artefacts[i], source.contents[refs[i]];
                 && a.name == refs[i] && a.digest == "sha256:" + h(content) && a.size == |content|
                 && a.foreignStamps == if refs[i] in source.stamps then source.stamps[refs[i]] else []
  {
    contentMap := map[];
    if |refs| == 0 { return Err("no artefacts"), map[]; }
    var artefacts: seq<ArtefactManifest> := [];
    for i := 0 to |refs|
      invariant AllHeld(source, refs[..i]) && artefacts == Declarations(h, source, refs[..i])
      invariant contentMap == ContentMap(source, refs[..i])
    {
      assert refs[..i + 1] == refs[..i] + [refs[i]];
      if refs[i] !in source.contents {
        return Err("get artefact"), map[];
      }
      contentMap := contentMap[refs[i] := source.contents[refs[i]]];
      artefacts := artefacts + [Declare(h, source, refs[i])];
    }
    assert refs[..|refs|] == refs;
    return Ok(Manifest(importType, sourceFlow, targetFlow, transferId, artefacts)), contentMap;
  }

  function ContentFor(contentMap: map<string, Bytes>, a: ArtefactManifest): Bytes {
    if a.name in contentMap then contentMap[a.name] else []
  }

  function Parts(artefacts: seq<ArtefactManifest>, contentMap: map<string, Bytes>): seq<Bytes> {
    seq(|artefacts|, i requires 0 <= i < |artefacts| => ContentFor(contentMap, artefacts[i]))
  }

  function ContentChunks(parts: seq<Bytes>): seq<Chunk> {
    seq(|parts|, i requires 0 <= i < |parts| => Content(parts[i]))
  }

  /** Header, one content chunk per artefact in manifest order, trailer. */
  function Package(h: Hash, manifest: Manifest, contentMap: map<string, Bytes>): seq<Chunk> {
    var parts := Parts(manifest.artefacts, contentMap);
    [Header(manifest)] + ContentChunks(parts) + [Trailer(ComputeDigest(h, Concat(parts)))]
  }

  method BuildPackageChunks(h: Hash, manifest: Manifest, contentMap: map<string, Bytes>) returns (chunks: seq<Chunk>)
    ensures chunks == Package(h, manifest, contentMap)
  {
    var artefacts := manifest.artefacts;
    chunks := [Header(manifest)];
    var allContent: Bytes := [];
    for i := 0 to |artefacts|
      invariant chunks == [Header(manifest)] + ContentChunks(Parts(artefacts[..i], contentMap))
      invariant allContent == Concat(Parts(artefacts[..i], contentMap))
    {
      var content := ContentFor(contentMap, artefacts[i]);
      assert Parts(artefacts[..i + 1], contentMap) == Parts(artefacts[..i], contentMap) + [content];
      assert (Parts(artefacts[..i], contentMap) + [content])[..i] == Parts(artefacts[..i], contentMap);
      allContent := allContent + content;
      chunks := chunks + [Content(content)];
    }
    assert artefacts[..|artefacts|] == artefacts;
    chunks := chunks + [Trailer(ComputeDigest(h, allContent))];
  }

  // ------------------------------------------------------------------- receiver

  /** The content chunks a receiver keeps: empty ones are dropped. */
  function Contents(chunks: seq<Chunk>): seq<Bytes> {
    if chunks == [] then []
    else
      var last := chunks[|chunks| - 1];
      Contents(chunks[..|chunks| - 1]) + if last.Content? && last.bytes != [] then [last.bytes] else []
  }

  function WithoutHeaders(chunks: seq<Chunk>): seq<Chunk> {
    if chunks == [] then []
    else
      var last := chunks[|chunks| - 1];
      WithoutHeaders(chunks[..|chunks| - 1]) + if last.Header? then [] else [last]
  }

  function FindTrailer(chunks: seq<Chunk>): Option<string> {
    if chunks == [] then None else if chunks[0].Trailer? then Some(chunks[0].digest) else FindTrailer(chunks[1..])
  }

  function ExtractManifest(chunks: seq<Chunk>): Option<Manifest> {
    if chunks == [] then None else if chunks[0].Header? then Some(chunks[0].manifest) else ExtractManifest(chunks[1..])
  }

  /** The artefact's declared digest, if any, is that of the content at its position. */
  ghost predicate DigestAt(h: Hash, artefacts: seq<ArtefactManifest>, contents: seq<Bytes>, i: nat)
    requires i < |artefacts|
  {
    artefacts[i].digest == "" || (i < |contents| && ComputeDigest(h, contents[i]) == artefacts[i].digest)
  }

  /** The trailer's digest, if any, is that of all contents; each declared digest is that of the content at its position. */
  ghost predicate HoldOn(h: Hash, artefacts: seq<ArtefactManifest>, contents: seq<Bytes>, trailer: Option<string>) {
    && (trailer.Some? && trailer.value != "" ==> trailer.value == ComputeDigest(h, Concat(contents)))
    && forall i :: 0 <= i < |artefacts| ==> DigestAt(h, artefacts, contents, i)
  }

  ghost predicate DigestsHold(h: Hash, manifest: Manifest, staged: seq<Chunk>) {
    HoldOn(h, manifest.artefacts, Contents(staged), FindTrailer(staged))
  }

  method VerifyPackageDigests(h: Hash, manifest: Manifest, staged: seq<Chunk>) returns (ok: bool)
    ensures ok <==> DigestsHold(h, manifest, staged)
  {
    var allContent: Bytes := [];
    var contentChunks: seq<Bytes> := [];
    for i := 0 to |staged|
      invariant contentChunks == Contents(staged[..i]) && allContent == Concat(contentChunks)
    {
      assert staged[..i + 1][..i] == staged[..i];
      if staged[i].Content? && staged[i].bytes != [] {
        assert (contentChunks + [staged[i].bytes])[..|contentChunks|] == contentChunks;
        allContent := allContent + staged[i].bytes;
        contentChunks := contentChunks + [staged[i].bytes];
      }
    }
    assert staged[..|staged|] == staged;
    var trailer := FindTrailer(staged);
    if trailer.Some? && trailer.value != "" && ComputeDigest(h, allContent) != trailer.value {
      return false;
    }
    var artefacts := manifest.artefacts;
    for i := 0 to |artefacts|
      invariant forall j :: 0 <= j < i ==> DigestAt(h, artefacts, contentChunks, j)
    {
      if artefacts[i].digest == "" { continue; }
      if i >= |contentChunks| { assert !DigestAt(h, artefacts, contentChunks, i); return false; }
      if ComputeDigest(h, contentChunks[i]) != artefacts[i].digest {
        assert !DigestAt(h, artefacts, contentChunks, i);
        return false;
      }
    }
    return true;
  }

  /** The stager of one inbound transfer. */
  class Stager {
    var manifest: Option<Manifest>
    var chunks: seq<Chunk>

    constructor ()
      ensures manifest == None && chunks == []
    {
      manifest, chunks := None, [];
    }

    method StageManifest(m: Manifest)
      modifies this`manifest
      ensures manifest == Some(m)
    {
      manifest := Some(m);
    }

    method StageChunk(c: Chunk)
      modifies this`chunks
      ensures chunks == old(chunks) + [c]
    {
      chunks := chunks + [c];
    }

    method Complete() returns (r: Result<(Manifest, seq<Chunk>)>)
      ensures manifest.None? <==> r.Err?
      ensures r.Ok? ==> r.value == (manifest.value, chunks)
    {
      if manifest.None? { return Err("no manifest staged"); }
      return Ok((manifest.value, chunks));
    }
  }

  // -------------------------------------------------------- import types, stamps

  datatype ImportSpec = ImportSpec(node: string, requireForeignStamps: map<string, seq<string>>)

  datatype ImportType = ImportType(name: string, builtIn: bool, spec: Option<ImportSpec>)

  datatype Naturalisation = Naturalisation(auto: Option<bool>, requireLocalStamps: seq<string>)

  /** systemTypes maps a name to its built-in flag. */
  datatype EmbassyConfig = EmbassyConfig(systemTypes: map<string, bool>, flowTypes: map<string, ImportSpec>,
                                         naturalisation: Option<Naturalisation>)

  const PETITION_INTAKE := "petition-intake"

  function ResolveImportType(cfg: EmbassyConfig, name: string): Option<ImportType> {
    if name in cfg.systemTypes then Some(ImportType(name, cfg.systemTypes[name], None))
    else if name in cfg.flowTypes then Some(ImportType(name, false, Some(cfg.flowTypes[name])))
    else None
  }

  function ResolveIntakeNode(t: ImportType): string {
    if t.builtIn then PETITION_INTAKE else if t.spec.Some? then t.spec.value.node else ""
  }

  function AutoNaturalise(n: Option<Naturalisation>): bool {
    n.None? || n.value.auto.None? || n.value.auto.value
  }

  /** The artefact's stamps the import type requires, in the order required. */
  function RequiredFor(spec: ImportSpec, a: ArtefactManifest): seq<string> {
    if a.name in spec.requireForeignStamps then spec.requireForeignStamps[a.name] else []
  }

  function Lacking(required: seq<string>, present: seq<string>): seq<string> {
    if required == [] then []
    else
      var last := required[|required| - 1];
      Lacking(required[..|required| - 1], present) + if last in present then [] else [last]
  }

  function MissingForeign(spec: ImportSpec, artefacts: seq<ArtefactManifest>): seq<(string, string)> {
    if artefacts == [] then []
    else
      var a := artefacts[|artefacts| - 1];
      var lacking := Lacking(RequiredFor(spec, a), a.foreignStamps);
      MissingForeign(spec, artefacts[..|artefacts| - 1]) + seq(|lacking|, i requires 0 <= i < |lacking| => (a.name, lacking[i]))
  }

  /** Preflight: empty means every required foreign stamp is on the manifest. */
  method VerifyForeignStamps(t: ImportType, artefacts: seq<ArtefactManifest>) returns (missing: seq<(string, string)>)
    ensures missing == if t.spec.None? then [] else MissingForeign(t.spec.value, artefacts)
  {
    missing := [];
    if t.spec.None? { return; }
    var spec := t.spec.value;
    if |spec.requireForeignStamps| == 0 {
      NothingRequired(spec, artefacts);
      return;
    }
    for i := 0 to |artefacts|
      invariant missing == MissingForeign(spec, artefacts[..i])
    {
      var a := artefacts[i];
      assert artefacts[..i + 1][..i] == artefacts[..i];
      var required := RequiredFor(spec, a);
      ghost var before := missing;
      for j := 0 to |required|
        invariant missing == before + Tagged(a.name, Lacking(required[..j], a.foreignStamps))
      {
        assert required[..j + 1][..j] == required[..j];
        if required[j] !in a.foreignStamps {
          missing := missing + [(a.name, required[j])];
        }
      }
      assert required[..|required|] == required;
    }
    assert artefacts[..|artefacts|] == artefacts;
  }

  function Tagged(name: string, stamps: seq<string>): seq<(string, string)> {
    seq(|stamps|, i requires 0 <= i < |stamps| => (name, stamps[i]))
  }

  lemma {:induction false} NothingRequired(spec: ImportSpec, artefacts: seq<ArtefactManifest>)
    requires spec.requireForeignStamps == map[]
    ensures MissingForeign(spec, artefacts) == []
  {
    if artefacts != [] {
      NothingRequired(spec, artefacts[..|artefacts| - 1]);
    }
  }

  /** "imported-" stamps: one per required stamp that is present, artefact by artefact. */
  function Imported(a: ArtefactManifest, required: seq<string>): seq<(string, string)> {
    if required == [] then []
    else
      var last := required[|required| - 1];
      Imported(a, required[..|required| - 1]) + if last in a.foreignStamps then [(a.name, "imported-" + last)] else []
  }

  function ImportedStamps(spec: ImportSpec, artefacts: seq<ArtefactManifest>): seq<(string, string)> {
    if artefacts == [] then []
    else
      var a := artefacts[|artefacts| - 1];
      ImportedStamps(spec, artefacts[..|artefacts| - 1]) + Imported(a, RequiredFor(spec, a))
  }

  function LocalStamp(stamp: string, artefacts: seq<ArtefactManifest>): seq<(string, string)> {
    seq(|artefacts|, i requires 0 <= i < |artefacts| => (artefacts[i].name, stamp))
  }

  function LocalStamps(stamps: seq<string>, artefacts: seq<ArtefactManifest>): seq<(string, string)> {
    if stamps == [] then []
    else LocalStamps(stamps[..|stamps| - 1], artefacts) + LocalStamp(stamps[|stamps| - 1], artefacts)
  }

  /** Everything naturalisation stamps, in order. */
  function NaturalStamps(n: Option<Naturalisation>, t: ImportType, artefacts: seq<ArtefactManifest>): seq<(string, string)> {
    if !AutoNaturalise(n) then []
    else (if t.spec.Some? then ImportedStamps(t.spec.value, artefacts) else [])
         + (if n.Some? then LocalStamps(n.value.requireLocalStamps, artefacts) else [])
  }

  // ------------------------------------------------------------- materialisation

  /** The local workitem an import creates, through the receiver's Operator and Archivist. */
  class Local {
    var created: nat
    var stores: seq<(string, Bytes)>   // StoreArtefact calls that took effect
    var stamped: seq<(string, string)>
    var routes: seq<string>
    ghost var faults: nat

    constructor ()
      ensures created == 0 && stores == [] && stamped == [] && routes == [] && faults == 0
    {
      created, stores, stamped, routes, faults := 0, [], [], [], 0;
    }

    /** done says whether the call took effect, which a failed one still may have. */
    method Rpc() returns (ok: bool, done: bool)
      modifies this`faults
      ensures faults == old(faults) + if ok then 0 else 1
      ensures ok ==> done
    {
      ok := *;
      done := *;
      if ok { done := true; } else { faults := faults + 1; }
    }

    method StoreArtefact(name: string, content: Bytes) returns (ok: bool)
      modifies this`faults, this`stores
      ensures faults == old(faults) + if ok then 0 else 1
      ensures stores == old(stores) + [(name, content)] || (!ok && stores == old(stores))
    {
      var done;
      ok, done := Rpc();
      if done { stores := stores + [(name, content)]; }
    }

    method StampArtefact(name: string, stamp: string) returns (ok: bool)
      modifies this`faults, this`stamped
      ensures faults == old(faults) + if ok then 0 else 1
      ensures stamped == old(stamped) + [(name, stamp)] || (!ok && stamped == old(stamped))
    {
      var done;
      ok, done := Rpc();
      if done { stamped := stamped + [(name, stamp)]; }
    }

    method ApplyNaturalisationStamps(n: Option<Naturalisation>, t: ImportType, artefacts: seq<ArtefactManifest>) returns (ok: bool)
      modifies this`faults, this`stamped
      ensures faults >= old(faults) && (faults == old(faults) <==> ok)
      ensures ok ==> stamped == old(stamped) + NaturalStamps(n, t, artefacts)
    {
      if !AutoNaturalise(n) { return true; }
      ghost var imported := if t.spec.Some? then ImportedStamps(t.spec.value, artefacts) else [];
      ghost var added := if n.Some? then LocalStamps(n.value.requireLocalStamps, artefacts) else [];
      if t.spec.Some? {
        ok := StampImported(t.spec.value, artefacts);
        if !ok { return; }
      }
      assert stamped == old(stamped) + imported;
      if n.Some? {
        ok := StampLocal(n.value.requireLocalStamps, artefacts);
        if !ok { return; }
      }
      assert stamped == old(stamped) + imported + added;
      assert old(stamped) + imported + added == old(stamped) + (imported + added);
      return true;
    }

    method StampImported(spec: ImportSpec, artefacts: seq<ArtefactManifest>) returns (ok: bool)
      modifies this`faults, this`stamped
      ensures faults >= old(faults) && (faults == old(faults) <==> ok)
      ensures ok ==> stamped == old(stamped) + ImportedStamps(spec, artefacts)
    {
      for i := 0 to |artefacts|
        invariant faults == old(faults) && stamped == old(stamped) + ImportedStamps(spec, artefacts[..i])
      {
        assert artefacts[..i + 1][..i] == artefacts[..i];
        ok := StampRequired(artefacts[i], RequiredFor(spec, artefacts[i]));
        if !ok { return; }
      }
      assert artefacts[..|artefacts|] == artefacts;
      return true;
    }

    method StampRequired(a: ArtefactManifest, required: seq<string>) returns (ok: bool)
      modifies this`faults, this`stamped
      ensures faults >= old(faults) && (faults == old(faults) <==> ok)
      ensures ok ==> stamped == old(stamped) + Imported(a, required)
    {
      for i := 0 to |required|
        invariant faults == old(faults) && stamped == old(stamped) + Imported(a, required[..i])
      {
        assert required[..i + 1][..i] == required[..i];
        if required[i] !in a.foreignStamps { continue; }
        ok := StampArtefact(a.name, "imported-" + required[i]);
        if !ok { return; }
      }
      assert required[..|required|] == required;
      return true;
    }

    method StampLocal(stamps: seq<string>, artefacts: seq<ArtefactManifest>) returns (ok: bool)
      modifies this`faults, this`stamped
      ensures faults >= old(faults) && (faults == old(faults) <==> ok)
      ensures ok ==> stamped == old(stamped) + LocalStamps(stamps, artefacts)
    {
      for i := 0 to |stamps|
        invariant faults == old(faults) && stamped == old(stamped) + LocalStamps(stamps[..i], artefacts)
      {
        assert stamps[..i + 1][..i] == stamps[..i];
        ghost var before := stamped;
        for j := 0 to |artefacts|
          invariant faults == old(faults) && stamped == before + LocalStamp(stamps[i], artefacts[..j])
        {
          ok := StampArtefact(artefacts[j].name, stamps[i]);
          if !ok { return; }
        }
        assert artefacts[..|artefacts|] == artefacts;
      }
      assert stamps[..|stamps|] == stamps;
      return true;
    }

    /** Creates the workitem, stores content i under artefact i's name, stamps, routes. */
    method MaterializeImport(n: Option<Naturalisation>, t: ImportType, manifest: Manifest, staged: seq<Chunk>) returns (ok: bool)
      modifies this
      ensures faults >= old(faults)
      ensures exists k :: 0 <= k <= |manifest.artefacts| && k <= |Contents(staged)|
                && stores == old(stores) + Aligned(manifest.artefacts, Contents(staged), k)
      ensures ok ==>
                && |manifest.artefacts| <= |Contents(staged)|
                && created == old(created) + 1
                && stores == old(stores) + Aligned(manifest.artefacts, Contents(staged), |manifest.artefacts|)
                && stamped == old(stamped) + NaturalStamps(n, t, manifest.artefacts)
                && routes == old(routes) + [ResolveIntakeNode(t)]
      ensures ok ==> ResolveIntakeNode(t) != ""
      ensures created <= old(created) + 1
      ensures !ok ==> routes == old(routes) || routes == old(routes) + [ResolveIntakeNode(t)]
      ensures faults == old(faults) ==>
                (ok <==> |manifest.artefacts| <= |Contents(staged)| && ResolveIntakeNode(t) != "")
    {
      ghost var none := Aligned(manifest.artefacts, Contents(staged), 0);
      assert stores == old(stores) + none;
      var done;
      ok, done := Rpc();
      if done { created := created + 1; }
      if !ok { return; }
      var contentChunks: seq<Bytes> := [];
      for i := 0 to |staged|
        invariant contentChunks == Contents(staged[..i])
      {
        assert staged[..i + 1][..i] == staged[..i];
        if staged[i].Content? && staged[i].bytes != [] {
          contentChunks := contentChunks + [staged[i].bytes];
        }
      }
      assert staged[..|staged|] == staged;
      var artefacts := manifest.artefacts;
      for i := 0 to |artefacts|
        invariant i <= |contentChunks| && faults == old(faults)
        invariant created == old(created) + 1 && stamped == old(stamped) && routes == old(routes)
        invariant stores == old(stores) + Aligned(artefacts, contentChunks, i)
      {
        if i >= |contentChunks| { return false; }
        ok := StoreArtefact(artefacts[i].name, contentChunks[i]);
        assert Aligned(artefacts, contentChunks, i + 1)
            == Aligned(artefacts, contentChunks, i) + [(artefacts[i].name, contentChunks[i])];
        assert stores == old(stores) + Aligned(artefacts, contentChunks, i + 1)
               || (!ok && stores == old(stores) + Aligned(artefacts, contentChunks, i));
        if !ok { return; }
      }
      ok := ApplyNaturalisationStamps(n, t, artefacts);
      if !ok { return; }
      var intake := ResolveIntakeNode(t);
      if intake == "" { return false; }
      ok, done := Rpc();
      if done { routes := routes + [intake]; }
    }

    /** The receiver: extract, resolve, stage, verify, materialise. */
    method StreamPackage(h: Hash, cfg: EmbassyConfig, chunks: seq<Chunk>) returns (ok: bool)
      modifies this
      ensures faults >= old(faults)
      // Whatever happens, every store carries the content its artefact declared.
      ensures ExtractManifest(chunks).None? ==> !ok && stores == old(stores)
      ensures ExtractManifest(chunks).Some? ==>
                exists k :: 0 <= k <= |ExtractManifest(chunks).value.artefacts|
                  && TrueStores(h, ExtractManifest(chunks).value.artefacts, old(stores), stores, k)
      ensures ok ==> Accepts(h, cfg, chunks) && created == old(created) + 1
      ensures ok ==> Unpacked(cfg, chunks, old(stores), stores, old(stamped), stamped, old(routes), routes)
      ensures faults == old(faults) ==> (ok <==> Accepts(h, cfg, chunks))
      ensures !Verified(h, chunks) ==> created == old(created) && stores == old(stores) && stamped == old(stamped)
    {
      var manifest := ExtractManifest(chunks);
      if manifest.None? { return false; }
      assert TrueStores(h, manifest.value.artefacts, old(stores), stores, 0);
      var t := ResolveImportType(cfg, manifest.value.importType);
      if t.None? { return false; }
      var stager := new Stager();
      stager.StageManifest(manifest.value);
      for i := 0 to |chunks|
        invariant stager.manifest == manifest && stager.chunks == WithoutHeaders(chunks[..i])
        invariant unchanged(this) && fresh(stager)
      {
        assert chunks[..i + 1][..i] == chunks[..i];
        if chunks[i].Header? { continue; }
        stager.StageChunk(chunks[i]);
      }
      assert chunks[..|chunks|] == chunks;
      var staged := stager.Complete();
      if staged.Err? { return false; }
      var verified := VerifyPackageDigests(h, staged.value.0, staged.value.1);
      if !verified { return false; }
      ok := MaterializeImport(cfg.naturalisation, t.value, staged.value.0, staged.value.1);
      ghost var contents := Contents(WithoutHeaders(chunks));
      ghost var k :| 0 <= k <= |manifest.value.artefacts| && k <= |contents|
        && stores == old(stores) + Aligned(manifest.value.artefacts, contents, k);
      ContentsNonEmpty(WithoutHeaders(chunks));
      AlignedIsTrue(h, manifest.value.artefacts, contents, old(stores), k);
    }
  }

  /** The first k artefact names with the contents at their positions. */
  function Aligned(artefacts: seq<ArtefactManifest>, contents: seq<Bytes>, k: int): seq<(string, Bytes)>
    requires 0 <= k <= |artefacts| && k <= |contents|
  {
    seq(k, i requires 0 <= i < k => (artefacts[i].name, contents[i]))
  }

  /** k stores were made, the i-th for artefact i, non-empty and with the digest declared for it. */
  ghost predicate TrueStores(h: Hash, artefacts: seq<ArtefactManifest>, before: seq<(string, Bytes)>, after: seq<(string, Bytes)>, k: int)
    requires 0 <= k <= |artefacts|
  {
    && |after| == |before| + k && after[..|before|] == before
    && forall i :: 0 <= i < k ==>
         var (name, content) := after[|before| + i];
         name == artefacts[i].name && content != []
         && (artefacts[i].digest == "" || ComputeDigest(h, content) == artefacts[i].digest)
  }

  lemma AlignedIsTrue(h: Hash, artefacts: seq<ArtefactManifest>, contents: seq<Bytes>, before: seq<(string, Bytes)>, k: int)
    requires 0 <= k <= |artefacts| && k <= |contents|
    requires forall i :: 0 <= i < |artefacts| ==> DigestAt(h, artefacts, contents, i)
    requires forall i :: 0 <= i < |contents| ==> contents[i] != []
    ensures TrueStores(h, artefacts, before, before + Aligned(artefacts, contents, k), k)
  {
    var after := before + Aligned(artefacts, contents, k);
    assert forall i :: 0 <= i < k ==> after[|before| + i] == (artefacts[i].name, contents[i]) && DigestAt(h, artefacts, contents, i);
  }

  lemma {:induction false} ContentsNonEmpty(chunks: seq<Chunk>)
    ensures forall i :: 0 <= i < |Contents(chunks)| ==> Contents(chunks)[i] != []
  {
    if chunks != [] {
      ContentsNonEmpty(chunks[..|chunks| - 1]);
    }
  }

  ghost predicate Verified(h: Hash, chunks: seq<Chunk>) {
    ExtractManifest(chunks).Some? && DigestsHold(h, ExtractManifest(chunks).value, WithoutHeaders(chunks))
  }

  /** The conditions under which a receiver with working services takes the package. */
  ghost predicate Accepts(h: Hash, cfg: EmbassyConfig, chunks: seq<Chunk>) {
    && Verified(h, chunks)
    && var manifest := ExtractManifest(chunks).value;
       var t := ResolveImportType(cfg, manifest.importType);
       && t.Some? && ResolveIntakeNode(t.value) != ""
       && |manifest.artefacts| <= |Contents(WithoutHeaders(chunks))|
  }

  /** What acceptance leaves behind. */
  ghost predicate Unpacked(cfg: EmbassyConfig, chunks: seq<Chunk>, stores: seq<(string, Bytes)>, stores': seq<(string, Bytes)>,
                           stamped: seq<(string, string)>, stamped': seq<(string, string)>, routes: seq<string>, routes': seq<string>)
    requires ExtractManifest(chunks).Some?
  {
    var m, contents := ExtractManifest(chunks).value, Contents(WithoutHeaders(chunks));
    var t := ResolveImportType(cfg, m.importType);
    && t.Some? && |m.artefacts| <= |contents|
    && stores' == stores + Aligned(m.artefacts, contents, |m.artefacts|)
    && stamped' == stamped + NaturalStamps(cfg.naturalisation, t.value, m.artefacts)
    && routes' == routes + [ResolveIntakeNode(t.value)]
  }
}
