/** Export and import undo each other exactly for packages without empty artefacts. */
module EmbassyTheorems {
  import opened Prelude
  import opened Embassy

  lemma {:induction false} ContentsAppend(x: seq<Chunk>, y: seq<Chunk>)
    ensures Contents(x + y) == Contents(x) + Contents(y)
    decreases |y|
  {
    if y == [] {
      assert x + y == x;
    } else {
      assert (x + y)[..|x + y| - 1] == x + y[..|y| - 1];
      ContentsAppend(x, y[..|y| - 1]);
    }
  }

  /** The parts a receiver keeps. */
  function NonEmpty(parts: seq<Bytes>): seq<Bytes> {
    if parts == [] then []
    else
      var last := parts[|parts| - 1];
      NonEmpty(parts[..|parts| - 1]) + if last != [] then [last] else []
  }

  lemma {:induction false} ContentsOfParts(parts: seq<Bytes>)
    ensures Contents(ContentChunks(parts)) == NonEmpty(parts)
  {
    if parts != [] {
      var n := |parts| - 1;
      ContentsOfParts(parts[..n]);
      assert ContentChunks(parts)[..n] == ContentChunks(parts[..n]);
    }
  }

  lemma {:induction false} DropsNothingIff(parts: seq<Bytes>)
    ensures |NonEmpty(parts)| <= |parts|
    ensures |NonEmpty(parts)| == |parts| <==> forall i :: 0 <= i < |parts| ==> parts[i] != []
    ensures |NonEmpty(parts)| == |parts| ==> NonEmpty(parts) == parts
  {
    if parts != [] {
      var n := |parts| - 1;
      var before := parts[..n];
      DropsNothingIff(before);
      LastPart(before, parts[n]);
      assert parts == before + [parts[n]];
    }
  }

  lemma LastPart(before: seq<Bytes>, last: Bytes)
    ensures NonEmpty(before + [last]) == NonEmpty(before) + if last != [] then [last] else []
    ensures (forall i :: 0 <= i <= |before| ==> (before + [last])[i] != []) <==>
            (forall i :: 0 <= i < |before| ==> before[i] != []) && last != []
  {
    var all := before + [last];
    assert all[..|before|] == before;
    assert forall i :: 0 <= i < |before| ==> all[i] == before[i];
  }

  /** Dropping empty parts does not change the bytes the trailer's digest covers. */
  lemma {:induction false} SameBytes(parts: seq<Bytes>)
    ensures Concat(NonEmpty(parts)) == Concat(parts)
  {
    if parts != [] {
      var n := |parts| - 1;
      var kept := NonEmpty(parts[..n]);
      SameBytes(parts[..n]);
      if parts[n] != [] {
        assert (kept + [parts[n]])[..|kept|] == kept;
      } else {
        assert Concat(parts[..n]) + [] == Concat(parts[..n]) && kept + [] == kept;
      }
    }
  }

  lemma {:induction false} NoHeadersToDrop(chunks: seq<Chunk>)
    requires forall i :: 0 <= i < |chunks| ==> !chunks[i].Header?
    ensures WithoutHeaders(chunks) == chunks
  {
    if chunks != [] {
      NoHeadersToDrop(chunks[..|chunks| - 1]);
    }
  }

  lemma {:induction false} WithoutFirstHeader(m: Manifest, chunks: seq<Chunk>)
    ensures WithoutHeaders([Header(m)] + chunks) == WithoutHeaders(chunks)
  {
    var all := [Header(m)] + chunks;
    if chunks == [] {
      assert all[..0] == [];
    } else {
      assert all[..|all| - 1] == [Header(m)] + chunks[..|chunks| - 1];
      WithoutFirstHeader(m, chunks[..|chunks| - 1]);
    }
  }

  lemma {:induction false} TrailerAfterContents(parts: seq<Bytes>, digest: string)
    ensures FindTrailer(ContentChunks(parts) + [Trailer(digest)]) == Some(digest)
  {
    var chunks := ContentChunks(parts) + [Trailer(digest)];
    if parts == [] {
      assert chunks == [Trailer(digest)];
    } else {
      assert chunks[1..] == ContentChunks(parts[1..]) + [Trailer(digest)];
      TrailerAfterContents(parts[1..], digest);
    }
  }

  /** What the receiver reads out of a package the sender printed. */
  lemma PackageReadsBack(h: Hash, m: Manifest, contentMap: map<string, Bytes>)
    ensures var chunks, parts := Package(h, m, contentMap), Parts(m.artefacts, contentMap);
            && ExtractManifest(chunks) == Some(m)
            && Contents(WithoutHeaders(chunks)) == NonEmpty(parts)
            && FindTrailer(WithoutHeaders(chunks)) == Some(ComputeDigest(h, Concat(parts)))
  {
    var parts := Parts(m.artefacts, contentMap);
    var digest := ComputeDigest(h, Concat(parts));
    var body := ContentChunks(parts) + [Trailer(digest)];
    assert Package(h, m, contentMap) == [Header(m)] + body;
    WithoutFirstHeader(m, body);
    NoHeadersToDrop(body);
    assert WithoutHeaders(Package(h, m, contentMap)) == body;
    BodyReadsBack(parts, digest);
  }

  lemma BodyReadsBack(parts: seq<Bytes>, digest: string)
    ensures var body := ContentChunks(parts) + [Trailer(digest)];
            Contents(body) == NonEmpty(parts) && FindTrailer(body) == Some(digest)
  {
    ContentsAppend(ContentChunks(parts), [Trailer(digest)]);
    assert [Trailer(digest)][..0] == [];
    ContentsOfParts(parts);
    TrailerAfterContents(parts, digest);
  }

  ghost predicate NoEmptyArtefact(source: Source, refs: seq<string>)
    requires AllHeld(source, refs)
  {
    forall i :: 0 <= i < |refs| ==> source.contents[refs[i]] != []
  }

  /**
   * A package exported from any artefact list passes every digest check exactly when no artefact is
   * empty: the trailer always agrees, but a dropped empty chunk leaves the last artefact without content.
   */
  lemma ExportVerifiesIff(h: Hash, source: Source, refs: seq<string>, m: Manifest)
    requires refs != [] && AllHeld(source, refs) && m.artefacts == Declarations(h, source, refs)
    ensures Verified(h, Package(h, m, ContentMap(source, refs))) <==> NoEmptyArtefact(source, refs)
    ensures |m.artefacts| <= |Contents(WithoutHeaders(Package(h, m, ContentMap(source, refs))))| <==> NoEmptyArtefact(source, refs)
  {
    var contentMap := ContentMap(source, refs);
    var parts := Parts(m.artefacts, contentMap);
    PackageReadsBack(h, m, contentMap);
    PartsAreTheContents(h, source, refs, m.artefacts);
    HoldsOnKept(h, m.artefacts, parts);
    DropsNothingIff(parts);
  }

  lemma PartsAreTheContents(h: Hash, source: Source, refs: seq<string>, artefacts: seq<ArtefactManifest>)
    requires AllHeld(source, refs) && artefacts == Declarations(h, source, refs)
    ensures var parts := Parts(artefacts, ContentMap(source, refs));
            && |parts| == |artefacts| == |refs|
            && (forall i :: 0 <= i < |parts| ==>
                  parts[i] == source.contents[refs[i]] && artefacts[i].digest == ComputeDigest(h, parts[i]))
            && ((forall i :: 0 <= i < |parts| ==> parts[i] != []) <==> NoEmptyArtefact(source, refs))
  {
    var parts := Parts(artefacts, ContentMap(source, refs));
    forall i | 0 <= i < |refs| ensures parts[i] == source.contents[refs[i]] {
    }
  }

  lemma HoldsOnKept(h: Hash, artefacts: seq<ArtefactManifest>, parts: seq<Bytes>)
    requires |artefacts| == |parts| && parts != []
    requires forall i :: 0 <= i < |parts| ==> artefacts[i].digest == ComputeDigest(h, parts[i])
    ensures HoldOn(h, artefacts, NonEmpty(parts), Some(ComputeDigest(h, Concat(parts)))) <==> |NonEmpty(parts)| == |parts|
  {
    SameBytes(parts);
    DigestsByPosition(h, artefacts, parts);
  }

  /** Declared digests of the parts hold on the parts kept exactly when all are kept. */
  lemma DigestsByPosition(h: Hash, artefacts: seq<ArtefactManifest>, parts: seq<Bytes>)
    requires |artefacts| == |parts| && parts != []
    requires forall i :: 0 <= i < |parts| ==> artefacts[i].digest == ComputeDigest(h, parts[i])
    ensures (forall i :: 0 <= i < |artefacts| ==> DigestAt(h, artefacts, NonEmpty(parts), i)) <==> |NonEmpty(parts)| == |parts|
  {
    DropsNothingIff(parts);
    if |NonEmpty(parts)| < |parts| {
      assert !DigestAt(h, artefacts, NonEmpty(parts), |parts| - 1);
    }
  }

  /** The map the receiver's Archivist ends up with after the given stores. */
  function StoredMap(stores: seq<(string, Bytes)>): map<string, Bytes> {
    if stores == [] then map[]
    else StoredMap(stores[..|stores| - 1])[stores[|stores| - 1].0 := stores[|stores| - 1].1]
  }

  lemma {:induction false} StoredMapOf(stores: seq<(string, Bytes)>, source: Source, refs: seq<string>)
    requires AllHeld(source, refs) && |stores| == |refs|
    requires forall i :: 0 <= i < |refs| ==> stores[i] == (refs[i], source.contents[refs[i]])
    ensures StoredMap(stores) == ContentMap(source, refs)
  {
    if refs != [] {
      var n := |refs| - 1;
      assert forall i :: 0 <= i < n ==> refs[..n][i] == refs[i];
      StoredMapOf(stores[..n], source, refs[..n]);
      assert refs == refs[..n] + [refs[n]];
    }
  }

  /**
   * Round trip, first half: for any artefact list (repeats included), a receiver that knows the import type
   * accepts the exported package exactly when no artefact is empty.
   */
  lemma ExportIsAcceptedIff(h: Hash, cfg: EmbassyConfig, source: Source, refs: seq<string>, m: Manifest)
    requires refs != [] && AllHeld(source, refs) && m.artefacts == Declarations(h, source, refs)
    requires ResolveImportType(cfg, m.importType).Some? && ResolveIntakeNode(ResolveImportType(cfg, m.importType).value) != ""
    ensures Accepts(h, cfg, Package(h, m, ContentMap(source, refs))) <==> NoEmptyArtefact(source, refs)
  {
    PackageReadsBack(h, m, ContentMap(source, refs));
    ExportVerifiesIff(h, source, refs, m);
  }

  /** Round trip, second half: whatever acceptance leaves in a fresh Archivist is exactly the exported contents. */
  lemma RoundTripContents(h: Hash, cfg: EmbassyConfig, source: Source, refs: seq<string>, m: Manifest,
                          stores': seq<(string, Bytes)>, stamped': seq<(string, string)>, routes': seq<string>)
    requires AllHeld(source, refs) && m.artefacts == Declarations(h, source, refs) && NoEmptyArtefact(source, refs)
    requires var chunks := Package(h, m, ContentMap(source, refs));
             ExtractManifest(chunks).Some? && Unpacked(cfg, chunks, [], stores', [], stamped', [], routes')
    ensures StoredMap(stores') == ContentMap(source, refs)
  {
    PackageReadsBack(h, m, ContentMap(source, refs));
    KeptInPlace(h, source, refs, m.artefacts);
    var kept := NonEmpty(Parts(m.artefacts, ContentMap(source, refs)));
    UnpackedStores(cfg, Package(h, m, ContentMap(source, refs)), m, kept, stores', stamped', routes');
    StoredMapOf(stores', source, refs);
  }

  lemma UnpackedStores(cfg: EmbassyConfig, chunks: seq<Chunk>, m: Manifest, kept: seq<Bytes>,
                       stores': seq<(string, Bytes)>, stamped': seq<(string, string)>, routes': seq<string>)
    requires ExtractManifest(chunks) == Some(m) && Contents(WithoutHeaders(chunks)) == kept
    requires Unpacked(cfg, chunks, [], stores', [], stamped', [], routes')
    ensures |m.artefacts| <= |kept| && stores' == Aligned(m.artefacts, kept, |m.artefacts|)
  {
  }

  /** What the receiver aligns with the manifest is, position by position, what the sender held under that name. */
  lemma KeptInPlace(h: Hash, source: Source, refs: seq<string>, artefacts: seq<ArtefactManifest>)
    requires AllHeld(source, refs) && artefacts == Declarations(h, source, refs) && NoEmptyArtefact(source, refs)
    ensures var kept := NonEmpty(Parts(artefacts, ContentMap(source, refs)));
            && |kept| == |artefacts| == |refs|
            && forall i :: 0 <= i < |refs| ==> Aligned(artefacts, kept, |artefacts|)[i] == (refs[i], source.contents[refs[i]])
  {
    DropsNothingIff(Parts(artefacts, ContentMap(source, refs)));
    PartsAreTheContents(h, source, refs, artefacts);
  }

  // ---------------------------------------------------- preflight and naturalisation

  /** Every required stamp, whether present or not. */
  function AllImported(name: string, required: seq<string>): seq<(string, string)> {
    seq(|required|, i requires 0 <= i < |required| => (name, "imported-" + required[i]))
  }

  function AllImportedStamps(spec: ImportSpec, artefacts: seq<ArtefactManifest>): seq<(string, string)> {
    if artefacts == [] then []
    else
      var a := artefacts[|artefacts| - 1];
      AllImportedStamps(spec, artefacts[..|artefacts| - 1]) + AllImported(a.name, RequiredFor(spec, a))
  }

  lemma {:induction false} NothingLacking(a: ArtefactManifest, required: seq<string>)
    requires Lacking(required, a.foreignStamps) == []
    ensures Imported(a, required) == AllImported(a.name, required)
  {
    if required != [] {
      var n := |required| - 1;
      NothingLacking(a, required[..n]);
      assert AllImported(a.name, required) == AllImported(a.name, required[..n]) + [(a.name, "imported-" + required[n])];
    }
  }

  /** After a clean preflight of the manifest, naturalisation skips nothing: every required stamp is imported, in order. */
  lemma {:induction false} PreflightMakesImportComplete(spec: ImportSpec, artefacts: seq<ArtefactManifest>)
    requires MissingForeign(spec, artefacts) == []
    ensures ImportedStamps(spec, artefacts) == AllImportedStamps(spec, artefacts)
  {
    if artefacts != [] {
      var a := artefacts[|artefacts| - 1];
      PreflightMakesImportComplete(spec, artefacts[..|artefacts| - 1]);
      NothingLacking(a, RequiredFor(spec, a));
    }
  }

  /** The import type demands the stamp on artefacts of that name. */
  predicate Demanded(spec: ImportSpec, name: string, stamp: string) {
    name in spec.requireForeignStamps && stamp in spec.requireForeignStamps[name]
  }

  lemma {:induction false} LackingMeaning(required: seq<string>, present: seq<string>, stamp: string)
    ensures stamp in Lacking(required, present) <==> stamp in required && stamp !in present
  {
    if required != [] {
      var n := |required| - 1;
      LackingMeaning(required[..n], present, stamp);
      assert required == required[..n] + [required[n]];
    }
  }

  lemma {:induction false} ImportedMeaning(a: ArtefactManifest, required: seq<string>, name: string, stamp: string)
    ensures (name, "imported-" + stamp) in Imported(a, required) <==> name == a.name && stamp in required && stamp in a.foreignStamps
  {
    if required != [] {
      var n := |required| - 1;
      ImportedMeaning(a, required[..n], name, stamp);
      assert required == required[..n] + [required[n]];
      assert ("imported-" + stamp)[9..] == stamp && ("imported-" + required[n])[9..] == required[n];
    }
  }

  /**
   * Preflight and naturalisation split the demanded stamps between them: one reports those an artefact
   * came without, the other imports those it came with.
   */
  lemma {:induction false} PreflightAndImportSplit(spec: ImportSpec, artefacts: seq<ArtefactManifest>, name: string, stamp: string)
    ensures (name, stamp) in MissingForeign(spec, artefacts)
       <==> exists a :: a in artefacts && a.name == name && Demanded(spec, name, stamp) && stamp !in a.foreignStamps
    ensures (name, "imported-" + stamp) in ImportedStamps(spec, artefacts)
       <==> exists a :: a in artefacts && a.name == name && Demanded(spec, name, stamp) && stamp in a.foreignStamps
  {
    if artefacts != [] {
      var n := |artefacts| - 1;
      var a := artefacts[n];
      PreflightAndImportSplit(spec, artefacts[..n], name, stamp);
      assert artefacts == artefacts[..n] + [a];
      LackingMeaning(RequiredFor(spec, a), a.foreignStamps, stamp);
      ImportedMeaning(a, RequiredFor(spec, a), name, stamp);
      var lacking := Lacking(RequiredFor(spec, a), a.foreignStamps);
      var tagged := seq(|lacking|, i requires 0 <= i < |lacking| => (a.name, lacking[i]));
      assert (name, stamp) in tagged <==> name == a.name && stamp in lacking by {
        if name == a.name && stamp in lacking {
          var i :| 0 <= i < |lacking| && lacking[i] == stamp;
          assert tagged[i] == (name, stamp);
        }
      }
    }
  }

  /** The local stamps go on every artefact of the manifest, and nowhere else. */
  lemma {:induction false} LocalStampsMeaning(stamps: seq<string>, artefacts: seq<ArtefactManifest>, name: string, stamp: string)
    ensures (name, stamp) in LocalStamps(stamps, artefacts) <==> stamp in stamps && exists a :: a in artefacts && a.name == name
  {
    if stamps != [] {
      var n := |stamps| - 1;
      LocalStampsMeaning(stamps[..n], artefacts, name, stamp);
      assert stamps == stamps[..n] + [stamps[n]];
      var last := LocalStamp(stamps[n], artefacts);
      assert (name, stamp) in last <==> stamp == stamps[n] && exists a :: a in artefacts && a.name == name by {
        if a :| stamp == stamps[n] && a in artefacts && a.name == name {
          var i :| 0 <= i < |artefacts| && artefacts[i] == a;
          assert last[i] == (name, stamp);
        }
      }
    }
  }

  lemma {:induction false} ImportedShape(spec: ImportSpec, artefacts: seq<ArtefactManifest>, name: string, x: string)
    requires (name, x) in ImportedStamps(spec, artefacts)
    ensures exists stamp :: x == "imported-" + stamp
  {
    var n := |artefacts| - 1;
    if (name, x) in ImportedStamps(spec, artefacts[..n]) {
      ImportedShape(spec, artefacts[..n], name, x);
    } else {
      OneImportedShape(artefacts[n], RequiredFor(spec, artefacts[n]), name, x);
    }
  }

  lemma {:induction false} OneImportedShape(a: ArtefactManifest, required: seq<string>, name: string, x: string)
    requires (name, x) in Imported(a, required)
    ensures exists stamp :: x == "imported-" + stamp
  {
    var n := |required| - 1;
    if (name, x) in Imported(a, required[..n]) {
      OneImportedShape(a, required[..n], name, x);
    } else {
      assert x == "imported-" + required[n];
    }
  }

  lemma {:induction false} FindTrailerMeaning(chunks: seq<Chunk>, digest: string)
    ensures FindTrailer(chunks) == Some(digest)
       <==> exists k :: 0 <= k < |chunks| && chunks[k] == Trailer(digest) && forall j :: 0 <= j < k ==> !chunks[j].Trailer?
  {
    if chunks != [] && !chunks[0].Trailer? {
      var rest := chunks[1..];
      FindTrailerMeaning(rest, digest);
      if k :| 0 <= k < |rest| && rest[k] == Trailer(digest) && forall j :: 0 <= j < k ==> !rest[j].Trailer? {
        assert chunks[k + 1] == Trailer(digest) && forall j :: 0 < j < k + 1 ==> chunks[j] == rest[j - 1];
      }
      if k :| 0 <= k < |chunks| && chunks[k] == Trailer(digest) && forall j :: 0 <= j < k ==> !chunks[j].Trailer? {
        assert rest[k - 1] == Trailer(digest) && forall j :: 0 <= j < k - 1 ==> rest[j] == chunks[j + 1];
      }
    } else if chunks != [] {
      assert chunks[0].Trailer? && (FindTrailer(chunks) == Some(digest) ==> chunks[0] == Trailer(digest));
    }
  }

  lemma {:induction false} TrailerWithoutHeaders(chunks: seq<Chunk>)
    ensures FindTrailer(WithoutHeaders(chunks)) == FindTrailer(chunks)
    decreases |chunks|
  {
    if chunks != [] {
      var n := |chunks| - 1;
      TrailerWithoutHeaders(chunks[..n]);
      TrailerAppend(chunks[..n], chunks[n]);
      assert chunks == chunks[..n] + [chunks[n]];
      var kept := WithoutHeaders(chunks[..n]);
      assert kept + [] == kept;
      TrailerAppend(kept, chunks[n]);
    }
  }

  lemma {:induction false} ContentsWithoutHeaders(chunks: seq<Chunk>)
    ensures Contents(WithoutHeaders(chunks)) == Contents(chunks)
    decreases |chunks|
  {
    if chunks != [] {
      var n := |chunks| - 1;
      ContentsWithoutHeaders(chunks[..n]);
      ContentsAppend(WithoutHeaders(chunks[..n]), if chunks[n].Header? then [] else [chunks[n]]);
      assert [chunks[n]][..0] == [];
      assert Contents(chunks[..n]) + [] == Contents(chunks[..n]);
    }
  }

  lemma {:induction false} TrailerAppend(chunks: seq<Chunk>, last: Chunk)
    ensures FindTrailer(chunks + [last])
         == if FindTrailer(chunks).Some? then FindTrailer(chunks) else if last.Trailer? then Some(last.digest) else None
  {
    if chunks == [] {
      assert (chunks + [last])[1..] == [];
    } else {
      assert (chunks + [last])[1..] == chunks[1..] + [last];
      TrailerAppend(chunks[1..], last);
    }
  }

  /** A package whose first trailer names a digest is accepted only if that is the digest of all its content bytes. */
  lemma TrailerPinsBytes(h: Hash, cfg: EmbassyConfig, chunks: seq<Chunk>, k: nat)
    requires Accepts(h, cfg, chunks) && k < |chunks| && chunks[k].Trailer? && chunks[k].digest != ""
    requires forall j :: 0 <= j < k ==> !chunks[j].Trailer?
    ensures chunks[k].digest == "sha256:" + h(AllBytes(chunks))
  {
    FindTrailerMeaning(chunks, chunks[k].digest);
    TrailerWithoutHeaders(chunks);
    ContentsWithoutHeaders(chunks);
    ContentBytes(chunks);
  }

  /** The bytes of all content chunks, one after the other. */
  function AllBytes(chunks: seq<Chunk>): Bytes {
    if chunks == [] then []
    else (if chunks[0].Content? then chunks[0].bytes else []) + AllBytes(chunks[1..])
  }

  lemma {:induction false} ContentBytes(chunks: seq<Chunk>)
    ensures Concat(Contents(chunks)) == AllBytes(chunks)
  {
    if chunks != [] {
      ContentBytes(chunks[1..]);
      ContentsAppend([chunks[0]], chunks[1..]);
      assert chunks == [chunks[0]] + chunks[1..];
      assert [chunks[0]][..0] == [];
      ConcatAppend(Contents([chunks[0]]), Contents(chunks[1..]));
      var first := if chunks[0].Content? then chunks[0].bytes else [];
      OneContent(chunks[0], first);
    }
  }

  lemma OneContent(chunk: Chunk, bytes: Bytes)
    requires bytes == if chunk.Content? then chunk.bytes else []
    ensures Concat(Contents([chunk])) == bytes
  {
    assert [chunk][..0] == [] && Contents([]) == [];
    assert Contents([chunk]) == if bytes != [] then [bytes] else [];
    if bytes != [] { assert [bytes][..0] == []; }
  }

  lemma {:induction false} ConcatAppend(x: seq<Bytes>, y: seq<Bytes>)
    ensures Concat(x + y) == Concat(x) + Concat(y)
    decreases |y|
  {
    if y == [] {
      assert x + y == x;
    } else {
      assert (x + y)[..|x + y| - 1] == x + y[..|y| - 1];
      ConcatAppend(x, y[..|y| - 1]);
    }
  }

  /**
   * Where an accepted import goes: built-in types always to the petition intake, whatever the flow
   * configures under their name; other types to their configured node. With naturalisation switched off it
   * gets no stamp; otherwise exactly the demanded stamps it came with, as imported, and every local stamp on
   * every artefact.
   */
  lemma ImportOutcome(cfg: EmbassyConfig, chunks: seq<Chunk>, m: Manifest, stores': seq<(string, Bytes)>,
                      stamped': seq<(string, string)>, routes': seq<string>)
    requires ExtractManifest(chunks) == Some(m) && Unpacked(cfg, chunks, [], stores', [], stamped', [], routes')
    ensures m.importType in cfg.systemTypes && cfg.systemTypes[m.importType] ==> routes' == ["petition-intake"]
    ensures m.importType !in cfg.systemTypes ==> m.importType in cfg.flowTypes && routes' == [cfg.flowTypes[m.importType].node]
    ensures SwitchedOff(cfg) ==> stamped' == []
    ensures !SwitchedOff(cfg) ==> forall name, x :: (name, x) in stamped' <==>
              || (m.importType !in cfg.systemTypes && ImportedFrom(cfg.flowTypes[m.importType], m.artefacts, name, x))
              || (cfg.naturalisation.Some? && x in cfg.naturalisation.value.requireLocalStamps
                  && exists a :: a in m.artefacts && a.name == name)
  {
    if !SwitchedOff(cfg) {
      forall name, x ensures (name, x) in stamped' <==>
        || (m.importType !in cfg.systemTypes && ImportedFrom(cfg.flowTypes[m.importType], m.artefacts, name, x))
        || (cfg.naturalisation.Some? && x in cfg.naturalisation.value.requireLocalStamps
            && exists a :: a in m.artefacts && a.name == name)
      {
        if cfg.naturalisation.Some? {
          LocalStampsMeaning(cfg.naturalisation.value.requireLocalStamps, m.artefacts, name, x);
        }
        if m.importType !in cfg.systemTypes {
          ImportedFromMeaning(cfg.flowTypes[m.importType], m.artefacts, name, x);
        }
      }
    }
  }

  predicate SwitchedOff(cfg: EmbassyConfig) {
    cfg.naturalisation.Some? && cfg.naturalisation.value.auto == Some(false)
  }

  /** x is the imported form of a demanded stamp that an artefact of the name came with. */
  ghost predicate ImportedFrom(spec: ImportSpec, artefacts: seq<ArtefactManifest>, name: string, x: string) {
    exists stamp, a :: x == "imported-" + stamp && Demanded(spec, name, stamp)
      && a in artefacts && a.name == name && stamp in a.foreignStamps
  }

  lemma ImportedFromMeaning(spec: ImportSpec, artefacts: seq<ArtefactManifest>, name: string, x: string)
    ensures (name, x) in ImportedStamps(spec, artefacts) <==> ImportedFrom(spec, artefacts, name, x)
  {
    if (name, x) in ImportedStamps(spec, artefacts) {
      ImportedShape(spec, artefacts, name, x);
      var stamp :| x == "imported-" + stamp;
      PreflightAndImportSplit(spec, artefacts, name, stamp);
    }
    if stamp, a :| x == "imported-" + stamp && Demanded(spec, name, stamp) && a in artefacts && a.name == name && stamp in a.foreignStamps {
      PreflightAndImportSplit(spec, artefacts, name, stamp);
    }
  }

  /** Across both flows: a demanded stamp is imported exactly when the sender held it for an exported artefact. */
  lemma StampsTravel(h: Hash, spec: ImportSpec, source: Source, refs: seq<string>, name: string, stamp: string)
    requires AllHeld(source, refs)
    ensures (name, "imported-" + stamp) in ImportedStamps(spec, Declarations(h, source, refs))
       <==> name in refs && Demanded(spec, name, stamp) && name in source.stamps && stamp in source.stamps[name]
  {
    var artefacts := Declarations(h, source, refs);
    PreflightAndImportSplit(spec, artefacts, name, stamp);
    forall a | a in artefacts ensures a.name in refs && a.foreignStamps == StampsOf(source, a.name) {
      var i :| 0 <= i < |artefacts| && artefacts[i] == a;
      assert a == Declare(h, source, refs[i]);
    }
    if name in refs {
      var i :| 0 <= i < |refs| && refs[i] == name;
      assert artefacts[i] == Declare(h, source, name) && artefacts[i] in artefacts;
    }
  }

  /**
   * The preflight's verdict does not bind the import: a package whose artefacts came without a single stamp
   * is accepted as soon as none is empty, although the preflight of its manifest reports every demanded one.
   */
  lemma UnstampedImportIsAccepted(h: Hash, cfg: EmbassyConfig, spec: ImportSpec, source: Source, refs: seq<string>, m: Manifest)
    requires refs != [] && AllHeld(source, refs) && m.artefacts == Declarations(h, source, refs)
    requires ResolveImportType(cfg, m.importType) == Some(ImportType(m.importType, false, Some(spec))) && spec.node != ""
    requires NoEmptyArtefact(source, refs) && source.stamps == map[]
    ensures Accepts(h, cfg, Package(h, m, ContentMap(source, refs)))
    ensures forall i, stamp :: 0 <= i < |refs| && Demanded(spec, refs[i], stamp) ==> (refs[i], stamp) in MissingForeign(spec, m.artefacts)
  {
    ExportIsAcceptedIff(h, cfg, source, refs, m);
    forall i, stamp | 0 <= i < |refs| && Demanded(spec, refs[i], stamp)
      ensures (refs[i], stamp) in MissingForeign(spec, m.artefacts)
    {
      PreflightAndImportSplit(spec, m.artefacts, refs[i], stamp);
      assert m.artefacts[i] == Declare(h, source, refs[i]) && m.artefacts[i] in m.artefacts;
    }
  }

  /**
   * Integrity: in any verified package that carries the sender's manifest, whoever printed its chunks, the
   * content at each artefact's position is the sender's, or else a hash collision with it.
   */
  lemma ManifestPinsContents(h: Hash, source: Source, refs: seq<string>, m: Manifest, chunks: seq<Chunk>, i: nat)
    requires AllHeld(source, refs) && m.artefacts == Declarations(h, source, refs)
    requires Verified(h, chunks) && ExtractManifest(chunks) == Some(m) && i < |refs|
    ensures i < |Contents(WithoutHeaders(chunks))|
    ensures h(Contents(WithoutHeaders(chunks))[i]) == h(source.contents[refs[i]])
  {
    var contents := Contents(WithoutHeaders(chunks));
    assert DigestAt(h, m.artefacts, contents, i);
    assert m.artefacts[i].digest == ComputeDigest(h, source.contents[refs[i]]);
    var x, y := h(contents[i]), h(source.contents[refs[i]]);
    assert ("sha256:" + x)[7..] == x && ("sha256:" + y)[7..] == y;
  }
}
