/**
 * Decoding a whole map into the tables: `decodeSourceMap`,
 * `decodeIndexMap`, `decodeSection` and the per-section decoders for
 * sources, names, scopes, locals and media types (src/lib/decoder.ts:336-647).
 * The mapping decoder is in `MappingTables`.
 */
module SectionDecode {
  import opened Wrappers
  import opened Records
  import opened SourceMapJson
  import opened DecoderTables
  import opened MappingStream
  import opened MappingTables
  import opened ScopeStream
  import opened MediaTypes
  import Vlq

  /**
   * The first half of `decodeSection`: record the section, its map and the
   * current running totals as the section's bases.
   */
  function StoreSection(t: Tables, section: ParsedSection, sm: SourceMap): (r: Tables)
    ensures r == t.(sections := r.sections, sectionMaps := r.sectionMaps, nameOffsets := r.nameOffsets,
                    sourceOffsets := r.sourceOffsets, mappingOffsets := r.mappingOffsets,
                    scopeOffsets := r.scopeOffsets, localOffsets := r.localOffsets)
  {
    var i := section.sectionIndex;
    t.(sections := Put(t.sections, i, section),
       sectionMaps := Put(t.sectionMaps, i, sm),
       nameOffsets := Put(t.nameOffsets, i, t.lastNameOffset),
       sourceOffsets := Put(t.sourceOffsets, i, t.lastSourceOffset),
       mappingOffsets := Put(t.mappingOffsets, i, t.lastMappingOffset),
       scopeOffsets := Put(t.scopeOffsets, i, t.lastScopeOffset),
       localOffsets := Put(t.localOffsets, i, t.lastLocalOffset))
  }

  /** `decodeSectionSources`: the source total grows by the number of sources. */
  function DecodeSources(t: Tables, sm: SourceMap): Tables {
    t.(lastSourceOffset := t.lastSourceOffset + |sm.sources|)
  }

  /** `decodeSectionNames`: the name total grows by the number of names, when there are `names`. */
  function DecodeNames(t: Tables, sm: SourceMap): Tables {
    if sm.names.Some? then t.(lastNameOffset := t.lastNameOffset + |sm.names.value|) else t
  }

  /** `decodeSectionScopes`: nothing without `x_ms_scopes`, otherwise the scan, and the total becomes the arena's length. */
  function DecodeScopes(t: Tables, section: ParsedSection, sm: SourceMap): Result<Tables, Fault> {
    if sm.scopes == "" then Ok(t)
    else match ScanScopes(sm.scopes, t.scopes, section.sectionIndex, t.lastScopeOffset, section.generatedLine, section.generatedColumn)
      case Err(e) => Err(e)
      case Ok(a) => Ok(t.(scopes := a, lastScopeOffset := |a|))
  }

  /**
   * What the body of the locals loop would build from one segment: the
   * generated name at `nameIndex + seg[0]`, and unless the segment has one
   * value (a hidden local) the source name a further `seg[1]` on, both looked
   * up without being remembered.  The body never runs (see `DecodeLocals`).
   */
  function LocalOf(t: Tables, sectionIndex: nat, localIndex: nat, sectionLocalIndex: nat, scopeIndex: int,
                   nameIndex: int, seg: seq<int>): (r: Result<Local, Fault>)
    requires |seg| >= 1
    ensures r.Ok? ==> (r.value.isHidden <==> |seg| == 1)
    ensures r.Ok? ==> r.value.generatedName == NameInSection(t, sectionIndex, nameIndex + seg[0])
    ensures r.Ok? && !r.value.isHidden ==>
              && r.value.generatedName.Some? && r.value.sourceName.Some?
              && (r.value.isRenamed <==> r.value.generatedName.value.text != r.value.sourceName.value.text)
    ensures r.Ok? && r.value.isHidden ==> !r.value.isRenamed && r.value.sourceName.None?
    ensures r.Ok? ==> At(t.scopes, scopeIndex).Some?
  {
    var generatedName := NameInSection(t, sectionIndex, nameIndex + seg[0]);
    var isHidden := |seg| == 1;
    var sourceName := if isHidden then None else NameInSection(t, sectionIndex, nameIndex + seg[0] + seg[1]);
    if !isHidden && (generatedName.None? || sourceName.None?) then Err(NoGeneratedName)
    else if At(t.scopes, scopeIndex).None? then Err(NoScope)
    else
      var isRenamed := !isHidden && generatedName.value.text != sourceName.value.text;
      Ok(Local(localIndex, sectionIndex, sectionLocalIndex, Some(scopeIndex as nat), generatedName, sourceName, isHidden, isRenamed))
  }

  /**
   * `decodeSectionLocals` changes nothing: its segment body is guarded by
   * `startPos > pos`, and `startPos` starts at 0 and is changed only inside
   * that body.
   */
  function DecodeLocals(t: Tables, sm: SourceMap): (r: Tables)
    ensures r.locals == t.locals && r.lastLocalOffset == t.lastLocalOffset
  {
    t
  }

  /**
   * Setting one source's media type: the source as `getSourceInSection`
   * returns it (remembered or newly built) is stored with the media type.
   */
  function SetMediaType(host: Host, t: Tables, sectionIndex: nat, k: nat, mediaType: Option<string>): (r: Result<Tables, Fault>)
    ensures r.Ok? ==> r.value == t.(sources := r.value.sources)
  {
    match SourceInSection(host, t, sectionIndex, k)
    case None => Err(UnknownSource(sectionIndex, k))
    case Some(s) => Ok(t.(sources := Put(t.sources, s.sourceIndex, s.(mediaType := mediaType))))
  }

  /** The loop of `decodeSectionMediaTypes` over the first `n` sources. */
  function AssignMediaTypes(host: Host, t: Tables, sectionIndex: nat, types: seq<string>, offsets: seq<int>, n: nat): (r: Result<Tables, Fault>)
    ensures r.Ok? ==> r.value == t.(sources := r.value.sources)
    ensures r.Ok? ==> r.value.sourceOffsets == t.sourceOffsets
  {
    if n == 0 then Ok(t)
    else match AssignMediaTypes(host, t, sectionIndex, types, offsets, n - 1)
      case Err(e) => Err(e)
      case Ok(t1) => SetMediaType(host, t1, sectionIndex, n - 1, MediaTypeAt(types, Cursor(offsets, n - 1)))
  }

  /** The offsets `decodeChars` reads from `x_ms_sourceMediaTypes`; none when it is empty. */
  function MediaTypeOffsets(sm: SourceMap): seq<int> {
    if sm.sourceMediaTypes != "" then Vlq.DecodeWindow(sm.sourceMediaTypes, 0, |sm.sourceMediaTypes|) else []
  }

  /** `decodeSectionMediaTypes`. */
  function DecodeMediaTypes(host: Host, t: Tables, section: ParsedSection, sm: SourceMap): Result<Tables, Fault> {
    match sm.mediaTypes
    case None => Ok(t)
    case Some(types) => AssignMediaTypes(host, t, section.sectionIndex, types, MediaTypeOffsets(sm), |sm.sources|)
  }

  /** `decodeSection`: store the bases, then run the six decoders in order. */
  function DecodeSection(host: Host, t: Tables, section: ParsedSection, sm: SourceMap): Result<Tables, Fault> {
    var t1 := DecodeNames(DecodeSources(StoreSection(t, section, sm), sm), sm);
    match DecodeMappings(host, t1, section, sm)
    case Err(e) => Err(e)
    case Ok(t2) =>
      match DecodeScopes(t2, section, sm)
      case Err(e) => Err(e)
      case Ok(t3) => DecodeMediaTypes(host, DecodeLocals(t3, sm), section, sm)
  }

  /** The map a section of an index map stands for: inline, loaded from its URL, or none when loading fails. */
  function LoadSection(host: Host, s: Section): Option<SourceMap> {
    if s.sectionMap.Some? then s.sectionMap
    else if s.url != "" then host.load(host.resolve(host.mapRoot, s.url))
    else None
  }

  /** One turn of the `decodeIndexMap` loop: a section whose map is missing is skipped entirely. */
  function DecodeIndexSection(host: Host, t: Tables, s: Section, k: nat): Result<Tables, Fault> {
    match LoadSection(host, s)
    case None => Ok(t)
    case Some(sm) =>
      DecodeSection(host, t, ParsedSection(k, s.offset.line, s.offset.column, host.resolve(host.mapRoot, sm.file)), sm)
  }

  /** The first `n` turns of the `decodeIndexMap` loop. */
  function DecodeSections(host: Host, t: Tables, sections: seq<Section>, n: nat): Result<Tables, Fault>
    requires n <= |sections|
  {
    if n == 0 then Ok(t)
    else match DecodeSections(host, t, sections, n - 1)
      case Err(e) => Err(e)
      case Ok(t1) => DecodeIndexSection(host, t1, sections[n - 1], n - 1)
  }

  /** The tables before any section: version and resolved generated file set. */
  function Initial(host: Host, version: int, file: string): (t: Tables)
    ensures t == EmptyTables().(version := version, generatedFile := host.resolve(host.mapRoot, file))
  {
    EmptyTables().(version := version, generatedFile := host.resolve(host.mapRoot, file))
  }

  /** `decodeIndexMap` or `decodeSourceMap`, as `"sections" in map` says. */
  function DecodeDocument(host: Host, doc: Document): Result<Tables, Fault> {
    match doc
    case Indexed(im) => DecodeSections(host, Initial(host, im.version, im.file), im.sections, |im.sections|)
    case Plain(sm) =>
      var t := Initial(host, sm.version, sm.file);
      DecodeSection(host, t, ParsedSection(0, 0, 0, t.generatedFile), sm)
  }

  // ---------------------------------------------------------------------------
  // What a section does to the running totals

  /** Mapping decoding touches only the lazy tables, the caches, the mapping table and the name total. */
  lemma {:induction false} ApplyAllFrame(host: Host, t: Tables, sectionIndex: nat, mappingOffset: nat, raws: seq<RawMapping>)
    requires ApplyAll(host, t, sectionIndex, mappingOffset, raws).Ok?
    ensures var r := ApplyAll(host, t, sectionIndex, mappingOffset, raws).value;
            r == t.(sources := r.sources, names := r.names, generatedCache := r.generatedCache,
                    sectionCache := r.sectionCache, sourceCache := r.sourceCache, mappings := r.mappings)
    decreases |raws|
  {
    if raws != [] {
      ApplyAllFrame(host, t, sectionIndex, mappingOffset, raws[..|raws| - 1]);
    }
  }

  lemma DecodeMappingsFrame(host: Host, t: Tables, section: ParsedSection, sm: SourceMap)
    requires At(t.mappingOffsets, section.sectionIndex).Some?
    requires DecodeMappings(host, t, section, sm).Ok?
    ensures var r := DecodeMappings(host, t, section, sm).value;
            r == t.(sources := r.sources, names := r.names, generatedCache := r.generatedCache,
                    sectionCache := r.sectionCache, sourceCache := r.sourceCache, mappings := r.mappings,
                    lastNameOffset := r.lastNameOffset) &&
            r.lastNameOffset == t.lastNameOffset + (if sm.names.Some? then |sm.names.value| else 0)
  {
    var raws := ScanMappings(sm.mappings, section.generatedLine, section.generatedColumn).value;
    ApplyAllFrame(host, t, section.sectionIndex, At(t.mappingOffsets, section.sectionIndex).value, raws);
  }

  /**
   * The section's bases are the totals before it.  Afterwards the source
   * total has grown by the number of sources, the name total by twice the
   * number of names, the mapping and local totals not at all, and the scope
   * total stays the arena's length.
   */
  lemma DecodeSectionTotals(host: Host, t: Tables, section: ParsedSection, sm: SourceMap)
    requires DecodeSection(host, t, section, sm).Ok?
    requires t.lastScopeOffset == |t.scopes|
    ensures var r := DecodeSection(host, t, section, sm).value;
            var i := section.sectionIndex;
            At(r.sections, i) == Some(section) && At(r.sectionMaps, i) == Some(sm) &&
            At(r.nameOffsets, i) == Some(t.lastNameOffset) &&
            At(r.sourceOffsets, i) == Some(t.lastSourceOffset) &&
            At(r.mappingOffsets, i) == Some(t.lastMappingOffset) &&
            At(r.scopeOffsets, i) == Some(t.lastScopeOffset) &&
            At(r.localOffsets, i) == Some(t.lastLocalOffset) &&
            r.lastSourceOffset == t.lastSourceOffset + |sm.sources| &&
            r.lastNameOffset == t.lastNameOffset + (if sm.names.Some? then 2 * |sm.names.value| else 0) &&
            r.lastMappingOffset == t.lastMappingOffset &&
            r.lastLocalOffset == t.lastLocalOffset && r.locals == t.locals &&
            r.lastScopeOffset == |r.scopes|
    ensures var r := DecodeSection(host, t, section, sm).value;
            forall j :: j != section.sectionIndex ==>
              At(r.sections, j) == At(t.sections, j) && At(r.sourceOffsets, j) == At(t.sourceOffsets, j) &&
              At(r.nameOffsets, j) == At(t.nameOffsets, j) && At(r.mappingOffsets, j) == At(t.mappingOffsets, j)
  {
    var t1 := DecodeNames(DecodeSources(StoreSection(t, section, sm), sm), sm);
    DecodeMappingsFrame(host, t1, section, sm);
    var t2 := DecodeMappings(host, t1, section, sm).value;
    LaterStagesFrame(host, t2, section, sm);
  }

  /** Scopes, locals and media types touch only the sources, the scope arena and the scope total. */
  lemma LaterStagesFrame(host: Host, t2: Tables, section: ParsedSection, sm: SourceMap)
    requires DecodeScopes(t2, section, sm).Ok?
    requires DecodeMediaTypes(host, DecodeLocals(DecodeScopes(t2, section, sm).value, sm), section, sm).Ok?
    ensures var r := DecodeMediaTypes(host, DecodeLocals(DecodeScopes(t2, section, sm).value, sm), section, sm).value;
            r == t2.(sources := r.sources, scopes := r.scopes, lastScopeOffset := r.lastScopeOffset) &&
            (t2.lastScopeOffset == |t2.scopes| ==> r.lastScopeOffset == |r.scopes|)
  {
  }

  /** The decoded sections' maps, as `decodeIndexMap` finds them in order. */
  function SourcesBefore(host: Host, sections: seq<Section>, n: nat): nat
    requires n <= |sections|
  {
    if n == 0 then 0
    else SourcesBefore(host, sections, n - 1) +
         (match LoadSection(host, sections[n - 1]) case Some(sm) => |sm.sources| case None => 0)
  }

  function NamesBefore(host: Host, sections: seq<Section>, n: nat): nat
    requires n <= |sections|
  {
    if n == 0 then 0
    else NamesBefore(host, sections, n - 1) +
         (match LoadSection(host, sections[n - 1])
          case Some(sm) => (if sm.names.Some? then |sm.names.value| else 0)
          case None => 0)
  }

  /** The bases a decoded section `k` of an index map receives. */
  ghost predicate BasesAt(host: Host, t: Tables, sections: seq<Section>, k: nat)
    requires k < |sections|
  {
    match LoadSection(host, sections[k])
    case None => At(t.sections, k).None?
    case Some(_) =>
      At(t.sourceOffsets, k) == Some(SourcesBefore(host, sections, k)) &&
      At(t.nameOffsets, k) == Some(2 * NamesBefore(host, sections, k)) &&
      At(t.mappingOffsets, k) == Some(0)
  }

  lemma {:induction false} DecodeSectionsTotals(host: Host, t: Tables, sections: seq<Section>, n: nat)
    requires n <= |sections|
    requires t.sections == [] && t.lastSourceOffset == 0 && t.lastNameOffset == 0 && t.lastMappingOffset == 0
    requires t.lastScopeOffset == |t.scopes|
    requires DecodeSections(host, t, sections, n).Ok?
    ensures var r := DecodeSections(host, t, sections, n).value;
            r.lastSourceOffset == SourcesBefore(host, sections, n) &&
            r.lastNameOffset == 2 * NamesBefore(host, sections, n) &&
            r.lastMappingOffset == 0 && r.lastLocalOffset == t.lastLocalOffset &&
            r.lastScopeOffset == |r.scopes| &&
            (forall j :: n <= j ==> At(r.sections, j).None?) &&
            (forall k :: 0 <= k < n ==> BasesAt(host, r, sections, k))
  {
    if n > 0 {
      DecodeSectionsTotals(host, t, sections, n - 1);
      var t1 := DecodeSections(host, t, sections, n - 1).value;
      var s := sections[n - 1];
      match LoadSection(host, s)
      case None =>
      case Some(sm) =>
        var section := ParsedSection(n - 1, s.offset.line, s.offset.column, host.resolve(host.mapRoot, sm.file));
        DecodeSectionTotals(host, t1, section, sm);
        var r := DecodeSection(host, t1, section, sm).value;
        forall k | 0 <= k < n ensures BasesAt(host, r, sections, k) {
          if k < n - 1 { assert BasesAt(host, t1, sections, k); }
        }
    }
  }

  /**
   * In an index map, the source base of each decoded section is the number of
   * sources of the decoded sections before it, the name base twice their
   * number of names, and every mapping base 0; a section without a map gets
   * no entry at all.
   */
  lemma IndexMapBases(host: Host, im: IndexMap)
    requires DecodeDocument(host, Indexed(im)).Ok?
    ensures var r := DecodeDocument(host, Indexed(im)).value;
            forall k :: 0 <= k < |im.sections| ==> BasesAt(host, r, im.sections, k)
  {
    DecodeSectionsTotals(host, Initial(host, im.version, im.file), im.sections, |im.sections|);
  }

  // ---------------------------------------------------------------------------
  // The scope arena a decode leaves

  /**
   * An arena as decoding leaves it: empty or with a hole at index 0 (the
   * first section to open a scope numbers from 1), and no scope with locals.
   */
  ghost predicate DecodedArena(a: seq<Option<Scope>>) {
    (|a| == 0 || a[0].None?) &&
    forall j :: 0 <= j < |a| && a[j].Some? ==> a[j].value.locals == []
  }

  lemma DecodeScopesArena(t: Tables, section: ParsedSection, sm: SourceMap)
    requires t.lastScopeOffset == |t.scopes| && DecodedArena(t.scopes)
    requires DecodeScopes(t, section, sm).Ok?
    ensures DecodedArena(DecodeScopes(t, section, sm).value.scopes)
  {
    if sm.scopes != "" {
      ScopesLeaveHole(sm.scopes, t.scopes, section.sectionIndex, section.generatedLine, section.generatedColumn);
    }
  }

  lemma DecodeSectionArena(host: Host, t: Tables, section: ParsedSection, sm: SourceMap)
    requires t.lastScopeOffset == |t.scopes| && DecodedArena(t.scopes)
    requires DecodeSection(host, t, section, sm).Ok?
    ensures DecodedArena(DecodeSection(host, t, section, sm).value.scopes)
  {
    var t1 := DecodeNames(DecodeSources(StoreSection(t, section, sm), sm), sm);
    DecodeMappingsFrame(host, t1, section, sm);
    var t2 := DecodeMappings(host, t1, section, sm).value;
    DecodeScopesArena(t2, section, sm);
  }

  lemma {:induction false} DecodeSectionsArena(host: Host, t: Tables, sections: seq<Section>, n: nat)
    requires n <= |sections|
    requires t.lastScopeOffset == |t.scopes| && DecodedArena(t.scopes)
    requires DecodeSections(host, t, sections, n).Ok?
    ensures var r := DecodeSections(host, t, sections, n).value;
            r.lastScopeOffset == |r.scopes| && DecodedArena(r.scopes)
  {
    if n > 0 {
      DecodeSectionsArena(host, t, sections, n - 1);
      var t1 := DecodeSections(host, t, sections, n - 1).value;
      var s := sections[n - 1];
      match LoadSection(host, s)
      case None =>
      case Some(sm) =>
        var section := ParsedSection(n - 1, s.offset.line, s.offset.column, host.resolve(host.mapRoot, sm.file));
        DecodeSectionArena(host, t1, section, sm);
        DecodeSectionTotals(host, t1, section, sm);
    }
  }

  /**
   * Whatever is decoded, index 0 of the scope arena is a hole (or the arena
   * is empty), and no scope has locals, since locals are never decoded.
   */
  lemma DecodedScopes(host: Host, doc: Document)
    requires DecodeDocument(host, doc).Ok?
    ensures DecodedArena(DecodeDocument(host, doc).value.scopes)
  {
    match doc
    case Indexed(im) =>
      DecodeSectionsArena(host, Initial(host, im.version, im.file), im.sections, |im.sections|);
    case Plain(sm) =>
      var t := Initial(host, sm.version, sm.file);
      DecodeSectionArena(host, t, ParsedSection(0, 0, 0, t.generatedFile), sm);
  }

  // ---------------------------------------------------------------------------
  // Media types

  /** Source `i` is present and carries `mediaType`. */
  ghost predicate HasMediaType(t: Tables, i: int, mediaType: Option<string>) {
    At(t.sources, i).Some? && At(t.sources, i).value.mediaType == mediaType
  }

  /** One media-type step writes exactly the source at `base + k`, and keeps every source at its own index. */
  lemma SetMediaTypeEffect(host: Host, t: Tables, sectionIndex: nat, k: nat, mediaType: Option<string>, r: Tables)
    requires MemoPlaced(t)
    requires At(t.sourceOffsets, sectionIndex).Some?
    requires SetMediaType(host, t, sectionIndex, k, mediaType) == Ok(r)
    ensures MemoPlaced(r)
    ensures HasMediaType(r, At(t.sourceOffsets, sectionIndex).value + k, mediaType)
    ensures forall j :: j != At(t.sourceOffsets, sectionIndex).value + k ==> At(r.sources, j) == At(t.sources, j)
  {
    SourceIndexOfLookup(host, t, sectionIndex, k);
  }

  /** Sources `base + k` for `k < n` carry the media types at their cursors. */
  ghost predicate MediaTypesSet(r: Tables, base: int, types: seq<string>, offsets: seq<int>, n: nat) {
    forall k :: 0 <= k < n ==> HasMediaType(r, base + k, MediaTypeAt(types, Cursor(offsets, k)))
  }

  lemma ExtendMediaTypes(r1: Tables, r3: Tables, base: int, types: seq<string>, offsets: seq<int>, n: nat)
    requires n > 0
    requires MediaTypesSet(r1, base, types, offsets, n - 1)
    requires forall j :: j != base + (n - 1) ==> At(r3.sources, j) == At(r1.sources, j)
    requires HasMediaType(r3, base + (n - 1), MediaTypeAt(types, Cursor(offsets, n - 1)))
    ensures MediaTypesSet(r3, base, types, offsets, n)
  {
    forall k | 0 <= k < n ensures HasMediaType(r3, base + k, MediaTypeAt(types, Cursor(offsets, k))) {
      if k < n - 1 {
        assert HasMediaType(r1, base + k, MediaTypeAt(types, Cursor(offsets, k)));
        assert At(r3.sources, base + k) == At(r1.sources, base + k);
      }
    }
  }

  /**
   * After the media-type loop over `n` sources of a section whose base is
   * defined, source `k < n` sits at `base + k` and carries the media type at
   * cursor `k`.
   */
  lemma {:induction false} AssignMediaTypesSets(host: Host, t: Tables, sectionIndex: nat, types: seq<string>,
                                                offsets: seq<int>, n: nat)
    requires MemoPlaced(t)
    requires At(t.sourceOffsets, sectionIndex).Some?
    requires AssignMediaTypes(host, t, sectionIndex, types, offsets, n).Ok?
    ensures MemoPlaced(AssignMediaTypes(host, t, sectionIndex, types, offsets, n).value)
    ensures MediaTypesSet(AssignMediaTypes(host, t, sectionIndex, types, offsets, n).value,
                          At(t.sourceOffsets, sectionIndex).value, types, offsets, n)
  {
    if n > 0 {
      AssignMediaTypesSets(host, t, sectionIndex, types, offsets, n - 1);
      var t1 := AssignMediaTypes(host, t, sectionIndex, types, offsets, n - 1).value;
      var mt := MediaTypeAt(types, Cursor(offsets, n - 1));
      var t3 := AssignMediaTypes(host, t, sectionIndex, types, offsets, n).value;
      assert SetMediaType(host, t1, sectionIndex, n - 1, mt) == Ok(t3);
      SetMediaTypeEffect(host, t1, sectionIndex, n - 1, mt, t3);
      ExtendMediaTypes(t1, t3, At(t.sourceOffsets, sectionIndex).value, types, offsets, n);
    }
  }

  /** Without `x_ms_mediaTypes` no source changes. */
  lemma NoMediaTypesNoChange(host: Host, t: Tables, section: ParsedSection, sm: SourceMap)
    requires sm.mediaTypes.None?
    ensures DecodeMediaTypes(host, t, section, sm) == Ok(t)
  {
  }
}
