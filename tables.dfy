/**
 * The decoder's state as one value, and the lazily filled name and source
 * tables (`getNameInSection`, `getSourceInSection`) together with the scans
 * that attribute a global index to a section (`getSectionForName`,
 * `getSectionForSource`).
 *
 * Every array of the JavaScript closure is a field here.  Sparse arrays are
 * `seq<Option<_>>`; the three mapping caches, which the code indexes by line
 * numbers that may be negative, are maps.
 */
module DecoderTables {
  import opened Wrappers
  import opened SourceMapJson
  import opened Records

  /**
   * What the decoder asks of its host: the directory of the map file, the
   * `resolve(base, relative)` path operation, loading the map at a URL
   * (`readFile` followed by `JSON.parse`, `None` when either throws), and
   * reading a file's text (`None` when `readFile` throws).
   */
  datatype Host = Host(mapRoot: string, resolve: (string, string) -> string, load: string -> Option<SourceMap>,
                       read: string -> Option<string>)

  datatype Tables = Tables(
    generatedFile: string,
    version: int,
    sections: seq<Option<ParsedSection>>,
    sectionMaps: seq<Option<SourceMap>>,
    nameOffsets: seq<Option<nat>>,
    sourceOffsets: seq<Option<nat>>,
    mappingOffsets: seq<Option<nat>>,
    scopeOffsets: seq<Option<nat>>,
    localOffsets: seq<Option<nat>>,
    sources: seq<Option<Source>>,
    names: seq<Option<Name>>,
    mappings: seq<Option<Mapping>>,
    generatedCache: map<int, seq<Mapping>>,
    sectionCache: map<int, map<int, seq<Mapping>>>,
    sourceCache: map<int, map<int, seq<Mapping>>>,
    scopes: seq<Option<Scope>>,
    locals: seq<Option<Local>>,
    lastNameOffset: nat,
    lastSourceOffset: nat,
    lastMappingOffset: nat,
    lastScopeOffset: nat,
    lastLocalOffset: nat)

  /** The state `decode` starts from before it reads the map. */
  function EmptyTables(): (t: Tables)
    ensures t.sections == [] && t.scopes == [] && t.mappings == []
    ensures t.lastNameOffset == 0 && t.lastSourceOffset == 0 && t.lastScopeOffset == 0
  {
    Tables("", 0, [], [], [], [], [], [], [], [], [], [], map[], map[], map[], [], [], 0, 0, 0, 0, 0)
  }

  /** Every memoised name and source sits at its own global index. */
  ghost predicate MemoPlaced(t: Tables) {
    (forall j :: 0 <= j < |t.names| && t.names[j].Some? ==> t.names[j].value.nameIndex == j) &&
    (forall j :: 0 <= j < |t.sources| && t.sources[j].Some? ==> t.sources[j].value.sourceIndex == j)
  }

  // ---------------------------------------------------------------------------
  // Names

  /**
   * `getNameInSection(sectionIndex, sectionNameIndex)`: the memoised name at
   * `sectionNameOffsets[sectionIndex] + sectionNameIndex`, else a new name
   * when the index is within the section's `names`, else `undefined`.
   */
  function NameInSection(t: Tables, sectionIndex: int, sectionNameIndex: int): (r: Option<Name>)
    ensures At(t.nameOffsets, sectionIndex).None? ==> r.None?
    ensures r.Some? && At(t.nameOffsets, sectionIndex).Some? &&
            At(t.names, At(t.nameOffsets, sectionIndex).value + sectionNameIndex).None? ==>
              r.value.nameIndex == At(t.nameOffsets, sectionIndex).value + sectionNameIndex &&
              r.value.sectionIndex == sectionIndex && r.value.sectionNameIndex == sectionNameIndex
  {
    match At(t.nameOffsets, sectionIndex)
    case None => None
    case Some(offset) =>
      if At(t.names, offset + sectionNameIndex).Some? then At(t.names, offset + sectionNameIndex)
      else match At(t.sectionMaps, sectionIndex)
        case None => None
        case Some(sm) =>
          if sm.names.Some? && 0 <= sectionNameIndex < |sm.names.value| then
            Some(Name(offset + sectionNameIndex, sectionIndex, sectionNameIndex, sm.names.value[sectionNameIndex]))
          else None
  }

  /** The tables after `getNameInSection`: a name it had to build is stored at its index. */
  function RememberName(t: Tables, sectionIndex: int, sectionNameIndex: int): (r: Tables)
    ensures r == t.(names := r.names)
  {
    match At(t.nameOffsets, sectionIndex)
    case None => t
    case Some(offset) =>
      if At(t.names, offset + sectionNameIndex).Some? then t
      else match NameInSection(t, sectionIndex, sectionNameIndex)
        case None => t
        case Some(n) => t.(names := Put(t.names, n.nameIndex, n))
  }

  /** A second lookup returns the record the first one built. */
  lemma NameMemoised(t: Tables, sectionIndex: int, sectionNameIndex: int)
    ensures NameInSection(RememberName(t, sectionIndex, sectionNameIndex), sectionIndex, sectionNameIndex)
         == NameInSection(t, sectionIndex, sectionNameIndex)
  {
  }

  /** Remembering a name keeps every memoised record at its own index. */
  lemma RememberNamePlaced(t: Tables, sectionIndex: int, sectionNameIndex: int)
    requires MemoPlaced(t)
    ensures MemoPlaced(RememberName(t, sectionIndex, sectionNameIndex))
  {
  }

  /** In a placed table a name found for a section sits at the section's base plus the index. */
  lemma NameIndexOfLookup(t: Tables, sectionIndex: int, sectionNameIndex: int)
    requires MemoPlaced(t)
    requires NameInSection(t, sectionIndex, sectionNameIndex).Some?
    ensures NameInSection(t, sectionIndex, sectionNameIndex).value.nameIndex
         == At(t.nameOffsets, sectionIndex).value + sectionNameIndex
  {
  }

  /** An index within the section's `names` always finds a name. */
  lemma NameInRangeFound(t: Tables, sectionIndex: int, sectionNameIndex: int)
    requires At(t.nameOffsets, sectionIndex).Some? && At(t.sectionMaps, sectionIndex).Some?
    requires At(t.sectionMaps, sectionIndex).value.names.Some?
    requires 0 <= sectionNameIndex < |At(t.sectionMaps, sectionIndex).value.names.value|
    ensures NameInSection(t, sectionIndex, sectionNameIndex).Some?
  {
  }

  // ---------------------------------------------------------------------------
  // Sources

  /**
   * The URL a new source gets: kept as written when `sourcesContent` holds a
   * string for it, else resolved against `sourceRoot` (when set) and then
   * against the map's directory.
   */
  function SourceUrl(host: Host, sm: SourceMap, k: nat): string
    requires k < |sm.sources|
  {
    var url := sm.sources[k];
    if k < |sm.sourcesContent| && sm.sourcesContent[k].Some? then url
    else host.resolve(host.mapRoot, if sm.sourceRoot != "" then host.resolve(sm.sourceRoot, url) else url)
  }

  /** `getSourceInSection(sectionIndex, sectionSourceIndex)`, built like `NameInSection`. */
  function SourceInSection(host: Host, t: Tables, sectionIndex: int, sectionSourceIndex: int): (r: Option<Source>)
    ensures At(t.sourceOffsets, sectionIndex).None? ==> r.None?
    ensures r.Some? && At(t.sourceOffsets, sectionIndex).Some? &&
            At(t.sources, At(t.sourceOffsets, sectionIndex).value + sectionSourceIndex).None? ==>
              r.value.sourceIndex == At(t.sourceOffsets, sectionIndex).value + sectionSourceIndex &&
              r.value.sectionIndex == sectionIndex && r.value.sectionSourceIndex == sectionSourceIndex &&
              r.value.mediaType.None?
  {
    match At(t.sourceOffsets, sectionIndex)
    case None => None
    case Some(offset) =>
      if At(t.sources, offset + sectionSourceIndex).Some? then At(t.sources, offset + sectionSourceIndex)
      else match At(t.sectionMaps, sectionIndex)
        case None => None
        case Some(sm) =>
          if 0 <= sectionSourceIndex < |sm.sources| then
            Some(Source(offset + sectionSourceIndex, sectionIndex, sectionSourceIndex,
                        SourceUrl(host, sm, sectionSourceIndex), None))
          else None
  }

  /** The tables after `getSourceInSection`. */
  function RememberSource(host: Host, t: Tables, sectionIndex: int, sectionSourceIndex: int): (r: Tables)
    ensures r == t.(sources := r.sources)
    ensures At(t.sourceOffsets, sectionIndex).Some? ==>
              forall j :: j != At(t.sourceOffsets, sectionIndex).value + sectionSourceIndex ==> At(r.sources, j) == At(t.sources, j)
    ensures At(t.sourceOffsets, sectionIndex).None? ==> r == t
  {
    match At(t.sourceOffsets, sectionIndex)
    case None => t
    case Some(offset) =>
      if At(t.sources, offset + sectionSourceIndex).Some? then t
      else match SourceInSection(host, t, sectionIndex, sectionSourceIndex)
        case None => t
        case Some(s) => t.(sources := Put(t.sources, s.sourceIndex, s))
  }

  lemma SourceMemoised(host: Host, t: Tables, sectionIndex: int, sectionSourceIndex: int)
    ensures SourceInSection(host, RememberSource(host, t, sectionIndex, sectionSourceIndex), sectionIndex, sectionSourceIndex)
         == SourceInSection(host, t, sectionIndex, sectionSourceIndex)
  {
  }

  lemma RememberSourcePlaced(host: Host, t: Tables, sectionIndex: int, sectionSourceIndex: int)
    requires MemoPlaced(t)
    ensures MemoPlaced(RememberSource(host, t, sectionIndex, sectionSourceIndex))
  {
  }

  lemma SourceIndexOfLookup(host: Host, t: Tables, sectionIndex: int, sectionSourceIndex: int)
    requires MemoPlaced(t)
    requires SourceInSection(host, t, sectionIndex, sectionSourceIndex).Some?
    ensures SourceInSection(host, t, sectionIndex, sectionSourceIndex).value.sourceIndex
         == At(t.sourceOffsets, sectionIndex).value + sectionSourceIndex
  {
  }

  lemma SourceInRangeFound(host: Host, t: Tables, sectionIndex: int, sectionSourceIndex: int)
    requires At(t.sourceOffsets, sectionIndex).Some? && At(t.sectionMaps, sectionIndex).Some?
    requires 0 <= sectionSourceIndex < |At(t.sectionMaps, sectionIndex).value.sources|
    ensures SourceInSection(host, t, sectionIndex, sectionSourceIndex).Some?
  {
  }

  // ---------------------------------------------------------------------------
  // Attributing a global index to a section

  /**
   * The loop of `getSectionForName` / `getSectionForSource` from `i` on, with
   * `best` the section chosen so far: move to section `i` while its base is
   * strictly below the index, stop at the first that is not (an `undefined`
   * base compares false and stops the scan too).
   */
  function SectionScan(sections: seq<Option<ParsedSection>>, offsets: seq<Option<nat>>, index: int,
                       i: nat, best: Option<ParsedSection>): Option<ParsedSection>
    decreases |offsets| - i
  {
    if i >= |offsets| then best
    else if offsets[i].Some? && offsets[i].value < index then SectionScan(sections, offsets, index, i + 1, At(sections, i))
    else best
  }

  function SectionFor(sections: seq<Option<ParsedSection>>, offsets: seq<Option<nat>>, index: int): Option<ParsedSection> {
    SectionScan(sections, offsets, index, 1, At(sections, 0))
  }

  /**
   * The section chosen is the last one of the leading run of sections whose
   * bases are strictly below the index.
   */
  lemma {:induction false} SectionScanStops(sections: seq<Option<ParsedSection>>, offsets: seq<Option<nat>>, index: int,
                                            i: nat, best: Option<ParsedSection>, j: nat)
    requires 1 <= i <= j + 1 && j < |offsets|
    requires i == j + 1 ==> best == At(sections, j)
    requires forall k :: i <= k <= j ==> offsets[k].Some? && offsets[k].value < index
    requires j + 1 < |offsets| ==> !(offsets[j + 1].Some? && offsets[j + 1].value < index)
    ensures SectionScan(sections, offsets, index, i, best) == At(sections, j)
    decreases |offsets| - i
  {
    if i <= j {
      SectionScanStops(sections, offsets, index, i + 1, At(sections, i), j);
    }
  }

  lemma SectionForStops(sections: seq<Option<ParsedSection>>, offsets: seq<Option<nat>>, index: int, j: nat)
    requires j < |offsets|
    requires forall k :: 1 <= k <= j ==> offsets[k].Some? && offsets[k].value < index
    requires j + 1 < |offsets| ==> !(offsets[j + 1].Some? && offsets[j + 1].value < index)
    ensures SectionFor(sections, offsets, index) == At(sections, j)
  {
    SectionScanStops(sections, offsets, index, 1, At(sections, 0), j);
  }

  /**
   * With strictly increasing bases, the first index of section `i` (its base)
   * is attributed to section `i - 1`: the comparison is strict.
   */
  lemma SectionForBoundary(sections: seq<Option<ParsedSection>>, offsets: seq<Option<nat>>, i: nat)
    requires 1 <= i < |offsets|
    requires forall k :: 0 <= k < |offsets| ==> offsets[k].Some?
    requires forall k, l :: 0 <= k < l < |offsets| ==> offsets[k].value < offsets[l].value
    ensures SectionFor(sections, offsets, offsets[i].value) == At(sections, i - 1)
  {
    SectionForStops(sections, offsets, offsets[i].value, i - 1);
  }

  /** An index strictly inside section `i`'s range goes to section `i`. */
  lemma SectionForInside(sections: seq<Option<ParsedSection>>, offsets: seq<Option<nat>>, i: nat, index: int)
    requires i < |offsets|
    requires forall k :: 0 <= k < |offsets| ==> offsets[k].Some?
    requires forall k, l :: 0 <= k < l < |offsets| ==> offsets[k].value < offsets[l].value
    requires offsets[i].value < index
    requires i + 1 < |offsets| ==> index <= offsets[i + 1].value
    ensures SectionFor(sections, offsets, index) == At(sections, i)
  {
    SectionForStops(sections, offsets, index, i);
  }
}
