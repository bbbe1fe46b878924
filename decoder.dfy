/**
 * The decoder object itself: the closure of `decode` (src/lib/decoder.ts:226-334)
 * as a class whose fields are the closure's arrays, caches and running totals.
 * Each decoding step and each lazy lookup is a method that updates those
 * fields in place, proved to leave exactly the state the value-level model
 * (`DecoderTables`, `MappingTables`, `SectionDecode`, ...) describes.
 */
module Decoder {
  import opened Wrappers
  import opened Records
  import opened SourceMapJson
  import opened DecoderTables
  import opened MappingStream
  import opened MappingTables
  import opened ScopeStream
  import opened MediaTypes
  import opened SectionDecode
  import opened MappingQueries
  import opened ScopeQueries
  import opened Files
  import Vlq

  class SourceMapDecoder {
    const host: Host

    var generatedFile: string
    var version: int
    var sections: seq<Option<ParsedSection>>
    var sectionMaps: seq<Option<SourceMap>>
    var sectionNameOffsets: seq<Option<nat>>
    var sectionSourceOffsets: seq<Option<nat>>
    var sectionMappingOffsets: seq<Option<nat>>
    var sectionScopeOffsets: seq<Option<nat>>
    var sectionLocalOffsets: seq<Option<nat>>
    var sources: seq<Option<Source>>
    var names: seq<Option<Name>>
    var mappings: seq<Option<Mapping>>
    var generatedMappingCache: map<int, seq<Mapping>>
    var sectionGeneratedMappingCache: map<int, map<int, seq<Mapping>>>
    var sourceMappingCache: map<int, map<int, seq<Mapping>>>
    var scopes: seq<Option<Scope>>
    var locals: seq<Option<Local>>
    var lastSectionNameOffset: nat
    var lastSectionSourceOffset: nat
    var lastSectionMappingOffset: nat
    var lastSectionScopeOffset: nat
    var lastSectionLocalOffset: nat

    /** The memoised views: the generated file object, source contents and source files. */
    var generatedFileObject: Option<GeneratedFile>
    var sourcesContent: map<int, Content>
    var sourceFiles: map<int, SourceFile>

    /** The decoder's tables as one value. */
    function State(): Tables
      reads this
    {
      Tables(generatedFile, version, sections, sectionMaps, sectionNameOffsets, sectionSourceOffsets,
             sectionMappingOffsets, sectionScopeOffsets, sectionLocalOffsets, sources, names, mappings,
             generatedMappingCache, sectionGeneratedMappingCache, sourceMappingCache, scopes, locals,
             lastSectionNameOffset, lastSectionSourceOffset, lastSectionMappingOffset,
             lastSectionScopeOffset, lastSectionLocalOffset)
    }

    function Memo(): FileMemo
      reads this
    {
      FileMemo(sourcesContent, sourceFiles)
    }

    /** The closure before the map is read. */
    constructor (host: Host)
      ensures this.host == host && State() == EmptyTables()
      ensures generatedFileObject.None? && Memo() == FileMemo(map[], map[])
    {
      this.host := host;
      generatedFile, version := "", 0;
      sections, sectionMaps := [], [];
      sectionNameOffsets, sectionSourceOffsets, sectionMappingOffsets := [], [], [];
      sectionScopeOffsets, sectionLocalOffsets := [], [];
      sources, names, mappings, scopes, locals := [], [], [], [], [];
      generatedMappingCache, sectionGeneratedMappingCache, sourceMappingCache := map[], map[], map[];
      lastSectionNameOffset, lastSectionSourceOffset, lastSectionMappingOffset := 0, 0, 0;
      lastSectionScopeOffset, lastSectionLocalOffset := 0, 0;
      generatedFileObject := None;
      sourcesContent, sourceFiles := map[], map[];
    }

    // -------------------------------------------------------------------------
    // The lazy name and source tables

    /** `getNameInSection` (src/lib/decoder.ts:807-824). */
    method GetNameInSection(sectionIndex: int, sectionNameIndex: int) returns (r: Option<Name>)
      modifies this`names
      ensures r == NameInSection(old(State()), sectionIndex, sectionNameIndex)
      ensures State() == RememberName(old(State()), sectionIndex, sectionNameIndex)
    {
      var offset := At(sectionNameOffsets, sectionIndex);
      if offset.None? {
        return None;
      }
      var nameIndex := offset.value + sectionNameIndex;
      if At(names, nameIndex).Some? {
        return At(names, nameIndex);
      }
      var sourceMap := At(sectionMaps, sectionIndex);
      if sourceMap.Some? && sourceMap.value.names.Some? && 0 <= sectionNameIndex < |sourceMap.value.names.value| {
        var name := Name(nameIndex, sectionIndex, sectionNameIndex, sourceMap.value.names.value[sectionNameIndex]);
        names := Put(names, nameIndex, name);
        return Some(name);
      }
      return None;
    }

    /** `getSourceInSection` (src/lib/decoder.ts:869-896). */
    method GetSourceInSection(sectionIndex: int, sectionSourceIndex: int) returns (r: Option<Source>)
      modifies this`sources
      ensures r == SourceInSection(host, old(State()), sectionIndex, sectionSourceIndex)
      ensures State() == RememberSource(host, old(State()), sectionIndex, sectionSourceIndex)
    {
      var offset := At(sectionSourceOffsets, sectionIndex);
      if offset.None? {
        return None;
      }
      var sourceIndex := offset.value + sectionSourceIndex;
      if At(sources, sourceIndex).Some? {
        return At(sources, sourceIndex);
      }
      var sourceMap := At(sectionMaps, sectionIndex);
      if sourceMap.Some? && 0 <= sectionSourceIndex < |sourceMap.value.sources| {
        var sm := sourceMap.value;
        var url := sm.sources[sectionSourceIndex];
        if !(sectionSourceIndex < |sm.sourcesContent| && sm.sourcesContent[sectionSourceIndex].Some?) {
          if sm.sourceRoot != "" {
            url := host.resolve(sm.sourceRoot, url);
          }
          url := host.resolve(host.mapRoot, url);
        }
        var source := Source(sourceIndex, sectionIndex, sectionSourceIndex, url, None);
        sources := Put(sources, sourceIndex, source);
        return Some(source);
      }
      return None;
    }

    // -------------------------------------------------------------------------
    // Mappings

    /**
     * The lookups for one segment of `decodeSectionMappings`
     * (src/lib/decoder.ts:420-476): the mapping record built from the
     * counters, with its source and (when the segment has one) its name looked
     * up in the lazy tables.
     */
    method ResolveMapping(sectionIndex: nat, mappingOffset: nat, sectionMappingIndex: nat, raw: RawMapping)
      returns (r: Result<Mapping, Fault>)
      modifies this`sources, this`names
      ensures r == Resolve(host, old(State()), sectionIndex, mappingOffset, sectionMappingIndex, raw)
      ensures r.Ok? ==> State() == Remember(host, old(State()), sectionIndex, raw)
    {
      ghost var t := State();
      var mapping := Mapping(mappingOffset + sectionMappingIndex, sectionIndex, sectionMappingIndex,
                             raw.line, raw.sectionLine, raw.columnOffset, raw.column, raw.sectionColumn, None);
      if raw.source.None? {
        return Ok(mapping);
      }
      var rs := raw.source.value;
      var source := GetSourceInSection(sectionIndex, rs.sectionSourceIndex);
      if source.None? {
        return Err(UnknownSource(sectionIndex, rs.sectionSourceIndex));
      }
      ghost var t1 := State();
      var name: Option<NamePart> := None;
      if rs.name.Some? {
        var n := GetNameInSection(sectionIndex, rs.name.value.sectionNameIndex);
        assert n == NameInSection(t, sectionIndex, rs.name.value.sectionNameIndex) by {
          assert t1 == t.(sources := t1.sources);
        }
        name := Some(NamePart(rs.name.value.offset, n));
      }
      return Ok(mapping.(source := Some(SourcePart(rs.indexOffset, source.value.sourceIndex, rs.lineOffset, rs.line,
                                                   rs.columnOffset, rs.column, name))));
    }

    /** Filing a mapping in the three caches and the mapping table (src/lib/decoder.ts:434-491). */
    method PlaceMapping(mapping: Mapping)
      modifies this`generatedMappingCache, this`sectionGeneratedMappingCache, this`sourceMappingCache, this`mappings
      ensures State() == Place(old(State()), mapping)
    {
      PlaceFields(State(), mapping);
      PushMapping(mapping);
    }

    /** The four pushes of `PlaceMapping`, field by field. */
    method PushMapping(mapping: Mapping)
      modifies this`generatedMappingCache, this`sectionGeneratedMappingCache, this`sourceMappingCache, this`mappings
      ensures generatedMappingCache == Push(old(generatedMappingCache), mapping.generatedLine, mapping)
      ensures sectionGeneratedMappingCache
           == Push2(old(sectionGeneratedMappingCache), mapping.sectionIndex, mapping.sectionGeneratedLine, mapping)
      ensures sourceMappingCache
           == if mapping.source.Some?
              then Push2(old(sourceMappingCache), mapping.source.value.sourceIndex, mapping.source.value.sourceLine, mapping)
              else old(sourceMappingCache)
      ensures mappings == Put(old(mappings), mapping.mappingIndex, mapping)
    {
      generatedMappingCache := Push(generatedMappingCache, mapping.generatedLine, mapping);
      sectionGeneratedMappingCache := Push2(sectionGeneratedMappingCache, mapping.sectionIndex, mapping.sectionGeneratedLine, mapping);
      if mapping.source.Some? {
        sourceMappingCache := Push2(sourceMappingCache, mapping.source.value.sourceIndex, mapping.source.value.sourceLine, mapping);
      }
      mappings := Put(mappings, mapping.mappingIndex, mapping);
    }

    /** One segment's whole effect on the decoder. */
    method AddMapping(sectionIndex: nat, mappingOffset: nat, sectionMappingIndex: nat, raw: RawMapping)
      returns (r: Result<(), Fault>)
      modifies this`sources, this`names, this`generatedMappingCache, this`sectionGeneratedMappingCache,
               this`sourceMappingCache, this`mappings
      ensures r.Ok? <==> ApplyMapping(host, old(State()), sectionIndex, mappingOffset, sectionMappingIndex, raw).Ok?
      ensures r.Ok? ==> State() == ApplyMapping(host, old(State()), sectionIndex, mappingOffset, sectionMappingIndex, raw).value
    {
      var m := ResolveMapping(sectionIndex, mappingOffset, sectionMappingIndex, raw);
      if m.Err? {
        return Err(m.error);
      }
      PlaceMapping(m.value);
      return Ok(());
    }

    /**
     * One non-empty field of the mappings loop (src/lib/decoder.ts:420-486):
     * decode it, advance the counters and add the mapping it describes.
     */
    method MapSegment(text: string, startPos: nat, pos: nat, counters: Counters, sectionIndex: nat,
                      sectionMappingOffset: nat, sectionMappingIndex: nat,
                      ghost t0: Tables, ghost found: seq<RawMapping>)
      returns (r: Result<(), Fault>, next: Counters, raw: RawMapping)
      requires startPos < pos <= |text| && EndsField(text, pos)
      requires sectionMappingIndex == |found|
      requires ApplyAll(host, t0, sectionIndex, sectionMappingOffset, found) == Ok(State())
      modifies this`sources, this`names, this`generatedMappingCache, this`sectionGeneratedMappingCache,
               this`sourceMappingCache, this`mappings
      ensures r.Ok? ==> (ScanFrom(text, pos, startPos, counters, found)
                         == ScanFrom(text, pos + 1, pos + 1, AfterSeparator(text, pos, next), found + [raw]))
      ensures r.Ok? ==> ApplyAll(host, t0, sectionIndex, sectionMappingOffset, found + [raw]) == Ok(State())
      ensures r.Err? ==> (var scan := ScanFrom(text, pos, startPos, counters, found);
                          scan.Err? || ApplyAll(host, t0, sectionIndex, sectionMappingOffset, scan.value).Err?)
    {
      var segment := Vlq.DecodeChars(text, startPos, pos);
      if |segment| == 0 {
        return Err(ShortSegment(pos)), counters, RawMapping(0, 0, 0, 0, 0, None);
      }
      next, raw := ReadSegment(counters, segment);
      ScanSegmentStep(text, pos, startPos, counters, found);
      ghost var t1 := State();
      ApplyAllSnoc(host, t0, sectionIndex, sectionMappingOffset, found, raw, t1);
      ghost var step := ApplyMapping(host, t1, sectionIndex, sectionMappingOffset, sectionMappingIndex, raw);
      r := AddMapping(sectionIndex, sectionMappingOffset, sectionMappingIndex, raw);
      if r.Ok? {
        assert step == Ok(State());
      } else {
        SegmentFailure(host, t0, sectionIndex, sectionMappingOffset, text, pos, startPos, counters, found, segment);
      }
    }

    /**
     * The invariant of the mappings loop at `pos`: the scan from here gives
     * `scan`, and the mappings found so far have been added to the tables.
     */
    ghost predicate MappingLoop(text: string, pos: nat, startPos: nat, counters: Counters, found: seq<RawMapping>,
                                index: nat, sectionIndex: nat, offset: nat, t0: Tables, scan: Result<seq<RawMapping>, Fault>)
      reads this
    {
      startPos <= pos && index == |found| &&
      ScanFrom(text, pos, startPos, counters, found) == scan &&
      ApplyAll(host, t0, sectionIndex, offset, found) == Ok(State())
    }

    /**
     * One turn of the mappings loop (src/lib/decoder.ts:418-491): at the end
     * of a field a non-empty one adds its mapping and the next field starts
     * after the terminator; a `;` then moves to the next generated line.
     */
    method MappingStep(text: string, pos: nat, startPos: nat, counters: Counters, sectionIndex: nat,
                       sectionMappingOffset: nat, sectionMappingIndex: nat,
                       ghost t0: Tables, ghost found: seq<RawMapping>, ghost scan: Result<seq<RawMapping>, Fault>)
      returns (r: Result<(), Fault>, nextStart: nat, next: Counters, nextIndex: nat, ghost more: seq<RawMapping>)
      requires pos <= |text|
      requires MappingLoop(text, pos, startPos, counters, found, sectionMappingIndex, sectionIndex, sectionMappingOffset, t0, scan)
      modifies this`sources, this`names, this`generatedMappingCache, this`sectionGeneratedMappingCache,
               this`sourceMappingCache, this`mappings
      ensures r.Ok? ==> MappingLoop(text, pos + 1, nextStart, next, more, nextIndex, sectionIndex, sectionMappingOffset, t0, scan)
      ensures r.Err? ==> scan.Err? || ApplyAll(host, t0, sectionIndex, sectionMappingOffset, scan.value).Err?
    {
      nextStart, next, nextIndex, more := startPos, counters, sectionMappingIndex, found;
      r := Ok(());
      if EndsField(text, pos) {
        if pos > startPos {
          var raw;
          r, next, raw := MapSegment(text, startPos, pos, counters, sectionIndex, sectionMappingOffset,
                                     sectionMappingIndex, t0, found);
          if r.Err? {
            return;
          }
          more := found + [raw];
          nextIndex := sectionMappingIndex + 1;
        }
        nextStart := pos + 1;
      }
      if pos < |text| && text[pos] == ';' {
        next := next.(line := next.line + 1, column := 0, sectionLine := next.sectionLine + 1, sectionColumn := 0);
      }
    }

    /** `decodeSectionMappings` (src/lib/decoder.ts:413-499). */
    method DecodeSectionMappings(section: ParsedSection, sm: SourceMap) returns (r: Result<(), Fault>)
      requires At(sectionMappingOffsets, section.sectionIndex).Some?
      modifies this`sources, this`names, this`generatedMappingCache, this`sectionGeneratedMappingCache,
               this`sourceMappingCache, this`mappings, this`lastSectionNameOffset
      ensures r.Ok? <==> DecodeMappings(host, old(State()), section, sm).Ok?
      ensures r.Ok? ==> State() == DecodeMappings(host, old(State()), section, sm).value
    {
      ghost var t0 := State();
      var sectionMappingOffset := At(sectionMappingOffsets, section.sectionIndex).value;
      assert sectionMappingOffset == At(t0.mappingOffsets, section.sectionIndex).value;
      ghost var found;
      r, found := MapSegments(sm.mappings, section.sectionIndex, sectionMappingOffset,
                              section.generatedLine, section.generatedColumn);
      if r.Err? {
        MappingsFail(host, t0, section, sm);
        return;
      }
      MappingsDone(host, t0, section, sm, found, State());
      if sm.names.Some? {
        AddToNameTotal(|sm.names.value|);
      }
    }

    /** The loop over the characters of `mappings` (src/lib/decoder.ts:418-491). */
    method MapSegments(text: string, sectionIndex: nat, sectionMappingOffset: nat,
                       generatedLine: int, generatedColumn: int) returns (r: Result<(), Fault>, ghost found: seq<RawMapping>)
      modifies this`sources, this`names, this`generatedMappingCache, this`sectionGeneratedMappingCache,
               this`sourceMappingCache, this`mappings
      ensures r.Ok? ==> ScanMappings(text, generatedLine, generatedColumn) == Ok(found) &&
                        ApplyAll(host, old(State()), sectionIndex, sectionMappingOffset, found) == Ok(State())
      ensures r.Err? ==> (var scan := ScanMappings(text, generatedLine, generatedColumn);
                          scan.Err? || ApplyAll(host, old(State()), sectionIndex, sectionMappingOffset, scan.value).Err?)
    {
      ghost var t0 := old(State());
      var counters := Start(generatedLine, generatedColumn);
      var sectionMappingIndex: nat := 0;
      var startPos: nat := 0;
      found := [];
      ghost var scan := ScanMappings(text, generatedLine, generatedColumn);
      var pos: nat := 0;
      while pos <= |text|
        invariant pos <= |text| + 1
        invariant MappingLoop(text, pos, startPos, counters, found, sectionMappingIndex, sectionIndex, sectionMappingOffset, t0, scan)
        decreases |text| + 1 - pos
      {
        var outcome;
        outcome, startPos, counters, sectionMappingIndex, found :=
          MappingStep(text, pos, startPos, counters, sectionIndex, sectionMappingOffset, sectionMappingIndex, t0, found, scan);
        if outcome.Err? {
          return outcome, found;
        }
        pos := pos + 1;
      }
      return Ok(()), found;
    }

    /** `lastSectionNameOffset += names.length` (src/lib/decoder.ts:496-498). */
    method AddToNameTotal(count: nat)
      modifies this`lastSectionNameOffset
      ensures State() == old(State()).(lastNameOffset := old(State()).lastNameOffset + count)
    {
      lastSectionNameOffset := lastSectionNameOffset + count;
    }

    // -------------------------------------------------------------------------
    // Scopes, locals and media types

    /** `decodeSectionScopes` (src/lib/decoder.ts:501-567). */
    method DecodeSectionScopes(section: ParsedSection, sm: SourceMap) returns (r: Result<(), Fault>)
      modifies this`scopes, this`lastSectionScopeOffset
      ensures r.Ok? <==> DecodeScopes(old(State()), section, sm).Ok?
      ensures r.Ok? ==> State() == DecodeScopes(old(State()), section, sm).value
    {
      var text := sm.scopes;
      if text == "" {
        return Ok(());
      }
      var sectionIndex := section.sectionIndex;
      var base := lastSectionScopeOffset;
      var cursor := ScopeStart(section.generatedLine, section.generatedColumn);
      var startPos: nat := 0;
      ghost var scan := ScanScopes(text, scopes, sectionIndex, base, section.generatedLine, section.generatedColumn);
      var pos: nat := 0;
      while pos < |text|
        invariant startPos <= pos <= |text|
        invariant ScopeScan(text, pos, startPos, cursor, scopes, sectionIndex, base) == scan
        decreases |text| - pos
      {
        var outcome;
        outcome, startPos, cursor := ScopeStep(text, pos, startPos, cursor, sectionIndex, base);
        if outcome.Err? {
          return outcome;
        }
        pos := pos + 1;
      }
      lastSectionScopeOffset := |scopes|;
      return Ok(());
    }

    /** One character of the scopes loop (src/lib/decoder.ts:515-563). */
    method ScopeStep(text: string, pos: nat, startPos: nat, cursor: ScopeCursor, sectionIndex: nat, base: nat)
      returns (r: Result<(), Fault>, nextStart: nat, next: ScopeCursor)
      requires startPos <= pos < |text|
      modifies this`scopes
      ensures r.Ok? ==> nextStart <= pos + 1 &&
                        ScopeScan(text, pos, startPos, cursor, old(scopes), sectionIndex, base)
                        == ScopeScan(text, pos + 1, nextStart, next, scopes, sectionIndex, base)
      ensures r.Err? ==> ScopeScan(text, pos, startPos, cursor, old(scopes), sectionIndex, base).Err?
    {
      nextStart, next := startPos, cursor;
      if IsMark(text[pos]) && pos > startPos {
        var segment := Vlq.DecodeChars(text, startPos, pos);
        if |segment| < 2 {
          return Err(ShortSegment(pos)), nextStart, next;
        }
        next := next.(line := next.line + segment[0], column := next.column + segment[1],
                      sectionLine := next.sectionLine + segment[0], sectionColumn := next.sectionColumn + segment[1]);
        if text[pos] == '>' {
          var sectionScopeIndex := next.count + 1;
          var parent := next.current;
          var current := Scope(base + sectionScopeIndex, sectionIndex, sectionScopeIndex, parent,
                               Position(next.line, next.column), Position(next.sectionLine, next.sectionColumn),
                               None, None, [], []);
          if parent.Some? && parent.value < |scopes| && scopes[parent.value].Some? {
            var p := scopes[parent.value].value;
            scopes := scopes[parent.value := Some(p.(nested := p.nested + [current.scopeIndex]))];
          }
          scopes := Put(scopes, current.scopeIndex, current);
          next := next.(count := sectionScopeIndex, parent := parent, current := Some(current.scopeIndex));
        } else {
          if next.parent.None? {
            return Err(ExitWithoutParent(pos)), nextStart, next;
          }
          var p := next.parent.value;
          if p < |scopes| && scopes[p].Some? {
            scopes := scopes[p := Some(scopes[p].value.(end := Some(Position(next.line, next.column)),
                                                        sectionEnd := Some(Position(next.sectionLine, next.sectionColumn))))];
          }
          next := next.(current := Some(p), parent := ParentOf(scopes, p));
        }
        nextStart := pos + 1;
      }
      return Ok(()), nextStart, next;
    }

    /**
     * `decodeSectionLocals` (src/lib/decoder.ts:569-619): the loop walks the
     * text, but its segment body is guarded by `startPos > pos`, which never
     * holds, so only the scope counter moves and nothing is stored.
     */
    method DecodeSectionLocals(section: ParsedSection, sm: SourceMap)
      ensures State() == DecodeLocals(old(State()), sm)
    {
      var text := sm.locals;
      if text == "" {
        return;
      }
      var sectionScopeIndex := 0;
      var startPos := 0;
      var pos := 0;
      while pos <= |text|
        invariant startPos <= pos <= |text| + 1
        invariant sectionScopeIndex <= pos
        decreases |text| + 1 - pos
      {
        if EndsField(text, pos) {
          if startPos > pos {
            assert false;
          }
          if pos < |text| && text[pos] == ';' {
            sectionScopeIndex := sectionScopeIndex + 1;
          }
        }
        pos := pos + 1;
      }
    }

    /** `getSourceInSection(...).mediaType = mediaType` (src/lib/decoder.ts:645-646). */
    method SetSourceMediaType(sectionIndex: nat, k: nat, mediaType: Option<string>) returns (r: Result<(), Fault>)
      modifies this`sources
      ensures r.Ok? <==> SetMediaType(host, old(State()), sectionIndex, k, mediaType).Ok?
      ensures r.Ok? ==> State() == SetMediaType(host, old(State()), sectionIndex, k, mediaType).value
    {
      ghost var t := State();
      var source := GetSourceInSection(sectionIndex, k);
      if source.None? {
        return Err(UnknownSource(sectionIndex, k));
      }
      RememberThenPut(host, t, sectionIndex, k, mediaType);
      sources := Put(sources, source.value.sourceIndex, source.value.(mediaType := mediaType));
      return Ok(());
    }

    /** `decodeSectionMediaTypes` (src/lib/decoder.ts:621-647). */
    method DecodeSectionMediaTypes(section: ParsedSection, sm: SourceMap) returns (r: Result<(), Fault>)
      modifies this`sources
      ensures r.Ok? <==> DecodeMediaTypes(host, old(State()), section, sm).Ok?
      ensures r.Ok? ==> State() == DecodeMediaTypes(host, old(State()), section, sm).value
    {
      if sm.mediaTypes.None? {
        return Ok(());
      }
      var offsets: seq<int> := [];
      if sm.sourceMediaTypes != "" {
        offsets := Vlq.DecodeChars(sm.sourceMediaTypes, 0, |sm.sourceMediaTypes|);
      }
      r := AssignSourceMediaTypes(section.sectionIndex, sm.mediaTypes.value, offsets, |sm.sources|);
    }

    /** The loop of `decodeSectionMediaTypes` over the section's sources (src/lib/decoder.ts:632-647). */
    method AssignSourceMediaTypes(sectionIndex: nat, types: seq<string>, offsets: seq<int>, count: nat)
      returns (r: Result<(), Fault>)
      modifies this`sources
      ensures r.Ok? <==> AssignMediaTypes(host, old(State()), sectionIndex, types, offsets, count).Ok?
      ensures r.Ok? ==> State() == AssignMediaTypes(host, old(State()), sectionIndex, types, offsets, count).value
    {
      ghost var t0 := old(State());
      var mediaTypeIndex := 0;
      var k := 0;
      while k < count
        invariant k <= count
        invariant AssignMediaTypes(host, t0, sectionIndex, types, offsets, k) == Ok(State())
        invariant mediaTypeIndex == if k == 0 then 0 else Cursor(offsets, k - 1)
      {
        var outcome;
        outcome, mediaTypeIndex := MediaTypeStep(sectionIndex, types, offsets, k, mediaTypeIndex, t0);
        if outcome.Err? {
          AssignMediaTypesFailureSticks(host, t0, sectionIndex, types, offsets, k + 1, count);
          return outcome;
        }
        k := k + 1;
      }
      return Ok(());
    }

    /** One source of the media types loop (src/lib/decoder.ts:632-646). */
    method MediaTypeStep(sectionIndex: nat, types: seq<string>, offsets: seq<int>, k: nat, mediaTypeIndex: int, ghost t0: Tables)
      returns (r: Result<(), Fault>, nextIndex: int)
      requires mediaTypeIndex == if k == 0 then 0 else Cursor(offsets, k - 1)
      requires AssignMediaTypes(host, t0, sectionIndex, types, offsets, k) == Ok(State())
      modifies this`sources
      ensures nextIndex == Cursor(offsets, k)
      ensures r.Ok? ==> AssignMediaTypes(host, t0, sectionIndex, types, offsets, k + 1) == Ok(State())
      ensures r.Err? ==> AssignMediaTypes(host, t0, sectionIndex, types, offsets, k + 1).Err?
    {
      nextIndex := NextCursor(offsets, k, mediaTypeIndex);
      var mediaType := PickMediaType(types, nextIndex);
      AssignMediaTypesStep(host, t0, sectionIndex, types, offsets, k, State());
      r := SetSourceMediaType(sectionIndex, k, mediaType);
    }

    // -------------------------------------------------------------------------
    // Sections and the whole map

    /** The first lines of `decodeSection` (src/lib/decoder.ts:387-394): the section, its map, and the running totals as its bases. */
    method StoreSectionBases(section: ParsedSection, sm: SourceMap)
      modifies this`sections, this`sectionMaps, this`sectionNameOffsets, this`sectionSourceOffsets,
               this`sectionMappingOffsets, this`sectionScopeOffsets, this`sectionLocalOffsets
      ensures State() == StoreSection(old(State()), section, sm)
    {
      StoreSectionFields(State(), section, sm);
      PutBases(section, sm);
    }

    /** The seven stores of `StoreSectionBases`, field by field. */
    method PutBases(section: ParsedSection, sm: SourceMap)
      modifies this`sections, this`sectionMaps, this`sectionNameOffsets, this`sectionSourceOffsets,
               this`sectionMappingOffsets, this`sectionScopeOffsets, this`sectionLocalOffsets
      ensures sections == Put(old(sections), section.sectionIndex, section)
      ensures sectionMaps == Put(old(sectionMaps), section.sectionIndex, sm)
      ensures sectionNameOffsets == Put(old(sectionNameOffsets), section.sectionIndex, lastSectionNameOffset)
      ensures sectionSourceOffsets == Put(old(sectionSourceOffsets), section.sectionIndex, lastSectionSourceOffset)
      ensures sectionMappingOffsets == Put(old(sectionMappingOffsets), section.sectionIndex, lastSectionMappingOffset)
      ensures sectionScopeOffsets == Put(old(sectionScopeOffsets), section.sectionIndex, lastSectionScopeOffset)
      ensures sectionLocalOffsets == Put(old(sectionLocalOffsets), section.sectionIndex, lastSectionLocalOffset)
    {
      var i := section.sectionIndex;
      sections := Put(sections, i, section);
      sectionMaps := Put(sectionMaps, i, sm);
      sectionNameOffsets := Put(sectionNameOffsets, i, lastSectionNameOffset);
      sectionSourceOffsets := Put(sectionSourceOffsets, i, lastSectionSourceOffset);
      sectionMappingOffsets := Put(sectionMappingOffsets, i, lastSectionMappingOffset);
      sectionScopeOffsets := Put(sectionScopeOffsets, i, lastSectionScopeOffset);
      sectionLocalOffsets := Put(sectionLocalOffsets, i, lastSectionLocalOffset);
    }

    /** `decodeSectionSources` (src/lib/decoder.ts:403-405). */
    method DecodeSectionSources(sm: SourceMap)
      modifies this`lastSectionSourceOffset
      ensures State() == DecodeSources(old(State()), sm)
    {
      lastSectionSourceOffset := lastSectionSourceOffset + |sm.sources|;
    }

    /** `decodeSectionNames` (src/lib/decoder.ts:407-411). */
    method DecodeSectionNames(sm: SourceMap)
      modifies this`lastSectionNameOffset
      ensures State() == DecodeNames(old(State()), sm)
    {
      if sm.names.Some? {
        AddToNameTotal(|sm.names.value|);
      }
    }

    /** `decodeSection` (src/lib/decoder.ts:386-401): store the bases, then the six decoders in order. */
    method DecodeSection(section: ParsedSection, sm: SourceMap) returns (r: Result<(), Fault>)
      modifies this`sections, this`sectionMaps, this`sectionNameOffsets, this`sectionSourceOffsets,
               this`sectionMappingOffsets, this`sectionScopeOffsets, this`sectionLocalOffsets,
               this`sources, this`names, this`mappings, this`generatedMappingCache,
               this`sectionGeneratedMappingCache, this`sourceMappingCache, this`scopes,
               this`lastSectionNameOffset, this`lastSectionSourceOffset, this`lastSectionScopeOffset
      ensures r.Ok? <==> SectionDecode.DecodeSection(host, old(State()), section, sm).Ok?
      ensures r.Ok? ==> State() == SectionDecode.DecodeSection(host, old(State()), section, sm).value
    {
      StoreSectionBases(section, sm);
      DecodeSectionSources(sm);
      DecodeSectionNames(sm);
      r := DecodeSectionMappings(section, sm);
      if r.Err? {
        return;
      }
      r := DecodeSectionScopes(section, sm);
      if r.Err? {
        return;
      }
      DecodeSectionLocals(section, sm);
      r := DecodeSectionMediaTypes(section, sm);
    }

    /**
     * One section of an index map (src/lib/decoder.ts:339-369): its inline
     * map, or the map loaded from its URL; a section without either, or whose
     * map cannot be loaded, is skipped.
     */
    method DecodeIndexSection(s: Section, k: nat) returns (r: Result<(), Fault>)
      modifies this`sections, this`sectionMaps, this`sectionNameOffsets, this`sectionSourceOffsets,
               this`sectionMappingOffsets, this`sectionScopeOffsets, this`sectionLocalOffsets,
               this`sources, this`names, this`mappings, this`generatedMappingCache,
               this`sectionGeneratedMappingCache, this`sourceMappingCache, this`scopes,
               this`lastSectionNameOffset, this`lastSectionSourceOffset, this`lastSectionScopeOffset
      ensures r.Ok? <==> SectionDecode.DecodeIndexSection(host, old(State()), s, k).Ok?
      ensures r.Ok? ==> State() == SectionDecode.DecodeIndexSection(host, old(State()), s, k).value
    {
      var sectionMap: Option<SourceMap> := None;
      if s.sectionMap.Some? {
        sectionMap := s.sectionMap;
      } else if s.url != "" {
        sectionMap := host.load(host.resolve(host.mapRoot, s.url));
      }
      if sectionMap.None? {
        return Ok(());
      }
      var parsed := ParsedSection(k, s.offset.line, s.offset.column, host.resolve(host.mapRoot, sectionMap.value.file));
      r := DecodeSection(parsed, sectionMap.value);
    }

    /** `decodeIndexMap` (src/lib/decoder.ts:336-371). */
    method DecodeIndexMap(im: IndexMap) returns (r: Result<(), Fault>)
      modifies this`version, this`generatedFile,
               this`sections, this`sectionMaps, this`sectionNameOffsets, this`sectionSourceOffsets,
               this`sectionMappingOffsets, this`sectionScopeOffsets, this`sectionLocalOffsets,
               this`sources, this`names, this`mappings, this`generatedMappingCache,
               this`sectionGeneratedMappingCache, this`sourceMappingCache, this`scopes,
               this`lastSectionNameOffset, this`lastSectionSourceOffset, this`lastSectionScopeOffset
      ensures var t := old(State()).(version := im.version, generatedFile := host.resolve(host.mapRoot, im.file));
              r.Ok? <==> DecodeSections(host, t, im.sections, |im.sections|).Ok?
      ensures var t := old(State()).(version := im.version, generatedFile := host.resolve(host.mapRoot, im.file));
              r.Ok? ==> State() == DecodeSections(host, t, im.sections, |im.sections|).value
    {
      SetHeader(im.version, im.file);
      ghost var t := State();
      var k := 0;
      while k < |im.sections|
        invariant k <= |im.sections|
        invariant DecodeSections(host, t, im.sections, k) == Ok(State())
      {
        DecodeSectionsStep(host, t, im.sections, k, State());
        r := DecodeIndexSection(im.sections[k], k);
        if r.Err? {
          DecodeSectionsFailureSticks(host, t, im.sections, k + 1, |im.sections|);
          return;
        }
        k := k + 1;
      }
      return Ok(());
    }

    /** `decodeSourceMap` (src/lib/decoder.ts:373-384): the whole map is section 0 at (0, 0). */
    method DecodeSourceMap(sm: SourceMap) returns (r: Result<(), Fault>)
      modifies this`version, this`generatedFile,
               this`sections, this`sectionMaps, this`sectionNameOffsets, this`sectionSourceOffsets,
               this`sectionMappingOffsets, this`sectionScopeOffsets, this`sectionLocalOffsets,
               this`sources, this`names, this`mappings, this`generatedMappingCache,
               this`sectionGeneratedMappingCache, this`sourceMappingCache, this`scopes,
               this`lastSectionNameOffset, this`lastSectionSourceOffset, this`lastSectionScopeOffset
      ensures var t := old(State()).(version := sm.version, generatedFile := host.resolve(host.mapRoot, sm.file));
              r.Ok? <==> SectionDecode.DecodeSection(host, t, ParsedSection(0, 0, 0, t.generatedFile), sm).Ok?
      ensures var t := old(State()).(version := sm.version, generatedFile := host.resolve(host.mapRoot, sm.file));
              r.Ok? ==> State() == SectionDecode.DecodeSection(host, t, ParsedSection(0, 0, 0, t.generatedFile), sm).value
    {
      SetHeader(sm.version, sm.file);
      r := DecodeSection(ParsedSection(0, 0, 0, generatedFile), sm);
    }

    /** `version = map.version; generatedFile = host.resolve(mapRoot, map.file)` (src/lib/decoder.ts:337-338, 374-375). */
    method SetHeader(mapVersion: int, file: string)
      modifies this`version, this`generatedFile
      ensures State() == old(State()).(version := mapVersion, generatedFile := host.resolve(host.mapRoot, file))
    {
      version := mapVersion;
      generatedFile := host.resolve(host.mapRoot, file);
    }

    // -------------------------------------------------------------------------
    // Attributing a global index to a section

    /** `getSectionForName` (src/lib/decoder.ts:762-772). */
    method GetSectionForName(nameIndex: int) returns (r: Option<ParsedSection>)
      ensures r == SectionFor(sections, sectionNameOffsets, nameIndex)
    {
      r := ScanSections(sectionNameOffsets, nameIndex);
    }

    /** `getSectionForSource` (src/lib/decoder.ts:826-836). */
    method GetSectionForSource(sourceIndex: int) returns (r: Option<ParsedSection>)
      ensures r == SectionFor(sections, sectionSourceOffsets, sourceIndex)
    {
      r := ScanSections(sectionSourceOffsets, sourceIndex);
    }

    /** The loop shared by both: start at section 0, move on while the next base is below the index. */
    method ScanSections(offsets: seq<Option<nat>>, index: int) returns (r: Option<ParsedSection>)
      ensures r == SectionFor(sections, offsets, index)
    {
      r := At(sections, 0);
      var i := 1;
      while i < |offsets|
        invariant SectionScan(sections, offsets, index, i, r) == SectionFor(sections, offsets, index)
        decreases |offsets| - i
      {
        if offsets[i].Some? && offsets[i].value < index {
          r := At(sections, i);
        } else {
          break;
        }
        i := i + 1;
      }
    }

    // -------------------------------------------------------------------------
    // Mappings by generated position

    /** `getMappingAtGeneratedLocation` (src/lib/decoder.ts:1063-1073): a scan of the line's cache. */
    method GetMappingAtGeneratedLocation(generatedLine: int, generatedColumn: int) returns (r: Option<Mapping>)
      ensures r == MappingAtGeneratedLocation(State(), generatedLine, generatedColumn)
    {
      if generatedLine !in generatedMappingCache {
        return None;
      }
      var lineCache := generatedMappingCache[generatedLine];
      var i := 0;
      while i < |lineCache|
        invariant i <= |lineCache|
        invariant FirstAtColumn(lineCache[i..], generatedColumn) == FirstAtColumn(lineCache, generatedColumn)
      {
        if lineCache[i].generatedColumn == generatedColumn {
          return Some(lineCache[i]);
        }
        assert lineCache[i..][1..] == lineCache[i + 1..];
        i := i + 1;
      }
      return None;
    }

    /** `getMappingAtGeneratedLocationInSection` (src/lib/decoder.ts:1075-1084): the line cache indexed by the column. */
    method GetMappingAtGeneratedLocationInSection(sectionIndex: int, sectionGeneratedLine: int, sectionGeneratedColumn: int)
      returns (r: Option<Mapping>)
      ensures r == MappingAtGeneratedLocationInSection(State(), sectionIndex, sectionGeneratedLine, sectionGeneratedColumn)
    {
      if sectionIndex in sectionGeneratedMappingCache && sectionGeneratedLine in sectionGeneratedMappingCache[sectionIndex] {
        var lineCache := sectionGeneratedMappingCache[sectionIndex][sectionGeneratedLine];
        if 0 <= sectionGeneratedColumn < |lineCache| {
          return Some(lineCache[sectionGeneratedColumn]);
        }
      }
      return None;
    }

    // -------------------------------------------------------------------------
    // Scopes and locals by generated position

    /** `getNarrowestScopeAtGeneratedLocation` (src/lib/decoder.ts:1142-1161). */
    method GetNarrowestScopeAtGeneratedLocation(generatedLine: int, generatedColumn: int) returns (r: Result<Option<Scope>, Fault>)
      ensures r == Narrowest(State(), Position(generatedLine, generatedColumn))
    {
      r := NarrowestScope(scopes, Position(generatedLine, generatedColumn), false);
    }

    /**
     * `getNarrowestScopeAtGeneratedLocationInSection` (src/lib/decoder.ts:1163-1183):
     * the section's scopes, compared by their section positions.
     */
    method GetNarrowestScopeAtGeneratedLocationInSection(sectionIndex: int, sectionGeneratedLine: int, sectionGeneratedColumn: int)
      returns (r: Result<Option<Scope>, Fault>)
      ensures r == NarrowestInSection(State(), sectionIndex, Position(sectionGeneratedLine, sectionGeneratedColumn))
    {
      var sectionScopes := ScopesInSection(State(), sectionIndex);
      r := NarrowestScope(sectionScopes, Position(sectionGeneratedLine, sectionGeneratedColumn), true);
    }

    /** The loop of both: skip the scopes that do not contain `p`, keep the last one that replaces the best so far. */
    method NarrowestScope(scopeTable: seq<Option<Scope>>, p: Position, inSection: bool) returns (r: Result<Option<Scope>, Fault>)
      ensures r == NarrowestIn(scopeTable, p, inSection, |scopeTable|)
    {
      var best: Option<Scope> := None;
      var k := 0;
      while k < |scopeTable|
        invariant k <= |scopeTable|
        invariant NarrowestIn(scopeTable, p, inSection, k) == Ok(best)
      {
        if scopeTable[k].None? {
          NarrowestFailureSticks(scopeTable, p, inSection, k + 1, |scopeTable|);
          return Err(HoleInScopes(k));
        }
        var scope := scopeTable[k].value;
        if Kept(scope, p, inSection) && Replaces(best, scope) {
          best := Some(scope);
        }
        k := k + 1;
      }
      return Ok(best);
    }

    /**
     * `getLocalAtGeneratedLocation{,InSection}For{Generated,Source}Name`
     * (src/lib/decoder.ts:1227-1273) on the whole map: the narrowest scope's
     * locals searched by name.
     */
    method GetLocalAtGeneratedLocation(generatedLine: int, generatedColumn: int, kind: NameKind, name: string)
      returns (r: Result<Option<Local>, Fault>)
      ensures r == LocalAt(State(), Position(generatedLine, generatedColumn), kind, name)
    {
      var scope := GetNarrowestScopeAtGeneratedLocation(generatedLine, generatedColumn);
      match scope {
        case Err(e) => return Err(e);
        case Ok(None) => return Ok(None);
        case Ok(Some(s)) => r := FindLocalByName(s.locals, kind, name);
      }
    }

    /** The same lookups within one section, by section position. */
    method GetLocalAtGeneratedLocationInSection(sectionIndex: int, sectionGeneratedLine: int, sectionGeneratedColumn: int,
                                                kind: NameKind, name: string)
      returns (r: Result<Option<Local>, Fault>)
      ensures r == LocalAtInSection(State(), sectionIndex, Position(sectionGeneratedLine, sectionGeneratedColumn), kind, name)
    {
      var scope := GetNarrowestScopeAtGeneratedLocationInSection(sectionIndex, sectionGeneratedLine, sectionGeneratedColumn);
      match scope {
        case Err(e) => return Err(e);
        case Ok(None) => return Ok(None);
        case Ok(Some(s)) => r := FindLocalByName(s.locals, kind, name);
      }
    }

    // -------------------------------------------------------------------------
    // Candidates for a source position

    /** `getCandidateNarrowestScopesAtSourceLocation` (src/lib/decoder.ts:1185-1197). */
    method GetCandidateNarrowestScopesAtSourceLocation(sourceIndex: int, sourceLine: int, sourceColumn: int)
      returns (r: Result<seq<Scope>, Fault>)
      ensures r == CandidateNarrowestScopes(State(), sourceIndex, sourceLine, sourceColumn)
    {
      r := CollectScopes(CandidatesAtSourceLocation(State(), sourceIndex, sourceLine, sourceColumn));
    }

    /** `getCandidateNarrowestScopesAtSourceLocationInSection` (src/lib/decoder.ts:1199-1202). */
    method GetCandidateNarrowestScopesAtSourceLocationInSection(sectionIndex: int, sectionSourceIndex: int,
                                                                sourceLine: int, sourceColumn: int)
      returns (r: Result<seq<Scope>, Fault>)
      ensures r == CandidateNarrowestScopesInSection(State(), sectionIndex, sectionSourceIndex, sourceLine, sourceColumn)
    {
      var base := At(sectionSourceOffsets, sectionIndex);
      if base.None? {
        return Ok([]);
      }
      var sourceIndex := base.value + sectionIndex;
      r := GetCandidateNarrowestScopesAtSourceLocation(sourceIndex, sourceLine, sourceColumn);
      assert CandidateNarrowestScopesInSection(State(), sectionIndex, sectionSourceIndex, sourceLine, sourceColumn)
             == CandidateNarrowestScopes(State(), sourceIndex, sourceLine, sourceColumn);
    }

    /** The `forEach` with its `seen` array: each mapping's narrowest scope, once per scope index. */
    method CollectScopes(ms: seq<Mapping>) returns (r: Result<seq<Scope>, Fault>)
      ensures r == CandidateScopes(State(), ms)
    {
      var result: seq<Scope> := [];
      var seen: set<nat> := {};
      var k := 0;
      while k < |ms|
        invariant k <= |ms|
        invariant CandidateScopes(State(), ms[..k]) == Ok(result)
        invariant seen == ScopeIndices(result)
      {
        assert ms[..k + 1][..k] == ms[..k];
        var scope := GetNarrowestScopeAtGeneratedLocation(ms[k].generatedLine, ms[k].generatedColumn);
        if scope.Err? {
          CandidateScopesFailureSticks(State(), ms, k + 1, scope.error);
          return Err(scope.error);
        }
        if scope.value.None? {
          CandidateScopesFailureSticks(State(), ms, k + 1, NoScope);
          return Err(NoScope);
        }
        var s := scope.value.value;
        if s.scopeIndex !in seen {
          ScopeIndicesSnoc(result, s);
          seen := seen + {s.scopeIndex};
          result := result + [s];
        }
        k := k + 1;
      }
      assert ms[..k] == ms;
      return Ok(result);
    }

    /** `getCandidateLocalsAtSourceLocationFor{Generated,Source}Name` (src/lib/decoder.ts:1275-1287). */
    method GetCandidateLocalsAtSourceLocation(sourceIndex: int, sourceLine: int, sourceColumn: int, kind: NameKind, name: string)
      returns (r: Result<seq<Local>, Fault>)
      ensures r == CandidateLocalsAtSource(State(), sourceIndex, sourceLine, sourceColumn, kind, name)
    {
      r := CollectLocals(CandidatesAtSourceLocation(State(), sourceIndex, sourceLine, sourceColumn), kind, name);
    }

    /** `getCandidateLocalsAtSourceLocationInSectionFor{Generated,Source}Name` (src/lib/decoder.ts:1289-1329). */
    method GetCandidateLocalsAtSourceLocationInSection(sectionIndex: int, sectionSourceIndex: int, sourceLine: int,
                                                       sourceColumn: int, kind: NameKind, name: string)
      returns (r: Result<seq<Local>, Fault>)
      ensures r == CandidateLocalsAtSourceInSection(State(), sectionIndex, sectionSourceIndex, sourceLine, sourceColumn, kind, name)
    {
      var ms := CandidatesAtSourceLocationInSection(State(), sectionIndex, sectionSourceIndex, sourceLine, sourceColumn);
      r := CollectLocals(ms, kind, name);
    }

    /** The `forEach` with its `seen` array: each mapping's local, once per local index. */
    method CollectLocals(ms: seq<Mapping>, kind: NameKind, name: string) returns (r: Result<seq<Local>, Fault>)
      ensures r == CandidateLocals(State(), ms, kind, name)
    {
      var result: seq<Local> := [];
      var seen: set<nat> := {};
      var k := 0;
      while k < |ms|
        invariant k <= |ms|
        invariant CandidateLocals(State(), ms[..k], kind, name) == Ok(result)
        invariant seen == LocalIndices(result)
      {
        assert ms[..k + 1][..k] == ms[..k];
        var local := GetLocalAtGeneratedLocation(ms[k].generatedLine, ms[k].generatedColumn, kind, name);
        if local.Err? {
          CandidateLocalsFailureSticks(State(), ms, kind, name, k + 1, local.error);
          return Err(local.error);
        }
        if local.value.None? {
          CandidateLocalsFailureSticks(State(), ms, kind, name, k + 1, NoLocal);
          return Err(NoLocal);
        }
        var l := local.value.value;
        if l.localIndex !in seen {
          LocalIndicesSnoc(result, l);
          seen := seen + {l.localIndex};
          result := result + [l];
        }
        k := k + 1;
      }
      assert ms[..k] == ms;
      return Ok(result);
    }

    // -------------------------------------------------------------------------
    // The generated file and the source files

    /**
     * `getGeneratedFile` (src/lib/decoder.ts:682-728), given the generated
     * file's text: the remembered object, or a new one built and remembered.
     */
    method GetGeneratedFile(content: string) returns (f: GeneratedFile)
      modifies this`generatedFileObject
      ensures old(generatedFileObject).Some? ==> f == old(generatedFileObject).value && generatedFileObject == old(generatedFileObject)
      ensures old(generatedFileObject).None? ==> f == GeneratedFileOf(State(), content) && generatedFileObject == Some(f)
    {
      if generatedFileObject.Some? {
        return generatedFileObject.value;
      }
      f := BuildGeneratedFile(content);
      generatedFileObject := Some(f);
    }

    /** The two loops of `getGeneratedFile`: one line per line of the text, one pass over its columns each. */
    method BuildGeneratedFile(content: string) returns (f: GeneratedFile)
      ensures f == GeneratedFileOf(State(), content)
    {
      var lines := SplitLines(content);
      var generatedLines: seq<GeneratedLine> := [];
      var k := 0;
      while k < |lines|
        invariant k <= |lines| && |generatedLines| == k
        invariant forall j :: 0 <= j < k ==> generatedLines[j] == GeneratedLineOf(State(), j, lines[j])
      {
        var segments := BuildGeneratedSegments(k, lines[k]);
        generatedLines := generatedLines + [GeneratedLine(k, segments)];
        k := k + 1;
      }
      f := GeneratedFile(generatedFile, content, generatedLines);
      assert generatedLines == GeneratedFileOf(State(), content).lines;
    }

    /**
     * The column loop of one generated line: at column 0 and wherever a
     * mapping starts, close the open segment there and open a new one that
     * runs to the line's end.
     */
    method BuildGeneratedSegments(line: nat, text: string) returns (segs: seq<GeneratedSegment>)
      ensures segs == GeneratedSegments(State(), line, |text|, |text|)
    {
      segs := [];
      var column := 0;
      while column < |text|
        invariant column <= |text|
        invariant segs == GeneratedSegments(State(), line, |text|, column)
      {
        var mapping := GetMappingAtGeneratedLocation(line, column);
        if mapping.Some? || column == 0 {
          if segs != [] {
            segs := segs[|segs| - 1 := segs[|segs| - 1].(endColumn := column)];
          }
          assert segs == CloseGenerated(GeneratedSegments(State(), line, |text|, column), column);
          segs := segs + [GeneratedSegment(mapping, line, column, |text|)];
        }
        column := column + 1;
      }
    }

    /** `getSourceContentInSection` (src/lib/decoder.ts:910-935). */
    method GetSourceContentInSection(sectionIndex: int, sectionSourceIndex: int) returns (r: Content)
      modifies this`sources, this`sourcesContent
      ensures (r, State(), Memo()) == ContentInSection(host, old(State()), old(Memo()), sectionIndex, sectionSourceIndex)
    {
      var base := At(sectionSourceOffsets, sectionIndex);
      if base.None? {
        return Missing;
      }
      var sourceIndex := base.value + sectionSourceIndex;
      if sourceIndex in sourcesContent {
        return sourcesContent[sourceIndex];
      }
      var sourceMap := At(sectionMaps, sectionIndex);
      if sourceMap.None? || sectionSourceIndex >= |sourceMap.value.sources| {
        return Missing;
      }
      var content := InlineContent(sourceMap.value, sourceIndex, sectionSourceIndex);
      if !content.Text? {
        var source := GetSourceInSection(sectionIndex, sectionSourceIndex);
        if source.Some? {
          var read := host.read(source.value.url);
          if read.Some? {
            content := Text(read.value);
          }
        }
      }
      sourcesContent := sourcesContent[sourceIndex := content];
      return content;
    }

    /**
     * `getSourceFileInSection` (src/lib/decoder.ts:972-1030): the memo check
     * looks at the remembered contents; a content that is not a string fails
     * as `content.split` does; a new file gets one line per line of its
     * content and is remembered.
     */
    method GetSourceFileInSection(sectionIndex: int, sectionSourceIndex: int) returns (r: Result<Option<SourceFile>, Fault>)
      modifies this`sources, this`sourcesContent, this`sourceFiles
      ensures (r, State(), Memo()) == SourceFileInSection(host, old(State()), old(Memo()), sectionIndex, sectionSourceIndex)
    {
      var base := At(sectionSourceOffsets, sectionIndex);
      if base.None? {
        return Ok(None);
      }
      var sourceIndex := base.value + sectionSourceIndex;
      if sourceIndex in sourcesContent {
        if sourceIndex in sourceFiles {
          return Ok(Some(sourceFiles[sourceIndex]));
        }
        return Ok(None);
      }
      var sourceMap := At(sectionMaps, sectionIndex);
      if sourceMap.None? || sectionSourceIndex >= |sourceMap.value.sources| {
        return Ok(None);
      }
      var content := GetSourceContentInSection(sectionIndex, sectionSourceIndex);
      if content.Missing? {
        return Ok(None);
      }
      if content.NonString? {
        return Err(ContentNotString(sourceIndex));
      }
      ghost var t1 := State();
      var lines := SplitLines(content.text);
      var sourceLines := BuildSourceLines(sourceIndex, lines);
      assert sourceLines == seq(|lines|, l requires 0 <= l < |lines| => SourceLineOf(t1, sourceIndex, l, lines[l]));
      var source := GetSourceInSection(sectionIndex, sectionSourceIndex);
      var file := SourceFile(generatedFile, content.text, sourceLines, source);
      sourceFiles := sourceFiles[sourceIndex := file];
      return Ok(Some(file));
    }

    /** The line loop of `getSourceFileInSection`. */
    method BuildSourceLines(sourceIndex: int, lines: seq<string>) returns (r: seq<SourceLine>)
      ensures |r| == |lines|
      ensures forall j :: 0 <= j < |lines| ==> r[j] == SourceLineOf(State(), sourceIndex, j, lines[j])
    {
      r := [];
      var k := 0;
      while k < |lines|
        invariant k <= |lines| && |r| == k
        invariant forall j :: 0 <= j < k ==> r[j] == SourceLineOf(State(), sourceIndex, j, lines[j])
      {
        var segments := BuildSourceSegments(sourceIndex, k, lines[k]);
        r := r + [SourceLine(k, segments)];
        k := k + 1;
      }
    }

    /**
     * The column loop of one source line; the candidates are always an array,
     * so every column closes the open segment and opens a new one.
     */
    method BuildSourceSegments(sourceIndex: int, line: nat, text: string) returns (segs: seq<SourceSegment>)
      ensures segs == SourceSegments(State(), sourceIndex, line, |text|, |text|)
    {
      segs := [];
      var column := 0;
      while column < |text|
        invariant column <= |text|
        invariant segs == SourceSegments(State(), sourceIndex, line, |text|, column)
      {
        var mappings := CandidatesAtSourceLocation(State(), sourceIndex, line, column);
        if segs != [] {
          CloseSourceInPlace(segs, column);
          segs := segs[|segs| - 1 := segs[|segs| - 1].(endColumn := column)];
        }
        segs := segs + [SourceSegment(mappings, line, column, |text|)];
        column := column + 1;
      }
    }
  }

  /** Once the narrowest-scope scan meets a hole, the whole scan ends in that error. */
  lemma {:induction false} NarrowestFailureSticks(scopes: seq<Option<Scope>>, p: Position, inSection: bool, k: nat, n: nat)
    requires k <= n <= |scopes|
    requires NarrowestIn(scopes, p, inSection, k).Err?
    ensures NarrowestIn(scopes, p, inSection, n) == NarrowestIn(scopes, p, inSection, k)
    decreases n - k
  {
    if k < n {
      NarrowestFailureSticks(scopes, p, inSection, k + 1, n);
    }
  }

  /** Once collecting candidate scopes fails on a prefix, it fails with that error on the whole list. */
  lemma {:induction false} CandidateScopesFailureSticks(t: Tables, ms: seq<Mapping>, k: nat, e: Fault)
    requires k <= |ms|
    requires CandidateScopes(t, ms[..k]) == Err(e)
    ensures CandidateScopes(t, ms) == Err(e)
    decreases |ms| - k
  {
    if k < |ms| {
      assert ms[..k + 1][..k] == ms[..k];
      CandidateScopesFailureSticks(t, ms, k + 1, e);
    } else {
      assert ms[..k] == ms;
    }
  }

  /** Once collecting candidate locals fails on a prefix, it fails with that error on the whole list. */
  lemma {:induction false} CandidateLocalsFailureSticks(t: Tables, ms: seq<Mapping>, kind: NameKind, name: string, k: nat, e: Fault)
    requires k <= |ms|
    requires CandidateLocals(t, ms[..k], kind, name) == Err(e)
    ensures CandidateLocals(t, ms, kind, name) == Err(e)
    decreases |ms| - k
  {
    if k < |ms| {
      assert ms[..k + 1][..k] == ms[..k];
      CandidateLocalsFailureSticks(t, ms, kind, name, k + 1, e);
    } else {
      assert ms[..k] == ms;
    }
  }

  lemma ScopeIndicesSnoc(acc: seq<Scope>, s: Scope)
    ensures ScopeIndices(acc + [s]) == ScopeIndices(acc) + {s.scopeIndex}
  {
    var r := acc + [s];
    assert r[|acc|] == s;
    forall x | x in ScopeIndices(acc) ensures x in ScopeIndices(r) {
      var k :| 0 <= k < |acc| && acc[k].scopeIndex == x;
      assert r[k] == acc[k];
    }
  }

  lemma LocalIndicesSnoc(acc: seq<Local>, l: Local)
    ensures LocalIndices(acc + [l]) == LocalIndices(acc) + {l.localIndex}
  {
    var r := acc + [l];
    assert r[|acc|] == l;
    forall x | x in LocalIndices(acc) ensures x in LocalIndices(r) {
      var k :| 0 <= k < |acc| && acc[k].localIndex == x;
      assert r[k] == acc[k];
    }
  }

  /** The loop over a scope's locals: the first with the name; a local without a generated name throws when that name is compared. */
  method FindLocalByName(locals: seq<Local>, kind: NameKind, name: string) returns (r: Result<Option<Local>, Fault>)
    ensures r == FindLocal(locals, kind, name)
  {
    var i := 0;
    while i < |locals|
      invariant i <= |locals|
      invariant FindLocal(locals[i..], kind, name) == FindLocal(locals, kind, name)
    {
      var local := locals[i];
      match kind {
        case GeneratedName =>
          if local.generatedName.None? {
            return Err(NoGeneratedName);
          }
          if local.generatedName.value.text == name {
            return Ok(Some(local));
          }
        case SourceName =>
          if local.sourceName.Some? && local.sourceName.value.text == name {
            return Ok(Some(local));
          }
      }
      assert locals[i..][1..] == locals[i + 1..];
      i := i + 1;
    }
    return Ok(None);
  }

  /** Once the mappings found so far fail to apply, decoding the section fails whatever the rest of the scan does. */
  lemma ScanKeepsFailure(host: Host, t: Tables, sectionIndex: nat, mappingOffset: nat,
                         text: string, pos: nat, startPos: nat, c: Counters, acc: seq<RawMapping>)
    requires startPos <= pos
    requires ApplyAll(host, t, sectionIndex, mappingOffset, acc).Err?
    ensures var scan := ScanFrom(text, pos, startPos, c, acc);
            scan.Err? || ApplyAll(host, t, sectionIndex, mappingOffset, scan.value).Err?
  {
    var scan := ScanFrom(text, pos, startPos, c, acc);
    if scan.Ok? {
      ScanExtends(text, pos, startPos, c, acc);
      var more := scan.value[|acc|..];
      assert scan.value == acc + more;
      ApplyAllFailureSticks(host, t, sectionIndex, mappingOffset, acc, more);
    }
  }

  /** The end of the mappings loop: every mapping applied, then the name count added once more. */
  lemma MappingsDone(host: Host, t: Tables, section: ParsedSection, sm: SourceMap, found: seq<RawMapping>, t1: Tables)
    requires At(t.mappingOffsets, section.sectionIndex).Some?
    requires ScanMappings(sm.mappings, section.generatedLine, section.generatedColumn) == Ok(found)
    requires ApplyAll(host, t, section.sectionIndex, At(t.mappingOffsets, section.sectionIndex).value, found) == Ok(t1)
    ensures DecodeMappings(host, t, section, sm)
         == Ok(if sm.names.Some? then t1.(lastNameOffset := t1.lastNameOffset + |sm.names.value|) else t1)
  {
  }

  /** A scan that fails, or yields a mapping that cannot be added, fails the section. */
  lemma MappingsFail(host: Host, t: Tables, section: ParsedSection, sm: SourceMap)
    requires At(t.mappingOffsets, section.sectionIndex).Some?
    requires var scan := ScanMappings(sm.mappings, section.generatedLine, section.generatedColumn);
             scan.Err? || ApplyAll(host, t, section.sectionIndex, At(t.mappingOffsets, section.sectionIndex).value, scan.value).Err?
    ensures DecodeMappings(host, t, section, sm).Err?
  {
  }

  /** A segment whose mapping cannot be added fails the whole section. */
  lemma SegmentFailure(host: Host, t: Tables, sectionIndex: nat, mappingOffset: nat,
                       text: string, pos: nat, startPos: nat, c: Counters, acc: seq<RawMapping>, segment: seq<int>)
    requires startPos < pos <= |text| && EndsField(text, pos)
    requires segment == Vlq.DecodeWindow(text, startPos, pos) && |segment| > 0
    requires ApplyAll(host, t, sectionIndex, mappingOffset, acc + [Emit(Advance(c, segment), segment)]).Err?
    ensures var scan := ScanFrom(text, pos, startPos, c, acc);
            scan.Err? || ApplyAll(host, t, sectionIndex, mappingOffset, scan.value).Err?
  {
    var d := Advance(c, segment);
    ScanSegmentStep(text, pos, startPos, c, acc);
    ScanKeepsFailure(host, t, sectionIndex, mappingOffset, text, pos + 1, pos + 1,
                     AfterSeparator(text, pos, d), acc + [Emit(d, segment)]);
  }

  /** A failure while assigning media types stops the rest of the loop too. */
  lemma {:induction false} AssignMediaTypesFailureSticks(host: Host, t: Tables, sectionIndex: nat, types: seq<string>,
                                                         offsets: seq<int>, k: nat, n: nat)
    requires k <= n
    requires AssignMediaTypes(host, t, sectionIndex, types, offsets, k).Err?
    ensures AssignMediaTypes(host, t, sectionIndex, types, offsets, n).Err?
    decreases n - k
  {
    if k < n {
      AssignMediaTypesFailureSticks(host, t, sectionIndex, types, offsets, k + 1, n);
    }
  }

  /** The media type at `mediaTypeIndex` (src/lib/decoder.ts:637-643), the last one past the end. */
  method PickMediaType(types: seq<string>, mediaTypeIndex: int) returns (mediaType: Option<string>)
    ensures mediaType == MediaTypeAt(types, mediaTypeIndex)
  {
    if mediaTypeIndex < |types| {
      mediaType := if 0 <= mediaTypeIndex then Some(types[mediaTypeIndex]) else None;
    } else {
      mediaType := if |types| > 0 then Some(types[|types| - 1]) else None;
    }
  }

  /** `mediaTypeIndex += offsets[k]` while there are offsets (src/lib/decoder.ts:633-635). */
  method NextCursor(offsets: seq<int>, k: nat, index: int) returns (next: int)
    requires index == if k == 0 then 0 else Cursor(offsets, k - 1)
    ensures next == Cursor(offsets, k)
  {
    next := index;
    if k < |offsets| {
      next := next + offsets[k];
    }
  }

  /** One more turn of the media-type loop. */
  lemma AssignMediaTypesStep(host: Host, t: Tables, sectionIndex: nat, types: seq<string>, offsets: seq<int>, k: nat, t1: Tables)
    requires AssignMediaTypes(host, t, sectionIndex, types, offsets, k) == Ok(t1)
    ensures AssignMediaTypes(host, t, sectionIndex, types, offsets, k + 1)
         == SetMediaType(host, t1, sectionIndex, k, MediaTypeAt(types, Cursor(offsets, k)))
  {
  }

  /** Remembering a source and then overwriting it with its media type is `SetMediaType`. */
  lemma RememberThenPut(host: Host, t: Tables, sectionIndex: nat, k: nat, mediaType: Option<string>)
    requires SourceInSection(host, t, sectionIndex, k).Some?
    ensures var s := SourceInSection(host, t, sectionIndex, k).value;
            var t1 := RememberSource(host, t, sectionIndex, k);
            SetMediaType(host, t, sectionIndex, k, mediaType) == Ok(t1.(sources := Put(t1.sources, s.sourceIndex, s.(mediaType := mediaType))))
  {
    var s := SourceInSection(host, t, sectionIndex, k).value;
    var t1 := RememberSource(host, t, sectionIndex, k);
    var a := Put(t1.sources, s.sourceIndex, s.(mediaType := mediaType));
    var b := Put(t.sources, s.sourceIndex, s.(mediaType := mediaType));
    assert |a| == |b|;
    assert forall j :: 0 <= j < |a| ==> a[j] == b[j];
    assert a == b;
  }

  /** `StoreSection` field by field. */
  lemma StoreSectionFields(t: Tables, section: ParsedSection, sm: SourceMap)
    ensures var i := section.sectionIndex;
            StoreSection(t, section, sm)
            == t.(sections := Put(t.sections, i, section), sectionMaps := Put(t.sectionMaps, i, sm),
                  nameOffsets := Put(t.nameOffsets, i, t.lastNameOffset),
                  sourceOffsets := Put(t.sourceOffsets, i, t.lastSourceOffset),
                  mappingOffsets := Put(t.mappingOffsets, i, t.lastMappingOffset),
                  scopeOffsets := Put(t.scopeOffsets, i, t.lastScopeOffset),
                  localOffsets := Put(t.localOffsets, i, t.lastLocalOffset))
  {
  }

  /** `Place` field by field. */
  lemma PlaceFields(t: Tables, m: Mapping)
    ensures Place(t, m) == t.(generatedCache := Push(t.generatedCache, m.generatedLine, m),
                              sectionCache := Push2(t.sectionCache, m.sectionIndex, m.sectionGeneratedLine, m),
                              sourceCache := if m.source.Some? then Push2(t.sourceCache, m.source.value.sourceIndex, m.source.value.sourceLine, m)
                                             else t.sourceCache,
                              mappings := Put(t.mappings, m.mappingIndex, m))
  {
  }


  /** Applying one more mapping. */
  lemma ApplyAllSnoc(host: Host, t: Tables, sectionIndex: nat, mappingOffset: nat, acc: seq<RawMapping>, raw: RawMapping, t1: Tables)
    requires ApplyAll(host, t, sectionIndex, mappingOffset, acc) == Ok(t1)
    ensures ApplyAll(host, t, sectionIndex, mappingOffset, acc + [raw]) == ApplyMapping(host, t1, sectionIndex, mappingOffset, |acc|, raw)
  {
    assert (acc + [raw])[..|acc|] == acc;
  }

  /**
   * The counter updates for one segment (src/lib/decoder.ts:422-472): the
   * column always, the source index, line and column from four values on,
   * the name index from five; and the mapping they describe.
   */
  method ReadSegment(c: Counters, segment: seq<int>) returns (d: Counters, raw: RawMapping)
    requires |segment| >= 1
    ensures d == Advance(c, segment) && raw == Emit(d, segment)
  {
    d := c.(column := c.column + segment[0], sectionColumn := c.sectionColumn + segment[0]);
    var source: Option<RawSource> := None;
    if |segment| > 3 {
      d := d.(sourceIndex := d.sourceIndex + segment[1], sourceLine := d.sourceLine + segment[2],
              sourceColumn := d.sourceColumn + segment[3]);
      var name: Option<RawName> := None;
      if |segment| > 4 {
        d := d.(nameIndex := d.nameIndex + segment[4]);
        name := Some(RawName(segment[4], d.nameIndex));
      }
      source := Some(RawSource(segment[1], d.sourceIndex, segment[2], d.sourceLine, segment[3], d.sourceColumn, name));
    }
    raw := RawMapping(d.line, d.sectionLine, segment[0], d.column, d.sectionColumn, source);
  }

  /**
   * `decode` (src/lib/decoder.ts:226-334) once the map file has been read and
   * parsed: a fresh decoder, then `decodeIndexMap` or `decodeSourceMap`.
   */
  method Decode(host: Host, doc: Document) returns (r: Result<SourceMapDecoder, Fault>)
    ensures r.Ok? <==> DecodeDocument(host, doc).Ok?
    ensures r.Ok? ==> fresh(r.value) && r.value.host == host && r.value.State() == DecodeDocument(host, doc).value
  {
    var d := new SourceMapDecoder(host);
    var outcome: Result<(), Fault>;
    match doc {
      case Indexed(im) =>
        outcome := d.DecodeIndexMap(im);
      case Plain(sm) =>
        outcome := d.DecodeSourceMap(sm);
    }
    if outcome.Err? {
      return Err(outcome.error);
    }
    return Ok(d);
  }

  /** One more turn of the index-map loop. */
  lemma DecodeSectionsStep(host: Host, t: Tables, sections: seq<Section>, k: nat, t1: Tables)
    requires k < |sections| && DecodeSections(host, t, sections, k) == Ok(t1)
    ensures DecodeSections(host, t, sections, k + 1) == DecodeIndexSection(host, t1, sections[k], k)
  {
  }

  /** A failed section fails every longer run of the index-map loop. */
  lemma {:induction false} DecodeSectionsFailureSticks(host: Host, t: Tables, sections: seq<Section>, k: nat, n: nat)
    requires k <= n <= |sections|
    requires DecodeSections(host, t, sections, k).Err?
    ensures DecodeSections(host, t, sections, n).Err?
    decreases n - k
  {
    if k < n {
      DecodeSectionsFailureSticks(host, t, sections, k + 1, n);
    }
  }
}
