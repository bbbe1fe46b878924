/**
 * What `decodeSectionMappings` does with each segment the scan finds
 * (src/lib/decoder.ts:427-494): build the `Mapping` record, look its source
 * and name up in the lazy tables, and file it in the mapping table and the
 * three line caches.
 */
module MappingTables {
  import opened Wrappers
  import opened Records
  import opened SourceMapJson
  import opened DecoderTables
  import opened MappingStream

  /**
   * The mapping record for the `j`-th segment of a section: its global index
   * is the section's mapping base plus `j`; a segment with a source must name
   * a source the tables can produce (the code dereferences it), and a name
   * that cannot be found is left `undefined`.
   */
  function Resolve(host: Host, t: Tables, sectionIndex: nat, mappingOffset: nat, j: nat, raw: RawMapping): (r: Result<Mapping, Fault>)
    ensures r.Ok? ==> r.value.mappingIndex == mappingOffset + j && r.value.sectionMappingIndex == j &&
                      r.value.sectionIndex == sectionIndex &&
                      r.value.generatedLine == raw.line && r.value.sectionGeneratedLine == raw.sectionLine &&
                      r.value.generatedColumn == raw.column && r.value.sectionGeneratedColumn == raw.sectionColumn &&
                      r.value.generatedColumnOffset == raw.columnOffset &&
                      (r.value.source.Some? <==> raw.source.Some?)
    ensures r.Ok? && raw.source.Some? ==>
              r.value.source.value.sourceLine == raw.source.value.line &&
              r.value.source.value.sourceColumn == raw.source.value.column &&
              (r.value.source.value.name.Some? <==> raw.source.value.name.Some?)
    ensures raw.source.Some? ==>
              (r.Err? <==> SourceInSection(host, t, sectionIndex, raw.source.value.sectionSourceIndex).None?)
    ensures raw.source.None? ==> r.Ok?
  {
    var m := Mapping(mappingOffset + j, sectionIndex, j, raw.line, raw.sectionLine,
                     raw.columnOffset, raw.column, raw.sectionColumn, None);
    match raw.source
    case None => Ok(m)
    case Some(rs) =>
      match SourceInSection(host, t, sectionIndex, rs.sectionSourceIndex)
      case None => Err(UnknownSource(sectionIndex, rs.sectionSourceIndex))
      case Some(src) =>
        var name := match rs.name
          case None => None
          case Some(rn) => Some(NamePart(rn.offset, NameInSection(t, sectionIndex, rn.sectionNameIndex)));
        Ok(m.(source := Some(SourcePart(rs.indexOffset, src.sourceIndex, rs.lineOffset, rs.line,
                                        rs.columnOffset, rs.column, name))))
  }

  /** The lazy tables after the lookups of one segment. */
  function Remember(host: Host, t: Tables, sectionIndex: nat, raw: RawMapping): (r: Tables)
    ensures r == t.(sources := r.sources, names := r.names)
  {
    match raw.source
    case None => t
    case Some(rs) =>
      var t1 := RememberSource(host, t, sectionIndex, rs.sectionSourceIndex);
      match rs.name
      case None => t1
      case Some(rn) => RememberName(t1, sectionIndex, rn.sectionNameIndex)
  }

  /** Filing a mapping: both generated-line caches, the source-line cache when it has a source, and the table. */
  function Place(t: Tables, m: Mapping): (r: Tables)
    ensures r == t.(generatedCache := r.generatedCache, sectionCache := r.sectionCache,
                    sourceCache := r.sourceCache, mappings := r.mappings)
  {
    t.(generatedCache := Push(t.generatedCache, m.generatedLine, m),
       sectionCache := Push2(t.sectionCache, m.sectionIndex, m.sectionGeneratedLine, m),
       sourceCache := match m.source
         case None => t.sourceCache
         case Some(sp) => Push2(t.sourceCache, sp.sourceIndex, sp.sourceLine, m),
       mappings := Put(t.mappings, m.mappingIndex, m))
  }

  /** One segment's whole effect on the tables. */
  function ApplyMapping(host: Host, t: Tables, sectionIndex: nat, mappingOffset: nat, j: nat, raw: RawMapping): Result<Tables, Fault> {
    match Resolve(host, t, sectionIndex, mappingOffset, j, raw)
    case Err(e) => Err(e)
    case Ok(m) => Ok(Place(Remember(host, t, sectionIndex, raw), m))
  }

  /** The segments of a section applied in order; the `j`-th is numbered `j`. */
  function ApplyAll(host: Host, t: Tables, sectionIndex: nat, mappingOffset: nat, raws: seq<RawMapping>): Result<Tables, Fault> {
    if raws == [] then Ok(t)
    else match ApplyAll(host, t, sectionIndex, mappingOffset, raws[..|raws| - 1])
      case Err(e) => Err(e)
      case Ok(t1) => ApplyMapping(host, t1, sectionIndex, mappingOffset, |raws| - 1, raws[|raws| - 1])
  }

  /**
   * `decodeSectionMappings`: scan, apply, and then add the section's name
   * count to the name total once more.
   */
  function DecodeMappings(host: Host, t: Tables, section: ParsedSection, sm: SourceMap): Result<Tables, Fault>
    requires At(t.mappingOffsets, section.sectionIndex).Some?
  {
    match ScanMappings(sm.mappings, section.generatedLine, section.generatedColumn)
    case Err(e) => Err(e)
    case Ok(raws) =>
      match ApplyAll(host, t, section.sectionIndex, At(t.mappingOffsets, section.sectionIndex).value, raws)
      case Err(e) => Err(e)
      case Ok(t1) => Ok(if sm.names.Some? then t1.(lastNameOffset := t1.lastNameOffset + |sm.names.value|) else t1)
  }

  // ---------------------------------------------------------------------------
  // Properties

  /** A failure part-way stops the whole run. */
  lemma {:induction false} ApplyAllFailureSticks(host: Host, t: Tables, sectionIndex: nat, mappingOffset: nat,
                                                 raws: seq<RawMapping>, more: seq<RawMapping>)
    requires ApplyAll(host, t, sectionIndex, mappingOffset, raws).Err?
    ensures ApplyAll(host, t, sectionIndex, mappingOffset, raws + more).Err?
    decreases |more|
  {
    if more != [] {
      var shorter := raws + more[..|more| - 1];
      assert (raws + more)[..|raws + more| - 1] == shorter;
      ApplyAllFailureSticks(host, t, sectionIndex, mappingOffset, raws, more[..|more| - 1]);
    } else {
      assert raws + more == raws;
    }
  }

  /**
   * The caches hold what their keys say: `generatedCache[l]` only mappings on
   * generated line `l`, `sectionCache[i][l]` only mappings of section `i` on
   * its line `l`, `sourceCache[s][l]` only mappings that carry source `s` at
   * source line `l`; and each mapping sits at its own index in the table.
   */
  ghost predicate CachesPlaced(t: Tables) {
    (forall l :: l in t.generatedCache ==>
       forall k :: 0 <= k < |t.generatedCache[l]| ==> t.generatedCache[l][k].generatedLine == l) &&
    (forall i :: i in t.sectionCache ==> forall l :: l in t.sectionCache[i] ==>
       forall k :: 0 <= k < |t.sectionCache[i][l]| ==>
         t.sectionCache[i][l][k].sectionIndex == i && t.sectionCache[i][l][k].sectionGeneratedLine == l) &&
    (forall s :: s in t.sourceCache ==> forall l :: l in t.sourceCache[s] ==>
       forall k :: 0 <= k < |t.sourceCache[s][l]| ==>
         t.sourceCache[s][l][k].source.Some? &&
         t.sourceCache[s][l][k].source.value.sourceIndex == s &&
         t.sourceCache[s][l][k].source.value.sourceLine == l) &&
    (forall j :: 0 <= j < |t.mappings| && t.mappings[j].Some? ==> t.mappings[j].value.mappingIndex == j)
  }

  lemma PushKeeps<T>(cache: map<int, seq<T>>, key: int, x: T, P: (int, T) -> bool)
    requires forall l :: l in cache ==> forall k :: 0 <= k < |cache[l]| ==> P(l, cache[l][k])
    requires P(key, x)
    ensures var c := Push(cache, key, x);
            forall l :: l in c ==> forall k :: 0 <= k < |c[l]| ==> P(l, c[l][k])
  {
    var c := Push(cache, key, x);
    forall l | l in c ensures forall k :: 0 <= k < |c[l]| ==> P(l, c[l][k]) {
      if l == key {
        forall k | 0 <= k < |c[l]| ensures P(l, c[l][k]) {
          if k < |c[l]| - 1 { assert c[l][k] == cache[l][k]; }
        }
      }
    }
  }

  lemma PlaceKeepsCaches(t: Tables, m: Mapping)
    requires CachesPlaced(t)
    requires m.source.Some? ==> m.source.value.sourceIndex >= 0
    ensures CachesPlaced(Place(t, m))
  {
    var r := Place(t, m);
    PushKeeps(t.generatedCache, m.generatedLine, m, (l: int, x: Mapping) => x.generatedLine == l);
    forall i | i in r.sectionCache
      ensures forall l :: l in r.sectionCache[i] ==> forall k :: 0 <= k < |r.sectionCache[i][l]| ==>
                r.sectionCache[i][l][k].sectionIndex == i && r.sectionCache[i][l][k].sectionGeneratedLine == l
    {
      if i == m.sectionIndex {
        var inner := if i in t.sectionCache then t.sectionCache[i] else map[];
        PushKeeps(inner, m.sectionGeneratedLine, m, (l: int, x: Mapping) => x.sectionIndex == i && x.sectionGeneratedLine == l);
      }
    }
    if m.source.Some? {
      var sp := m.source.value;
      forall s | s in r.sourceCache
        ensures forall l :: l in r.sourceCache[s] ==> forall k :: 0 <= k < |r.sourceCache[s][l]| ==>
                  r.sourceCache[s][l][k].source.Some? && r.sourceCache[s][l][k].source.value.sourceIndex == s &&
                  r.sourceCache[s][l][k].source.value.sourceLine == l
      {
        if s == sp.sourceIndex {
          var inner := if s in t.sourceCache then t.sourceCache[s] else map[];
          PushKeeps(inner, sp.sourceLine, m,
            (l: int, x: Mapping) => x.source.Some? && x.source.value.sourceIndex == s && x.source.value.sourceLine == l);
        }
      }
    }
  }

  /** Filing keeps the caches consistent with their keys. */
  lemma {:induction false} ApplyAllKeepsCaches(host: Host, t: Tables, sectionIndex: nat, mappingOffset: nat, raws: seq<RawMapping>)
    requires CachesPlaced(t)
    requires ApplyAll(host, t, sectionIndex, mappingOffset, raws).Ok?
    ensures CachesPlaced(ApplyAll(host, t, sectionIndex, mappingOffset, raws).value)
    decreases |raws|
  {
    if raws != [] {
      var prefix := raws[..|raws| - 1];
      var last := raws[|raws| - 1];
      ApplyAllKeepsCaches(host, t, sectionIndex, mappingOffset, prefix);
      var t1 := ApplyAll(host, t, sectionIndex, mappingOffset, prefix).value;
      var m := Resolve(host, t1, sectionIndex, mappingOffset, |raws| - 1, last).value;
      PlaceKeepsCaches(Remember(host, t1, sectionIndex, last), m);
    }
  }

  /**
   * The `j`-th segment of a section ends up at index `base + j` of the
   * mapping table, numbered `j` within the section and carrying the
   * segment's generated position.
   */
  predicate PlacedAt(t: Tables, sectionIndex: nat, mappingOffset: nat, j: nat, raw: RawMapping) {
    mappingOffset + j < |t.mappings| && t.mappings[mappingOffset + j].Some? &&
    var m := t.mappings[mappingOffset + j].value;
    m.mappingIndex == mappingOffset + j && m.sectionIndex == sectionIndex && m.sectionMappingIndex == j &&
    m.generatedLine == raw.line && m.generatedColumn == raw.column &&
    m.sectionGeneratedLine == raw.sectionLine && m.sectionGeneratedColumn == raw.sectionColumn &&
    (m.source.Some? <==> raw.source.Some?)
  }

  lemma {:induction false} ApplyAllPlaces(host: Host, t: Tables, sectionIndex: nat, mappingOffset: nat, raws: seq<RawMapping>)
    requires ApplyAll(host, t, sectionIndex, mappingOffset, raws).Ok?
    ensures forall j :: 0 <= j < |raws| ==>
              PlacedAt(ApplyAll(host, t, sectionIndex, mappingOffset, raws).value, sectionIndex, mappingOffset, j, raws[j])
    decreases |raws|
  {
    if raws != [] {
      var n := |raws| - 1;
      var prefix := raws[..n];
      var last := raws[n];
      ApplyAllPlaces(host, t, sectionIndex, mappingOffset, prefix);
      var t1 := ApplyAll(host, t, sectionIndex, mappingOffset, prefix).value;
      var m := Resolve(host, t1, sectionIndex, mappingOffset, n, last).value;
      var t2 := Place(Remember(host, t1, sectionIndex, last), m);
      assert t2 == ApplyAll(host, t, sectionIndex, mappingOffset, raws).value;
      forall j | 0 <= j < |raws| ensures PlacedAt(t2, sectionIndex, mappingOffset, j, raws[j]) {
        if j < n {
          assert raws[j] == prefix[j];
          assert PlacedAt(t1, sectionIndex, mappingOffset, j, prefix[j]);
          assert t2.mappings[mappingOffset + j] == t1.mappings[mappingOffset + j];
        }
      }
    }
  }
}
