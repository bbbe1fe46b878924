/**
 * The read-only mapping queries of the decoder: the per-section slices
 * (src/lib/decoder.ts:1034-1042, 1118-1131, 1208-1216), the lookups by
 * generated position (1063-1083) and the candidate mappings at a source
 * position (1085-1108).
 */
module MappingQueries {
  import opened Wrappers
  import opened Records
  import opened DecoderTables
  import opened MappingTables

  // ---------------------------------------------------------------------------
  // Per-section slices

  /** The end bound of section `i`: the next section's base, or the running total for the last section. */
  function SectionEnd(offsets: seq<Option<nat>>, count: nat, last: nat, i: int): Option<int> {
    if i + 1 < count then At(offsets, i + 1) else Some(last)
  }

  /**
   * `table.slice(offsets[i], end)` for a section index in range, `[]`
   * otherwise; an `undefined` bound takes `slice`'s default.
   */
  function SectionSlice<T>(table: seq<Option<T>>, offsets: seq<Option<nat>>, count: nat, last: nat, i: int): (r: seq<Option<T>>)
    ensures !(0 <= i < count) ==> r == []
    ensures 0 <= i < count && At(offsets, i).Some? && SectionEnd(offsets, count, last, i).Some? &&
            At(offsets, i).value <= SectionEnd(offsets, count, last, i).value <= |table| ==>
              r == table[At(offsets, i).value..SectionEnd(offsets, count, last, i).value]
    ensures 0 <= i < count && At(offsets, i).Some? && SectionEnd(offsets, count, last, i).None? &&
            At(offsets, i).value <= |table| ==>
              r == table[At(offsets, i).value..]
  {
    if 0 <= i < count then Slice(table, At(offsets, i), SectionEnd(offsets, count, last, i)) else []
  }

  /** `getMappingsInSection`. */
  function MappingsInSection(t: Tables, i: int): seq<Option<Mapping>> {
    SectionSlice(t.mappings, t.mappingOffsets, |t.sections|, t.lastMappingOffset, i)
  }

  /** `getScopesInSection` without `topMost`. */
  function ScopesInSection(t: Tables, i: int): seq<Option<Scope>> {
    SectionSlice(t.scopes, t.scopeOffsets, |t.sections|, t.lastScopeOffset, i)
  }

  /** `getLocalsInSection`. */
  function LocalsInSection(t: Tables, i: int): seq<Option<Local>> {
    SectionSlice(t.locals, t.localOffsets, |t.sections|, t.lastLocalOffset, i)
  }

  /**
   * Because the mapping total never moves off 0, a section whose own base and
   * whose end bound are both 0 gets no mappings back.
   */
  lemma MappingsInSectionEmpty(t: Tables, i: int)
    requires t.lastMappingOffset == 0
    requires At(t.mappingOffsets, i) == Some(0)
    requires i + 1 < |t.sections| ==> At(t.mappingOffsets, i + 1) == Some(0)
    ensures MappingsInSection(t, i) == []
  {
  }

  /**
   * A section followed by a skipped section (one without a map, so without a
   * base) gets everything from its base to the end of the table.
   */
  lemma SkippedNextTakesRest(t: Tables, i: nat)
    requires i + 1 < |t.sections|
    requires At(t.mappingOffsets, i).Some? && At(t.mappingOffsets, i).value <= |t.mappings|
    requires At(t.mappingOffsets, i + 1).None?
    ensures MappingsInSection(t, i) == t.mappings[At(t.mappingOffsets, i).value..]
  {
  }

  // ---------------------------------------------------------------------------
  // Lookups by generated position

  /** The first mapping in `ms` at generated column `column`. */
  function FirstAtColumn(ms: seq<Mapping>, column: int): (r: Option<Mapping>)
    ensures r.None? <==> forall k :: 0 <= k < |ms| ==> ms[k].generatedColumn != column
    ensures r.Some? ==> exists k :: 0 <= k < |ms| && ms[k] == r.value && r.value.generatedColumn == column &&
                                   forall j :: 0 <= j < k ==> ms[j].generatedColumn != column
  {
    if ms == [] then None
    else if ms[0].generatedColumn == column then Some(ms[0])
    else
      var r := FirstAtColumn(ms[1..], column);
      assert r.Some? ==> exists k :: 1 <= k < |ms| && ms[k] == r.value && r.value.generatedColumn == column &&
                                     forall j :: 1 <= j < k ==> ms[j].generatedColumn != column by {
        if r.Some? {
          var k :| 0 <= k < |ms[1..]| && ms[1..][k] == r.value && r.value.generatedColumn == column &&
                   forall j :: 0 <= j < k ==> ms[1..][j].generatedColumn != column;
          assert ms[k + 1] == r.value;
          forall j | 1 <= j < k + 1 ensures ms[j].generatedColumn != column {
            assert ms[j] == ms[1..][j - 1];
          }
        }
      }
      r
  }

  /** `getMappingAtGeneratedLocation`: the first cached mapping of the line at that column. */
  function MappingAtGeneratedLocation(t: Tables, line: int, column: int): Option<Mapping> {
    if line in t.generatedCache then FirstAtColumn(t.generatedCache[line], column) else None
  }

  /**
   * With consistent caches, a mapping is found exactly when one of the line's
   * cached mappings sits at that column, and it is then on that line and
   * column.
   */
  lemma MappingAtGeneratedLocationFound(t: Tables, line: int, column: int)
    requires CachesPlaced(t)
    ensures var r := MappingAtGeneratedLocation(t, line, column);
            && (r.Some? ==> r.value.generatedLine == line && r.value.generatedColumn == column)
            && (r.Some? <==> line in t.generatedCache &&
                             exists k :: 0 <= k < |t.generatedCache[line]| && t.generatedCache[line][k].generatedColumn == column)
  {
    if line in t.generatedCache {
      var r := FirstAtColumn(t.generatedCache[line], column);
      if r.Some? {
        var k :| 0 <= k < |t.generatedCache[line]| && t.generatedCache[line][k] == r.value && r.value.generatedColumn == column &&
                 forall j :: 0 <= j < k ==> t.generatedCache[line][j].generatedColumn != column;
        assert t.generatedCache[line][k].generatedLine == line;
      }
    }
  }

  /**
   * `getMappingAtGeneratedLocationInSection`: the section's line cache indexed
   * by POSITION with the column, not searched for the column.
   */
  function MappingAtGeneratedLocationInSection(t: Tables, i: int, line: int, column: int): (r: Option<Mapping>)
    ensures r.Some? ==> exists ms :: Lookup2(t.sectionCache, i, line) == Some(ms) && 0 <= column < |ms| && r.value == ms[column]
    ensures r.None? <==> Lookup2(t.sectionCache, i, line).None? || !(0 <= column < |Lookup2(t.sectionCache, i, line).value|)
  {
    match Lookup2(t.sectionCache, i, line)
    case None => None
    case Some(ms) => if 0 <= column < |ms| then Some(ms[column]) else None
  }

  /**
   * With a single mapping on a section line at column 5, the in-section lookup
   * at column 0 returns it and the lookup at column 5 returns nothing.
   */
  lemma InSectionByPositionExample(t: Tables, m: Mapping)
    requires m.generatedColumn == 5 && m.sectionGeneratedColumn == 5
    requires t.sectionCache == map[0 := map[0 := [m]]]
    ensures MappingAtGeneratedLocationInSection(t, 0, 0, 0) == Some(m)
    ensures MappingAtGeneratedLocationInSection(t, 0, 0, 5) == None
  {
    assert Lookup2(t.sectionCache, 0, 0) == Some([m]);
  }

  // ---------------------------------------------------------------------------
  // Candidates at a source position

  /** The sort comparator `(x.sourceLine - y.sourceLine) || (x.sourceColumn - y.sourceColumn)`, by sign. */
  function CompareSource(x: Mapping, y: Mapping): int {
    if x.source.Some? && y.source.Some? then
      CompareOffsets(x.source.value.sourceLine, x.source.value.sourceColumn, y.source.value.sourceLine, y.source.value.sourceColumn)
    else 0
  }

  /** Insert `x` before the first element not ordered before it. */
  function Insert(x: Mapping, s: seq<Mapping>): (r: seq<Mapping>)
    ensures multiset(r) == multiset(s) + multiset{x}
    ensures |r| == |s| + 1
  {
    if s == [] then [x]
    else if CompareSource(x, s[0]) <= 0 then [x] + s
    else
      assert s == [s[0]] + s[1..];
      [s[0]] + Insert(x, s[1..])
  }

  /**
   * A stable sort by source position, as `Array.prototype.sort` is: elements
   * are inserted from the back, each in front of the equal ones already placed.
   */
  function SortBySource(ms: seq<Mapping>): (r: seq<Mapping>)
    ensures multiset(r) == multiset(ms)
    ensures |r| == |ms|
  {
    if ms == [] then []
    else
      assert ms == [ms[0]] + ms[1..];
      Insert(ms[0], SortBySource(ms[1..]))
  }

  predicate HasSource(ms: seq<Mapping>) {
    forall k :: 0 <= k < |ms| ==> ms[k].source.Some?
  }

  predicate SortedBySource(ms: seq<Mapping>) {
    forall j, k :: 0 <= j < k < |ms| ==> CompareSource(ms[j], ms[k]) <= 0
  }

  /** A mapping every element of `s` comes after, and `x` too, comes before every element of `Insert(x, s)`. */
  lemma {:induction false} InsertBound(b: Mapping, x: Mapping, s: seq<Mapping>)
    requires forall k :: 0 <= k < |s| ==> CompareSource(b, s[k]) <= 0
    requires CompareSource(b, x) <= 0
    ensures forall k :: 0 <= k < |Insert(x, s)| ==> CompareSource(b, Insert(x, s)[k]) <= 0
    decreases |s|
  {
    if s != [] && CompareSource(x, s[0]) > 0 {
      InsertBound(b, x, s[1..]);
      var r := Insert(x, s[1..]);
      assert Insert(x, s) == [s[0]] + r;
      forall k | 0 <= k < |Insert(x, s)| ensures CompareSource(b, Insert(x, s)[k]) <= 0 {
        if k > 0 { assert Insert(x, s)[k] == r[k - 1]; }
      }
    }
  }

  lemma {:induction false} InsertHasSource(x: Mapping, s: seq<Mapping>)
    requires x.source.Some? && HasSource(s)
    ensures HasSource(Insert(x, s))
    decreases |s|
  {
    if s != [] && CompareSource(x, s[0]) > 0 {
      InsertHasSource(x, s[1..]);
      var r := Insert(x, s[1..]);
      assert Insert(x, s) == [s[0]] + r;
      forall k | 0 <= k < |Insert(x, s)| ensures Insert(x, s)[k].source.Some? {
        if k > 0 { assert Insert(x, s)[k] == r[k - 1]; }
      }
    }
  }

  lemma {:induction false} InsertSorted(x: Mapping, s: seq<Mapping>)
    requires x.source.Some? && HasSource(s) && SortedBySource(s)
    ensures SortedBySource(Insert(x, s))
    decreases |s|
  {
    if s == [] {
    } else if CompareSource(x, s[0]) > 0 {
      InsertSorted(x, s[1..]);
      var r := Insert(x, s[1..]);
      CompareAntisymmetric(x.source.value.sourceLine, x.source.value.sourceColumn,
                           s[0].source.value.sourceLine, s[0].source.value.sourceColumn);
      forall k | 0 <= k < |s[1..]| ensures CompareSource(s[0], s[1..][k]) <= 0 {
        assert s[1..][k] == s[k + 1];
      }
      InsertBound(s[0], x, s[1..]);
      var q := Insert(x, s);
      assert q == [s[0]] + r;
      forall j, k | 0 <= j < k < |q| ensures CompareSource(q[j], q[k]) <= 0 {
        assert q[k] == r[k - 1];
        if j > 0 { assert q[j] == r[j - 1]; }
      }
    } else {
      var q := Insert(x, s);
      assert q == [x] + s;
      forall j, k | 0 <= j < k < |q| ensures CompareSource(q[j], q[k]) <= 0 {
        assert q[k] == s[k - 1];
        if j > 0 {
          assert q[j] == s[j - 1];
        } else if k > 1 {
          var a, b, c := x.source.value, s[0].source.value, s[k - 1].source.value;
          CompareTransitive(Position(a.sourceLine, a.sourceColumn), Position(b.sourceLine, b.sourceColumn),
                            Position(c.sourceLine, c.sourceColumn));
        }
      }
    }
  }

  /** The sort orders mappings that carry a source by their source position. */
  lemma {:induction false} SortBySourceSorted(ms: seq<Mapping>)
    requires HasSource(ms)
    ensures SortedBySource(SortBySource(ms))
    ensures HasSource(SortBySource(ms))
    decreases |ms|
  {
    if ms != [] {
      assert HasSource(ms[1..]) by {
        forall k | 0 <= k < |ms[1..]| ensures ms[1..][k].source.Some? { assert ms[1..][k] == ms[k + 1]; }
      }
      SortBySourceSorted(ms[1..]);
      InsertSorted(ms[0], SortBySource(ms[1..]));
      InsertHasSource(ms[0], SortBySource(ms[1..]));
    }
  }

  /** The mappings of `ms` at source position (`line`, `column`), in order. */
  function AtSource(ms: seq<Mapping>, line: int, column: int): seq<Mapping> {
    if ms == [] then []
    else (if ms[0].source.Some? && ms[0].source.value.sourceLine == line && ms[0].source.value.sourceColumn == column
          then [ms[0]] else []) + AtSource(ms[1..], line, column)
  }

  /** Whether `m` is at source position (`line`, `column`). */
  predicate IsAtSource(m: Mapping, line: int, column: int) {
    m.source.Some? && m.source.value.sourceLine == line && m.source.value.sourceColumn == column
  }

  lemma AtSourceCons(y: Mapping, s: seq<Mapping>, line: int, column: int)
    ensures AtSource([y] + s, line, column) == (if IsAtSource(y, line, column) then [y] else []) + AtSource(s, line, column)
  {
    assert ([y] + s)[1..] == s;
  }

  lemma {:induction false} InsertStable(x: Mapping, s: seq<Mapping>, line: int, column: int)
    ensures AtSource(Insert(x, s), line, column) == (if IsAtSource(x, line, column) then [x] else []) + AtSource(s, line, column)
    decreases |s|
  {
    if s == [] {
      AtSourceCons(x, [], line, column);
      assert [x] + [] == [x];
    } else if CompareSource(x, s[0]) <= 0 {
      AtSourceCons(x, s, line, column);
    } else {
      InsertStable(x, s[1..], line, column);
      AtSourceCons(s[0], Insert(x, s[1..]), line, column);
      AtSourceCons(s[0], s[1..], line, column);
      assert [s[0]] + s[1..] == s;
      assert !(IsAtSource(x, line, column) && IsAtSource(s[0], line, column));
    }
  }

  /** Stability: among mappings at the same source position the sort keeps the original order. */
  lemma {:induction false} SortBySourceStable(ms: seq<Mapping>, line: int, column: int)
    ensures AtSource(SortBySource(ms), line, column) == AtSource(ms, line, column)
    decreases |ms|
  {
    if ms != [] {
      SortBySourceStable(ms[1..], line, column);
      InsertStable(ms[0], SortBySource(ms[1..]), line, column);
      AtSourceCons(ms[0], ms[1..], line, column);
      assert [ms[0]] + ms[1..] == ms;
    }
  }

  /** `getCandidateMappingsAtSourceLine`: a sorted copy of the source-line cache. */
  function CandidatesAtSourceLine(t: Tables, sourceIndex: int, line: int): seq<Mapping> {
    match Lookup2(t.sourceCache, sourceIndex, line)
    case None => []
    case Some(ms) => SortBySource(ms)
  }

  /** The mappings whose source column is `column` (`mapping.sourceColumn === sourceColumn`). */
  function AtColumn(ms: seq<Mapping>, column: int): (r: seq<Mapping>)
    ensures forall k :: 0 <= k < |r| ==> r[k].source.Some? && r[k].source.value.sourceColumn == column
  {
    if ms == [] then []
    else (if ms[0].source.Some? && ms[0].source.value.sourceColumn == column then [ms[0]] else []) + AtColumn(ms[1..], column)
  }

  /** `getCandidateMappingsAtSourceLocation`. */
  function CandidatesAtSourceLocation(t: Tables, sourceIndex: int, line: int, column: int): seq<Mapping> {
    AtColumn(CandidatesAtSourceLine(t, sourceIndex, line), column)
  }

  /** `getCandidateMappingsAtSourceLocationInSection`: an undefined base makes the index `NaN`, which finds nothing. */
  function CandidatesAtSourceLocationInSection(t: Tables, i: int, k: int, line: int, column: int): seq<Mapping> {
    match At(t.sourceOffsets, i)
    case None => []
    case Some(base) => CandidatesAtSourceLocation(t, base + k, line, column)
  }

  predicate OnSourceLine(ms: seq<Mapping>, line: int) {
    forall k :: 0 <= k < |ms| ==> ms[k].source.Some? && ms[k].source.value.sourceLine == line
  }

  lemma {:induction false} AtColumnOnLine(ms: seq<Mapping>, line: int, column: int)
    requires OnSourceLine(ms, line)
    ensures AtColumn(ms, column) == AtSource(ms, line, column)
    decreases |ms|
  {
    if ms != [] {
      AtColumnOnLine(ms[1..], line, column);
    }
  }

  lemma {:induction false} SortKeepsLine(ms: seq<Mapping>, line: int)
    requires OnSourceLine(ms, line)
    ensures OnSourceLine(SortBySource(ms), line)
  {
    var r := SortBySource(ms);
    forall k | 0 <= k < |r| ensures r[k].source.Some? && r[k].source.value.sourceLine == line {
      assert r[k] in multiset(ms);
      var j :| 0 <= j < |ms| && ms[j] == r[k];
    }
  }

  /**
   * With consistent caches the sort does not matter for a single position:
   * the candidates are exactly the cached mappings of that source line at
   * that column, in the order they were decoded.
   */
  lemma CandidatesInDecodeOrder(t: Tables, sourceIndex: int, line: int, column: int)
    requires CachesPlaced(t)
    requires Lookup2(t.sourceCache, sourceIndex, line).Some?
    ensures CandidatesAtSourceLocation(t, sourceIndex, line, column) == AtSource(t.sourceCache[sourceIndex][line], line, column)
  {
    var ms := t.sourceCache[sourceIndex][line];
    assert OnSourceLine(ms, line);
    SortKeepsLine(ms, line);
    AtColumnOnLine(SortBySource(ms), line, column);
    SortBySourceStable(ms, line, column);
  }

  /** With consistent caches the candidates of a line come sorted by source position. */
  lemma CandidatesSorted(t: Tables, sourceIndex: int, line: int)
    requires CachesPlaced(t)
    ensures SortedBySource(CandidatesAtSourceLine(t, sourceIndex, line))
  {
    if Lookup2(t.sourceCache, sourceIndex, line).Some? {
      var ms := t.sourceCache[sourceIndex][line];
      assert HasSource(ms);
      SortBySourceSorted(ms);
    }
  }
}
