/**
 * The character scan of `decodeSectionMappings` (src/lib/decoder.ts:413-494)
 * as far as it depends on the text alone: where the segments are, and the
 * running line, column, source and name counters.  The table updates each
 * segment causes are in `MappingTables`.
 *
 * A `;` or `,` (or the end of the text) closes a field; a non-empty field is
 * one segment and yields one mapping.  After the field, `;` moves to the next
 * generated line and resets both generated columns.  The source index, source
 * line, source column and name index are running sums over the whole section.
 */
module MappingStream {
  import opened Wrappers
  import opened Records
  import Vlq

  /** The running counters of the loop; `sourceIndex` and `nameIndex` are section-relative. */
  datatype Counters = Counters(
    line: int, column: int, sectionLine: int, sectionColumn: int,
    sourceIndex: int, sourceLine: int, sourceColumn: int, nameIndex: int)

  datatype RawName = RawName(offset: int, sectionNameIndex: int)

  datatype RawSource = RawSource(
    indexOffset: int, sectionSourceIndex: int,
    lineOffset: int, line: int,
    columnOffset: int, column: int,
    name: Option<RawName>)

  /** One decoded segment, with the counters applied. */
  datatype RawMapping = RawMapping(
    line: int, sectionLine: int,
    columnOffset: int, column: int, sectionColumn: int,
    source: Option<RawSource>)

  /** The counters at the start of a section: its offset, and zero for everything relative. */
  function Start(generatedLine: int, generatedColumn: int): Counters {
    Counters(generatedLine, generatedColumn, 0, 0, 0, 0, 0, 0)
  }

  /** The counters after one segment: the column always, the source fields from four values on, the name from five. */
  function Advance(c: Counters, seg: seq<int>): (d: Counters)
    requires |seg| >= 1
    ensures d.line == c.line && d.sectionLine == c.sectionLine
    ensures d.column == c.column + seg[0] && d.sectionColumn == c.sectionColumn + seg[0]
    ensures |seg| > 3 ==> d.sourceIndex == c.sourceIndex + seg[1] && d.sourceLine == c.sourceLine + seg[2] &&
                          d.sourceColumn == c.sourceColumn + seg[3]
    ensures |seg| <= 3 ==> d.sourceIndex == c.sourceIndex && d.sourceLine == c.sourceLine &&
                           d.sourceColumn == c.sourceColumn
    ensures d.nameIndex == if |seg| > 4 then c.nameIndex + seg[4] else c.nameIndex
  {
    var d := c.(column := c.column + seg[0], sectionColumn := c.sectionColumn + seg[0]);
    if |seg| > 3 then
      var e := d.(sourceIndex := d.sourceIndex + seg[1], sourceLine := d.sourceLine + seg[2],
                  sourceColumn := d.sourceColumn + seg[3]);
      if |seg| > 4 then e.(nameIndex := e.nameIndex + seg[4]) else e
    else d
  }

  /** The mapping a segment yields, read from the counters after `Advance`. */
  function Emit(d: Counters, seg: seq<int>): (m: RawMapping)
    requires |seg| >= 1
    ensures m.columnOffset == seg[0]
    ensures m.source.Some? <==> |seg| > 3
    ensures m.source.Some? ==> (m.source.value.name.Some? <==> |seg| > 4)
  {
    RawMapping(d.line, d.sectionLine, seg[0], d.column, d.sectionColumn,
      if |seg| > 3 then
        Some(RawSource(seg[1], d.sourceIndex, seg[2], d.sourceLine, seg[3], d.sourceColumn,
                       if |seg| > 4 then Some(RawName(seg[4], d.nameIndex)) else None))
      else None)
  }

  /** The effect of the character at `pos` after its field is handled: `;` starts a new line. */
  function AfterSeparator(text: string, pos: nat, c: Counters): Counters {
    if pos < |text| && text[pos] == ';' then
      c.(line := c.line + 1, column := 0, sectionLine := c.sectionLine + 1, sectionColumn := 0)
    else c
  }

  /** Is the character at `pos` (or the end of text) a field terminator? */
  predicate EndsField(text: string, pos: nat) {
    pos >= |text| || text[pos] == ';' || text[pos] == ','
  }

  /**
   * The loop from `pos` on, with the field starting at `startPos`, the
   * counters `c` and the mappings `acc` found so far.  A segment that decodes
   * to no value at all is a fault (the code would go on with a `NaN` column).
   */
  function ScanFrom(text: string, pos: nat, startPos: nat, c: Counters, acc: seq<RawMapping>): Result<seq<RawMapping>, Fault>
    requires startPos <= pos
    decreases |text| + 1 - pos
  {
    if pos > |text| then Ok(acc)
    else if EndsField(text, pos) then
      if pos > startPos then
        var seg := Vlq.DecodeWindow(text, startPos, pos);
        if |seg| == 0 then Err(ShortSegment(pos))
        else
          var d := Advance(c, seg);
          ScanFrom(text, pos + 1, pos + 1, AfterSeparator(text, pos, d), acc + [Emit(d, seg)])
      else ScanFrom(text, pos + 1, pos + 1, AfterSeparator(text, pos, c), acc)
    else ScanFrom(text, pos + 1, startPos, c, acc)
  }

  /** The mappings of a section's `mappings` text, decoded from the section's offset. */
  function ScanMappings(text: string, generatedLine: int, generatedColumn: int): Result<seq<RawMapping>, Fault> {
    ScanFrom(text, 0, 0, Start(generatedLine, generatedColumn), [])
  }

  // ---------------------------------------------------------------------------
  // Properties

  /** A character inside a field. */
  lemma ScanSkipStep(text: string, pos: nat, startPos: nat, c: Counters, acc: seq<RawMapping>)
    requires startPos <= pos && !EndsField(text, pos)
    ensures ScanFrom(text, pos, startPos, c, acc) == ScanFrom(text, pos + 1, startPos, c, acc)
  {
  }

  /** A terminator closing an empty field. */
  lemma ScanEmptyStep(text: string, pos: nat, c: Counters, acc: seq<RawMapping>)
    requires pos <= |text| && EndsField(text, pos)
    ensures ScanFrom(text, pos, pos, c, acc) == ScanFrom(text, pos + 1, pos + 1, AfterSeparator(text, pos, c), acc)
  {
  }

  /** A terminator closing a non-empty field. */
  lemma ScanSegmentStep(text: string, pos: nat, startPos: nat, c: Counters, acc: seq<RawMapping>)
    requires startPos < pos <= |text| && EndsField(text, pos)
    requires |Vlq.DecodeWindow(text, startPos, pos)| > 0
    ensures var seg := Vlq.DecodeWindow(text, startPos, pos);
            var d := Advance(c, seg);
            ScanFrom(text, pos, startPos, c, acc) == ScanFrom(text, pos + 1, pos + 1, AfterSeparator(text, pos, d), acc + [Emit(d, seg)])
  {
  }

  /** The scan only ever appends to the mappings it has found. */
  lemma {:induction false} ScanExtends(text: string, pos: nat, startPos: nat, c: Counters, acc: seq<RawMapping>)
    requires startPos <= pos
    requires ScanFrom(text, pos, startPos, c, acc).Ok?
    ensures acc <= ScanFrom(text, pos, startPos, c, acc).value
    decreases |text| + 1 - pos
  {
    if pos > |text| {
    } else if EndsField(text, pos) {
      var next := pos + 1;
      if pos > startPos {
        var seg := Vlq.DecodeWindow(text, startPos, pos);
        var d := Advance(c, seg);
        var c1 := AfterSeparator(text, pos, d);
        var acc1 := acc + [Emit(d, seg)];
        ScanExtends(text, next, next, c1, acc1);
      } else {
        var c1 := AfterSeparator(text, pos, c);
        ScanExtends(text, next, next, c1, acc);
      }
    } else {
      ScanExtends(text, pos + 1, startPos, c, acc);
    }
  }

  /**
   * Where the section's offset applies: the absolute generated line is the
   * section-relative line plus the section's line, and the section's column
   * is added only on the section's first line.
   */
  predicate OffsetLaw(line: int, column: int, sectionLine: int, sectionColumn: int, generatedLine: int, generatedColumn: int) {
    sectionLine >= 0 &&
    line == sectionLine + generatedLine &&
    column == sectionColumn + (if sectionLine == 0 then generatedColumn else 0)
  }

  predicate MappingOffsetLaw(m: RawMapping, generatedLine: int, generatedColumn: int) {
    OffsetLaw(m.line, m.column, m.sectionLine, m.sectionColumn, generatedLine, generatedColumn)
  }

  predicate AllOffsetLaw(ms: seq<RawMapping>, generatedLine: int, generatedColumn: int) {
    forall j :: 0 <= j < |ms| ==> MappingOffsetLaw(ms[j], generatedLine, generatedColumn)
  }

  lemma {:induction false} ScanOffsetLaw(text: string, pos: nat, startPos: nat, c: Counters, acc: seq<RawMapping>,
                                        generatedLine: int, generatedColumn: int)
    requires startPos <= pos
    requires OffsetLaw(c.line, c.column, c.sectionLine, c.sectionColumn, generatedLine, generatedColumn)
    requires AllOffsetLaw(acc, generatedLine, generatedColumn)
    requires ScanFrom(text, pos, startPos, c, acc).Ok?
    ensures AllOffsetLaw(ScanFrom(text, pos, startPos, c, acc).value, generatedLine, generatedColumn)
    decreases |text| + 1 - pos
  {
    if pos > |text| {
    } else if EndsField(text, pos) {
      var next := pos + 1;
      if pos > startPos {
        var seg := Vlq.DecodeWindow(text, startPos, pos);
        var d := Advance(c, seg);
        var c1 := AfterSeparator(text, pos, d);
        var acc1 := acc + [Emit(d, seg)];
        assert MappingOffsetLaw(Emit(d, seg), generatedLine, generatedColumn);
        assert AllOffsetLaw(acc1, generatedLine, generatedColumn) by {
          forall j | 0 <= j < |acc1| ensures MappingOffsetLaw(acc1[j], generatedLine, generatedColumn) {
            if j < |acc| { assert acc1[j] == acc[j]; }
          }
        }
        ScanOffsetLaw(text, next, next, c1, acc1, generatedLine, generatedColumn);
      } else {
        var c1 := AfterSeparator(text, pos, c);
        ScanOffsetLaw(text, next, next, c1, acc, generatedLine, generatedColumn);
      }
    } else {
      ScanOffsetLaw(text, pos + 1, startPos, c, acc, generatedLine, generatedColumn);
    }
  }

  /** Every mapping of a section obeys the offset law. */
  lemma MappingsObeyOffsetLaw(text: string, generatedLine: int, generatedColumn: int)
    requires ScanMappings(text, generatedLine, generatedColumn).Ok?
    ensures AllOffsetLaw(ScanMappings(text, generatedLine, generatedColumn).value, generatedLine, generatedColumn)
  {
    ScanOffsetLaw(text, 0, 0, Start(generatedLine, generatedColumn), [], generatedLine, generatedColumn);
  }

  /** The running sums of the source and name deltas over a run of mappings. */
  function SourceIndexTotal(ms: seq<RawMapping>): int {
    if ms == [] then 0
    else SourceIndexTotal(ms[..|ms| - 1]) + (match ms[|ms| - 1].source case Some(s) => s.indexOffset case None => 0)
  }

  function SourceLineTotal(ms: seq<RawMapping>): int {
    if ms == [] then 0
    else SourceLineTotal(ms[..|ms| - 1]) + (match ms[|ms| - 1].source case Some(s) => s.lineOffset case None => 0)
  }

  function SourceColumnTotal(ms: seq<RawMapping>): int {
    if ms == [] then 0
    else SourceColumnTotal(ms[..|ms| - 1]) + (match ms[|ms| - 1].source case Some(s) => s.columnOffset case None => 0)
  }

  function NameOffsetOf(m: RawMapping): int {
    match m.source
    case Some(s) => (match s.name case Some(n) => n.offset case None => 0)
    case None => 0
  }

  function NameIndexTotal(ms: seq<RawMapping>): int {
    if ms == [] then 0
    else NameIndexTotal(ms[..|ms| - 1]) + NameOffsetOf(ms[|ms| - 1])
  }

  /** The counters hold the running sums of everything decoded so far. */
  predicate CountersAreTotals(c: Counters, acc: seq<RawMapping>) {
    c.sourceIndex == SourceIndexTotal(acc) && c.sourceLine == SourceLineTotal(acc) &&
    c.sourceColumn == SourceColumnTotal(acc) && c.nameIndex == NameIndexTotal(acc)
  }

  /** Mapping `j`'s source fields are the sums of the deltas of mappings 0..j. */
  predicate Cumulative(ms: seq<RawMapping>, j: nat)
    requires j < |ms|
  {
    ms[j].source.Some? ==>
      ms[j].source.value.sectionSourceIndex == SourceIndexTotal(ms[..j + 1]) &&
      ms[j].source.value.line == SourceLineTotal(ms[..j + 1]) &&
      ms[j].source.value.column == SourceColumnTotal(ms[..j + 1]) &&
      (ms[j].source.value.name.Some? ==> ms[j].source.value.name.value.sectionNameIndex == NameIndexTotal(ms[..j + 1]))
  }

  predicate AllCumulative(ms: seq<RawMapping>) {
    forall j :: 0 <= j < |ms| ==> Cumulative(ms, j)
  }

  lemma AppendCumulative(acc: seq<RawMapping>, m: RawMapping)
    requires AllCumulative(acc) && Cumulative(acc + [m], |acc|)
    ensures AllCumulative(acc + [m])
  {
    var ms := acc + [m];
    forall j | 0 <= j < |ms| ensures Cumulative(ms, j) {
      if j < |acc| {
        assert ms[..j + 1] == acc[..j + 1];
        assert Cumulative(acc, j);
      }
    }
  }

  lemma {:induction false} ScanCumulative(text: string, pos: nat, startPos: nat, c: Counters, acc: seq<RawMapping>)
    requires startPos <= pos
    requires CountersAreTotals(c, acc) && AllCumulative(acc)
    requires ScanFrom(text, pos, startPos, c, acc).Ok?
    ensures AllCumulative(ScanFrom(text, pos, startPos, c, acc).value)
    decreases |text| + 1 - pos
  {
    if pos > |text| {
    } else if EndsField(text, pos) {
      var next := pos + 1;
      if pos > startPos {
        var seg := Vlq.DecodeWindow(text, startPos, pos);
        var d := Advance(c, seg);
        var c1 := AfterSeparator(text, pos, d);
        var m := Emit(d, seg);
        var acc1 := acc + [m];
        assert acc1[..|acc1| - 1] == acc;
        assert acc1[..|acc| + 1] == acc1;
        assert CountersAreTotals(d, acc1);
        AppendCumulative(acc, m);
        ScanCumulative(text, next, next, c1, acc1);
      } else {
        var c1 := AfterSeparator(text, pos, c);
        ScanCumulative(text, next, next, c1, acc);
      }
    } else {
      ScanCumulative(text, pos + 1, startPos, c, acc);
    }
  }

  /**
   * The source index, line and column and the name index of every mapping are
   * running sums over the whole section: a `;` never resets them.
   */
  lemma MappingsCumulative(text: string, generatedLine: int, generatedColumn: int)
    requires ScanMappings(text, generatedLine, generatedColumn).Ok?
    ensures AllCumulative(ScanMappings(text, generatedLine, generatedColumn).value)
  {
    ScanCumulative(text, 0, 0, Start(generatedLine, generatedColumn), []);
  }

  /**
   * How the generated column runs: a mapping's section column is its delta
   * plus the previous mapping's column when both are on the same line, and
   * the delta alone on a fresh line; lines never go back.
   */
  predicate ColumnStep(ms: seq<RawMapping>, j: nat)
    requires j < |ms|
  {
    if j == 0 then ms[0].sectionColumn == ms[0].columnOffset
    else
      ms[j - 1].sectionLine <= ms[j].sectionLine &&
      ms[j].sectionColumn == ms[j].columnOffset + (if ms[j - 1].sectionLine == ms[j].sectionLine then ms[j - 1].sectionColumn else 0)
  }

  predicate AllColumnSteps(ms: seq<RawMapping>) {
    forall j :: 0 <= j < |ms| ==> ColumnStep(ms, j)
  }

  /** The counters' position relative to the last mapping found. */
  predicate ColumnState(c: Counters, acc: seq<RawMapping>) {
    if acc == [] then c.sectionColumn == 0 && c.sectionLine >= 0
    else
      acc[|acc| - 1].sectionLine <= c.sectionLine &&
      c.sectionColumn == (if acc[|acc| - 1].sectionLine == c.sectionLine then acc[|acc| - 1].sectionColumn else 0)
  }

  lemma {:induction false} ScanColumns(text: string, pos: nat, startPos: nat, c: Counters, acc: seq<RawMapping>)
    requires startPos <= pos
    requires ColumnState(c, acc) && AllColumnSteps(acc)
    requires ScanFrom(text, pos, startPos, c, acc).Ok?
    ensures AllColumnSteps(ScanFrom(text, pos, startPos, c, acc).value)
    decreases |text| + 1 - pos
  {
    if pos > |text| {
    } else if EndsField(text, pos) {
      var next := pos + 1;
      if pos > startPos {
        var seg := Vlq.DecodeWindow(text, startPos, pos);
        var d := Advance(c, seg);
        var c1 := AfterSeparator(text, pos, d);
        var m := Emit(d, seg);
        var acc1 := acc + [m];
        assert AllColumnSteps(acc1) by {
          forall j | 0 <= j < |acc1| ensures ColumnStep(acc1, j) {
            if j < |acc| {
              assert acc1[j] == acc[j];
              if j > 0 { assert acc1[j - 1] == acc[j - 1]; }
              assert ColumnStep(acc, j);
            } else if j > 0 {
              assert acc1[j - 1] == acc[|acc| - 1];
            }
          }
        }
        ScanColumns(text, next, next, c1, acc1);
      } else {
        var c1 := AfterSeparator(text, pos, c);
        ScanColumns(text, next, next, c1, acc);
      }
    } else {
      ScanColumns(text, pos + 1, startPos, c, acc);
    }
  }

  lemma MappingsColumns(text: string, generatedLine: int, generatedColumn: int)
    requires ScanMappings(text, generatedLine, generatedColumn).Ok?
    ensures AllColumnSteps(ScanMappings(text, generatedLine, generatedColumn).value)
  {
    ScanColumns(text, 0, 0, Start(generatedLine, generatedColumn), []);
  }

  /** One single-digit group of `decodeChars`: a digit value `p` below 32 decodes to `Unzig(p)`. */
  lemma DigitStep(text: string, i: nat, e: int, buffer: seq<int>, p: int)
    requires i < e <= |text| && Vlq.TablePart(text[i]) == p && p < 32
    ensures Vlq.CharsFrom(text, i, e, 0, 0, buffer) == Vlq.CharsFrom(text, i + 1, e, 0, 0, buffer + [Vlq.Unzig(p)])
  {
    assert Vlq.Accumulate(0, p, 0) == p;
  }

  /** The two segments of the two-lines example. */
  lemma TwoLinesWindows(text: string)
    requires text == "AAAA;AACA"
    ensures Vlq.DecodeWindow(text, 0, 4) == [0, 0, 0, 0] && Vlq.DecodeWindow(text, 5, 9) == [0, 0, 1, 0]
  {
    assert text[0] == 'A' && text[1] == 'A' && text[2] == 'A' && text[3] == 'A';
    assert text[5] == 'A' && text[6] == 'A' && text[7] == 'C' && text[8] == 'A';
    DigitStep(text, 0, 4, [], 0);
    DigitStep(text, 1, 4, [0], 0);
    DigitStep(text, 2, 4, [0, 0], 0);
    DigitStep(text, 3, 4, [0, 0, 0], 0);
    DigitStep(text, 5, 9, [], 0);
    DigitStep(text, 6, 9, [0], 0);
    DigitStep(text, 7, 9, [0, 0], 2);
    DigitStep(text, 8, 9, [0, 0, 1], 0);
  }

  /**
   * "AAAA;AACA" from the start of a section at (0, 0): generated (0, 0) maps
   * to source 0 at (0, 0), and generated (1, 0) to source 0 at (1, 0); the
   * source line delta of the second segment adds to the first one's line.
   */
  lemma TwoLinesExample()
    ensures ScanMappings("AAAA;AACA", 0, 0) == Ok([
      RawMapping(0, 0, 0, 0, 0, Some(RawSource(0, 0, 0, 0, 0, 0, None))),
      RawMapping(1, 1, 0, 0, 0, Some(RawSource(0, 0, 1, 1, 0, 0, None)))])
  {
    var text := "AAAA;AACA";
    assert |text| == 9 && text[4] == ';';
    var s1, s2 := [0, 0, 0, 0], [0, 0, 1, 0];
    TwoLinesWindows(text);
    var m1 := RawMapping(0, 0, 0, 0, 0, Some(RawSource(0, 0, 0, 0, 0, 0, None)));
    var m2 := RawMapping(1, 1, 0, 0, 0, Some(RawSource(0, 0, 1, 1, 0, 0, None)));
    var c0 := Start(0, 0);
    var c1 := Counters(1, 0, 1, 0, 0, 0, 0, 0);
    var c2 := Counters(1, 0, 1, 0, 0, 1, 0, 0);
    assert Advance(c0, s1) == c0 && Emit(c0, s1) == m1 && AfterSeparator(text, 4, c0) == c1;
    assert Advance(c1, s2) == c2 && Emit(c2, s2) == m2 && AfterSeparator(text, 9, c2) == c2;
    ScanSkipStep(text, 0, 0, c0, []);
    ScanSkipStep(text, 1, 0, c0, []);
    ScanSkipStep(text, 2, 0, c0, []);
    ScanSkipStep(text, 3, 0, c0, []);
    ScanSegmentStep(text, 4, 0, c0, []);
    assert [] + [m1] == [m1];
    ScanSkipStep(text, 5, 5, c1, [m1]);
    ScanSkipStep(text, 6, 5, c1, [m1]);
    ScanSkipStep(text, 7, 5, c1, [m1]);
    ScanSkipStep(text, 8, 5, c1, [m1]);
    ScanSegmentStep(text, 9, 5, c1, [m1]);
    assert [m1] + [m2] == [m1, m2];
    assert ScanFrom(text, 10, 10, c2, [m1, m2]) == Ok([m1, m2]);
  }

  /** The one segment of the empty-fields example. */
  lemma EmptyFieldsWindow(text: string)
    requires text == ";,CAAA"
    ensures Vlq.DecodeWindow(text, 2, 6) == [1, 0, 0, 0]
  {
    assert text[2] == 'C' && text[3] == 'A' && text[4] == 'A' && text[5] == 'A';
    DigitStep(text, 2, 6, [], 2);
    DigitStep(text, 3, 6, [1], 0);
    DigitStep(text, 4, 6, [1, 0], 0);
    DigitStep(text, 5, 6, [1, 0, 0], 0);
  }

  /**
   * Empty fields yield nothing, and the section's column applies to its first
   * line only: ";,CAAA" in a section at (2, 7) gives one mapping, on line 3
   * at column 1.
   */
  lemma EmptyFieldsExample()
    ensures ScanMappings(";,CAAA", 2, 7) == Ok([RawMapping(3, 1, 1, 1, 1, Some(RawSource(0, 0, 0, 0, 0, 0, None)))])
  {
    var text := ";,CAAA";
    assert |text| == 6 && text[0] == ';' && text[1] == ',';
    var s := [1, 0, 0, 0];
    EmptyFieldsWindow(text);
    var m := RawMapping(3, 1, 1, 1, 1, Some(RawSource(0, 0, 0, 0, 0, 0, None)));
    var c0 := Start(2, 7);
    var c1 := Counters(3, 0, 1, 0, 0, 0, 0, 0);
    var c2 := Counters(3, 1, 1, 1, 0, 0, 0, 0);
    assert AfterSeparator(text, 0, c0) == c1 && AfterSeparator(text, 1, c1) == c1;
    assert Advance(c1, s) == c2 && Emit(c2, s) == m && AfterSeparator(text, 6, c2) == c2;
    ScanEmptyStep(text, 0, c0, []);
    ScanEmptyStep(text, 1, c1, []);
    ScanSkipStep(text, 2, 2, c1, []);
    ScanSkipStep(text, 3, 2, c1, []);
    ScanSkipStep(text, 4, 2, c1, []);
    ScanSkipStep(text, 5, 2, c1, []);
    ScanSegmentStep(text, 6, 2, c1, []);
    assert [] + [m] == [m];
    assert ScanFrom(text, 7, 7, c2, [m]) == Ok([m]);
  }
}
