/**
 * The file views of the decoder: splitting text into lines, the generated
 * file cut into segments at the columns where mappings start
 * (src/lib/decoder.ts:682-728), and the source file with its content
 * (src/lib/decoder.ts:915-1028).
 */
module Files {
  import opened Wrappers
  import opened Records
  import opened SourceMapJson
  import opened DecoderTables
  import opened MappingQueries

  // ---------------------------------------------------------------------------
  // Lines

  predicate IsBreak(ch: char) {
    ch == '\n' || ch == '\r'
  }

  predicate NoBreak(s: string) {
    forall k :: 0 <= k < |s| ==> !IsBreak(s[k])
  }

  /** `content.split(/\r\n?|\n/g)`: `\r\n`, a lone `\r` and `\n` each end a line. */
  function SplitLines(s: string): (r: seq<string>)
    ensures |r| >= 1
    ensures forall k :: 0 <= k < |r| ==> NoBreak(r[k])
    decreases |s|
  {
    if s == [] then [""]
    else if s[0] == '\n' then [""] + SplitLines(s[1..])
    else if s[0] == '\r' then [""] + SplitLines(if |s| > 1 && s[1] == '\n' then s[2..] else s[1..])
    else
      var r := SplitLines(s[1..]);
      assert forall k :: 1 <= k < |r| ==> NoBreak(r[k]);
      [[s[0]] + r[0]] + r[1..]
  }

  /** The lines joined with `\n`. */
  function JoinLines(lines: seq<string>): string
    requires |lines| >= 1
  {
    if |lines| == 1 then lines[0] else lines[0] + "\n" + JoinLines(lines[1..])
  }

  /** The text with every `\r\n` and every lone `\r` turned into `\n`. */
  function NormalizeBreaks(s: string): string
    decreases |s|
  {
    if s == [] then ""
    else if s[0] == '\r' then "\n" + NormalizeBreaks(if |s| > 1 && s[1] == '\n' then s[2..] else s[1..])
    else [s[0]] + NormalizeBreaks(s[1..])
  }

  /** Joining the lines gives back the text, up to the kind of line break. */
  lemma {:induction false} SplitJoin(s: string)
    ensures JoinLines(SplitLines(s)) == NormalizeBreaks(s)
    decreases |s|
  {
    if s == [] {
    } else if s[0] == '\n' {
      SplitJoin(s[1..]);
      assert ([""] + SplitLines(s[1..]))[1..] == SplitLines(s[1..]);
    } else if s[0] == '\r' {
      var rest := if |s| > 1 && s[1] == '\n' then s[2..] else s[1..];
      SplitJoin(rest);
      assert ([""] + SplitLines(rest))[1..] == SplitLines(rest);
    } else {
      SplitJoin(s[1..]);
      var r := SplitLines(s[1..]);
      var q := [[s[0]] + r[0]] + r[1..];
      if |r| == 1 {
        assert JoinLines(q) == [s[0]] + r[0];
      } else {
        assert q[1..] == r[1..];
        assert JoinLines(r) == r[0] + "\n" + JoinLines(r[1..]);
        assert JoinLines(q) == [s[0]] + r[0] + "\n" + JoinLines(r[1..]);
      }
    }
  }

  lemma {:induction false} SplitPrefix(line: string, rest: string)
    requires NoBreak(line)
    ensures SplitLines(line + rest) == [line + SplitLines(rest)[0]] + SplitLines(rest)[1..]
    decreases |line|
  {
    var q := SplitLines(rest);
    if line == [] {
      assert line + rest == rest;
      assert line + q[0] == q[0];
      assert [q[0]] + q[1..] == q;
    } else {
      assert (line + rest)[1..] == line[1..] + rest;
      assert (line + rest)[0] == line[0];
      assert !IsBreak(line[0]);
      SplitPrefix(line[1..], rest);
      var r := SplitLines(line[1..] + rest);
      assert r[0] == line[1..] + q[0];
      assert r[1..] == q[1..];
      assert [line[0]] + (line[1..] + q[0]) == line + q[0];
    }
  }

  /** Lines without breaks joined with `\n` split back into the same lines. */
  lemma {:induction false} JoinSplit(lines: seq<string>)
    requires |lines| >= 1
    requires forall k :: 0 <= k < |lines| ==> NoBreak(lines[k])
    ensures SplitLines(JoinLines(lines)) == lines
    decreases |lines|
  {
    if |lines| == 1 {
      SplitPrefix(lines[0], "");
      assert lines[0] + "" == lines[0];
      assert lines[0] + [] == lines[0];
    } else {
      JoinSplit(lines[1..]);
      var rest := "\n" + JoinLines(lines[1..]);
      assert lines[0] + "\n" + JoinLines(lines[1..]) == lines[0] + rest;
      SplitPrefix(lines[0], rest);
      assert rest[1..] == JoinLines(lines[1..]);
      assert SplitLines(rest) == [""] + lines[1..];
      assert lines[0] + "" == lines[0];
      assert [lines[0]] + lines[1..] == lines;
    }
  }

  // ---------------------------------------------------------------------------
  // The generated file

  /** `generatedSegment.endColumn = column` on the last segment pushed, if any. */
  function CloseGenerated(segs: seq<GeneratedSegment>, column: nat): (r: seq<GeneratedSegment>)
    ensures |r| == |segs|
    ensures forall k :: 0 <= k < |segs| - 1 ==> r[k] == segs[k]
    ensures segs != [] ==> r[|segs| - 1] == segs[|segs| - 1].(endColumn := column)
  {
    if segs == [] then [] else segs[..|segs| - 1] + [segs[|segs| - 1].(endColumn := column)]
  }

  /**
   * The segments of generated line `line` after its first `n` columns: a new
   * segment starts at column 0 and at every column where a mapping starts,
   * closing the previous one there; the open one runs to the line's end.
   */
  function GeneratedSegments(t: Tables, line: nat, width: nat, n: nat): seq<GeneratedSegment>
    requires n <= width
  {
    if n == 0 then []
    else
      var segs := GeneratedSegments(t, line, width, n - 1);
      var column := n - 1;
      var mapping := MappingAtGeneratedLocation(t, line, column);
      if mapping.Some? || column == 0 then CloseGenerated(segs, column) + [GeneratedSegment(mapping, line, column, width)]
      else segs
  }

  /** Whether a segment starts at `column` of generated line `line`. */
  predicate StartsSegment(t: Tables, line: nat, column: nat) {
    column == 0 || MappingAtGeneratedLocation(t, line, column).Some?
  }

  /** The segments run from column 0 to the line's end, one after the other. */
  ghost predicate Contiguous(segs: seq<GeneratedSegment>, width: nat, n: nat) {
    (segs == [] <==> n == 0) &&
    (segs != [] ==> segs[0].startColumn == 0 && segs[|segs| - 1].endColumn == width) &&
    (forall k :: 0 <= k < |segs| - 1 ==> segs[k].endColumn == segs[k + 1].startColumn)
  }

  /** Each segment is non-empty, starts below `n` where a segment starts, and carries the mapping found there. */
  ghost predicate WellStarted(t: Tables, segs: seq<GeneratedSegment>, line: nat, n: nat) {
    forall k :: 0 <= k < |segs| ==>
      segs[k].line == line && segs[k].startColumn < n && segs[k].startColumn < segs[k].endColumn &&
      StartsSegment(t, line, segs[k].startColumn) &&
      segs[k].mapping == MappingAtGeneratedLocation(t, line, segs[k].startColumn)
  }

  /** Every column below `n` where a segment starts starts one of `segs`. */
  ghost predicate Complete(t: Tables, segs: seq<GeneratedSegment>, line: nat, n: nat) {
    forall c: nat :: c < n && StartsSegment(t, line, c) ==> exists k :: 0 <= k < |segs| && segs[k].startColumn == c
  }

  /**
   * The segments of the first `n` columns of a line of width `width` cover
   * `[0, width)` without gaps, in order, each starting at a column where a
   * segment starts, every such column below `n` starting one, and each
   * carrying the mapping found at its start.
   */
  ghost predicate Partition(t: Tables, segs: seq<GeneratedSegment>, line: nat, width: nat, n: nat) {
    Contiguous(segs, width, n) && WellStarted(t, segs, line, n) && Complete(t, segs, line, n)
  }

  /** The segments after a column where a segment starts. */
  function Opened(t: Tables, segs: seq<GeneratedSegment>, line: nat, width: nat, column: nat): seq<GeneratedSegment> {
    CloseGenerated(segs, column) + [GeneratedSegment(MappingAtGeneratedLocation(t, line, column), line, column, width)]
  }

  lemma OpenedContiguous(t: Tables, segs: seq<GeneratedSegment>, line: nat, width: nat, n: nat)
    requires 0 < n <= width
    requires Contiguous(segs, width, n - 1) && WellStarted(t, segs, line, n - 1)
    ensures Contiguous(Opened(t, segs, line, width, n - 1), width, n)
  {
    var r := Opened(t, segs, line, width, n - 1);
    assert forall k :: 0 <= k < |segs| ==> r[k] == CloseGenerated(segs, n - 1)[k];
    if segs != [] {
      assert r[|segs| - 1].endColumn == n - 1;
    }
  }

  lemma OpenedWellStarted(t: Tables, segs: seq<GeneratedSegment>, line: nat, width: nat, n: nat)
    requires 0 < n <= width
    requires Contiguous(segs, width, n - 1) && WellStarted(t, segs, line, n - 1)
    requires StartsSegment(t, line, n - 1)
    ensures WellStarted(t, Opened(t, segs, line, width, n - 1), line, n)
  {
    var r := Opened(t, segs, line, width, n - 1);
    var closed := CloseGenerated(segs, n - 1);
    forall k | 0 <= k < |r|
      ensures r[k].line == line && r[k].startColumn < n && r[k].startColumn < r[k].endColumn
      ensures StartsSegment(t, line, r[k].startColumn)
      ensures r[k].mapping == MappingAtGeneratedLocation(t, line, r[k].startColumn)
    {
      if k < |segs| - 1 {
        assert r[k] == segs[k];
      } else if k == |segs| - 1 {
        assert r[k] == segs[k].(endColumn := n - 1);
      }
    }
  }

  lemma OpenedComplete(t: Tables, segs: seq<GeneratedSegment>, line: nat, width: nat, n: nat)
    requires 0 < n <= width
    requires Complete(t, segs, line, n - 1)
    ensures Complete(t, Opened(t, segs, line, width, n - 1), line, n)
  {
    var r := Opened(t, segs, line, width, n - 1);
    forall c: nat | c < n && StartsSegment(t, line, c) ensures exists k :: 0 <= k < |r| && r[k].startColumn == c {
      if c < n - 1 {
        var k :| 0 <= k < |segs| && segs[k].startColumn == c;
        assert r[k].startColumn == CloseGenerated(segs, n - 1)[k].startColumn;
      } else {
        assert r[|r| - 1].startColumn == c;
      }
    }
  }

  /** Any other column leaves the segments as they are. */
  lemma SkipKeepsPartition(t: Tables, segs: seq<GeneratedSegment>, line: nat, width: nat, n: nat)
    requires 1 < n <= width
    requires Partition(t, segs, line, width, n - 1)
    requires !StartsSegment(t, line, n - 1)
    ensures Partition(t, segs, line, width, n)
  {
    forall c: nat | c < n && StartsSegment(t, line, c) ensures exists k :: 0 <= k < |segs| && segs[k].startColumn == c {
      assert c < n - 1;
    }
  }

  lemma {:induction false} GeneratedSegmentsPartition(t: Tables, line: nat, width: nat, n: nat)
    requires n <= width
    ensures Partition(t, GeneratedSegments(t, line, width, n), line, width, n)
  {
    if n > 0 {
      GeneratedSegmentsPartition(t, line, width, n - 1);
      var segs := GeneratedSegments(t, line, width, n - 1);
      if StartsSegment(t, line, n - 1) {
        assert GeneratedSegments(t, line, width, n) == Opened(t, segs, line, width, n - 1);
        OpenedContiguous(t, segs, line, width, n);
        OpenedWellStarted(t, segs, line, width, n);
        OpenedComplete(t, segs, line, width, n);
      } else {
        SkipKeepsPartition(t, segs, line, width, n);
      }
    }
  }

  /** The whole generated line as `getGeneratedFile` builds it. */
  function GeneratedLineOf(t: Tables, line: nat, text: string): GeneratedLine {
    GeneratedLine(line, GeneratedSegments(t, line, |text|, |text|))
  }

  /** `getGeneratedFile` on the generated file's text; reading that text is the host's business. */
  function GeneratedFileOf(t: Tables, content: string): (f: GeneratedFile)
    ensures f.url == t.generatedFile && f.content == content && |f.lines| == |SplitLines(content)|
    ensures forall k :: 0 <= k < |f.lines| ==> f.lines[k] == GeneratedLineOf(t, k, SplitLines(content)[k])
  {
    var lines := SplitLines(content);
    GeneratedFile(t.generatedFile, content, seq(|lines|, k requires 0 <= k < |lines| => GeneratedLineOf(t, k, lines[k])))
  }

  /** Every line of the generated file is partitioned by its segments. */
  lemma GeneratedFilePartition(t: Tables, content: string, k: nat)
    requires k < |SplitLines(content)|
    ensures var text := SplitLines(content)[k];
            Partition(t, GeneratedFileOf(t, content).lines[k].segments, k, |text|, |text|)
  {
    var text := SplitLines(content)[k];
    GeneratedSegmentsPartition(t, k, |text|, |text|);
  }

  // ---------------------------------------------------------------------------
  // Source content and the source file

  /**
   * What `getSourceContentInSection` answers: `undefined`, a string, or a
   * `sourcesContent` entry that is there but is not a string (JSON `null`, a
   * number, an object), which a failed read leaves in place.
   */
  datatype Content = Missing | Text(text: string) | NonString

  /** The memoised source contents and source files, keyed by global source index. */
  datatype FileMemo = FileMemo(contents: map<int, Content>, sourceFiles: map<int, SourceFile>)

  /**
   * `sourcesContent[k]` once the GLOBAL index passes the length check; an
   * index outside the array reads `undefined`.
   */
  function InlineContent(sm: SourceMap, index: int, k: int): (r: Content)
    ensures r.Text? <==> index < |sm.sourcesContent| && 0 <= k < |sm.sourcesContent| && sm.sourcesContent[k].Some?
    ensures r.NonString? <==> index < |sm.sourcesContent| && 0 <= k < |sm.sourcesContent| && sm.sourcesContent[k].None?
  {
    if index < |sm.sourcesContent| && 0 <= k < |sm.sourcesContent| then
      match sm.sourcesContent[k]
      case Some(text) => Text(text)
      case None => NonString
    else Missing
  }

  /** The lookup gets past the guards: a base, a section map, and an in-section index below the number of sources. */
  predicate Reached(t: Tables, i: int, k: int) {
    At(t.sourceOffsets, i).Some? && At(t.sectionMaps, i).Some? && k < |At(t.sectionMaps, i).value.sources|
  }

  /** The content at this index is already remembered. */
  predicate Remembered(t: Tables, memo: FileMemo, i: int, k: int) {
    At(t.sourceOffsets, i).Some? && At(t.sourceOffsets, i).value + k in memo.contents
  }

  /**
   * `getSourceContentInSection`: the remembered content (even `undefined`);
   * otherwise, for an in-section index below the number of sources (the
   * only bound the code checks), the inline content when it is a string,
   * else the text read from the source's URL; a failed read, or no source,
   * leaves the inline value (`undefined` or the non-string entry). The
   * result is remembered either way.
   */
  function ContentInSection(host: Host, t: Tables, memo: FileMemo, i: int, k: int): (r: (Content, Tables, FileMemo))
    ensures r.1 == t.(sources := r.1.sources) && r.2.sourceFiles == memo.sourceFiles
    ensures r.2.contents.Keys >= memo.contents.Keys
    ensures Remembered(t, memo, i, k) ==> r == (memo.contents[At(t.sourceOffsets, i).value + k], t, memo)
    ensures Reached(t, i, k) ==>
              (At(t.sourceOffsets, i).value + k in r.2.contents && r.2.contents[At(t.sourceOffsets, i).value + k] == r.0)
    ensures !Reached(t, i, k) && !Remembered(t, memo, i, k) ==> r == (Missing, t, memo)
  {
    match At(t.sourceOffsets, i)
    case None => (Missing, t, memo)
    case Some(base) =>
      var index := base + k;
      if index in memo.contents then (memo.contents[index], t, memo)
      else match At(t.sectionMaps, i)
        case None => (Missing, t, memo)
        case Some(sm) =>
          if k >= |sm.sources| then (Missing, t, memo)
          else
            var inline := InlineContent(sm, index, k);
            if inline.Text? then (inline, t, memo.(contents := memo.contents[index := inline]))
            else
              var source := SourceInSection(host, t, i, k);
              var read := if source.Some? then host.read(source.value.url) else None;
              var content := if read.Some? then Text(read.value) else inline;
              (content, RememberSource(host, t, i, k), memo.(contents := memo.contents[index := content]))
  }

  /** A second content lookup returns the same content. */
  lemma ContentMemoised(host: Host, t: Tables, memo: FileMemo, i: int, k: int)
    ensures var (c, t1, memo1) := ContentInSection(host, t, memo, i, k);
            ContentInSection(host, t1, memo1, i, k).0 == c
  {
    var (c, t1, memo1) := ContentInSection(host, t, memo, i, k);
    assert At(t1.sourceOffsets, i) == At(t.sourceOffsets, i) && At(t1.sectionMaps, i) == At(t.sectionMaps, i);
  }

  /**
   * A JSON `null` entry whose source cannot be read stays `null`: the
   * content is not a string, and it is remembered as such.
   */
  lemma NullContentKept(host: Host, t: Tables, sm: SourceMap)
    requires At(t.sourceOffsets, 0) == Some(0) && At(t.sectionMaps, 0) == Some(sm)
    requires |sm.sources| == 1 && sm.sourcesContent == [None]
    requires forall url :: host.read(url) == None
    ensures var (c, _, memo1) := ContentInSection(host, t, FileMemo(map[], map[]), 0, 0);
            c == NonString && memo1.contents == map[0 := NonString]
  {
  }

  /**
   * The second section's inline content is skipped when the section's base
   * pushes the global index past the length of its `sourcesContent`: source
   * 0 of a section whose base is 1 is read from its URL.
   */
  lemma InlineContentSkippedExample(host: Host, t: Tables, sm: SourceMap)
    requires At(t.sourceOffsets, 1) == Some(1) && At(t.sectionMaps, 1) == Some(sm)
    requires |sm.sources| == 1 && sm.sourcesContent == [Some("inline")]
    ensures var source := SourceInSection(host, t, 1, 0);
            var read := if source.Some? then host.read(source.value.url) else None;
            ContentInSection(host, t, FileMemo(map[], map[]), 1, 0).0 == (if read.Some? then Text(read.value) else Missing)
  {
  }

  /** `sourceLine` segment `endColumn = column` on the last segment pushed, if any. */
  function CloseSource(segs: seq<SourceSegment>, column: nat): (r: seq<SourceSegment>)
    ensures |r| == |segs|
  {
    if segs == [] then [] else segs[..|segs| - 1] + [segs[|segs| - 1].(endColumn := column)]
  }

  /** Closing is updating the last segment's end in place. */
  lemma CloseSourceInPlace(segs: seq<SourceSegment>, column: nat)
    requires segs != []
    ensures CloseSource(segs, column) == segs[|segs| - 1 := segs[|segs| - 1].(endColumn := column)]
  {
    var r := CloseSource(segs, column);
    assert forall k :: 0 <= k < |segs| - 1 ==> r[k] == segs[k];
  }

  /**
   * The segments of source line `line` after its first `n` columns, with
   * `candidates(c)` the mappings found at column `c`; the check
   * `mappings !== undefined` holds for every column, since the candidates
   * are always an array.
   */
  function SegmentsOf(candidates: int -> seq<Mapping>, line: nat, width: nat, n: nat): seq<SourceSegment>
    requires n <= width
  {
    if n == 0 then []
    else
      var column := n - 1;
      CloseSource(SegmentsOf(candidates, line, width, n - 1), column) + [SourceSegment(candidates(column), line, column, width)]
  }

  /** The segments of a line of source `sourceIndex`, each column's candidates from the source cache. */
  function SourceSegments(t: Tables, sourceIndex: int, line: nat, width: nat, n: nat): seq<SourceSegment>
    requires n <= width
  {
    SegmentsOf(c => CandidatesAtSourceLocation(t, sourceIndex, line, c), line, width, n)
  }

  /** So every source segment is one column wide and carries that column's candidates. */
  lemma {:induction false} SegmentsOneColumn(candidates: int -> seq<Mapping>, line: nat, width: nat, n: nat)
    requires 0 < n <= width
    ensures var segs := SegmentsOf(candidates, line, width, n);
            && |segs| == n
            && (forall c :: 0 <= c < n - 1 ==> segs[c] == SourceSegment(candidates(c), line, c, c + 1))
            && segs[n - 1] == SourceSegment(candidates(n - 1), line, n - 1, width)
  {
    if n > 1 {
      SegmentsOneColumn(candidates, line, width, n - 1);
      var prev := SegmentsOf(candidates, line, width, n - 1);
      CloseSourceInPlace(prev, n - 1);
    }
  }

  lemma SourceSegmentsOneColumn(t: Tables, sourceIndex: int, line: nat, width: nat, n: nat)
    requires 0 < n <= width
    ensures var segs := SourceSegments(t, sourceIndex, line, width, n);
            && |segs| == n
            && (forall c :: 0 <= c < n - 1 ==>
                  segs[c] == SourceSegment(CandidatesAtSourceLocation(t, sourceIndex, line, c), line, c, c + 1))
            && segs[n - 1] == SourceSegment(CandidatesAtSourceLocation(t, sourceIndex, line, n - 1), line, n - 1, width)
  {
    SegmentsOneColumn(c => CandidatesAtSourceLocation(t, sourceIndex, line, c), line, width, n);
  }

  function SourceLineOf(t: Tables, sourceIndex: int, line: nat, text: string): SourceLine {
    SourceLine(line, SourceSegments(t, sourceIndex, line, |text|, |text|))
  }

  /**
   * `getSourceFileInSection`: the memo check looks at the CONTENT memo, so
   * once the content is remembered the file memo is returned, `undefined`
   * when no file was built; otherwise, for an in-section index below the
   * number of sources, `undefined` content gives no file, a non-string
   * content is the `TypeError` of `content.split`, and a string content is
   * built into a file, with the generated file's URL as its URL, and
   * remembered.
   */
  function SourceFileInSection(host: Host, t: Tables, memo: FileMemo, i: int, k: int): (r: (Result<Option<SourceFile>, Fault>, Tables, FileMemo))
    ensures r.1 == t.(sources := r.1.sources)
    ensures r.0.Ok? && r.0.value.Some? && memo.sourceFiles == map[] ==> r.0.value.value.url == t.generatedFile
    ensures r.0.Err? <==>
              !Remembered(t, memo, i, k) && Reached(t, i, k) && ContentInSection(host, t, memo, i, k).0.NonString?
    ensures r.0.Err? ==> r.0.error == ContentNotString(At(t.sourceOffsets, i).value + k)
    ensures r.0.Ok? && r.0.value.Some? && !Remembered(t, memo, i, k) ==>
              ContentInSection(host, t, memo, i, k).0 == Text(r.0.value.value.content)
  {
    match At(t.sourceOffsets, i)
    case None => (Ok(None), t, memo)
    case Some(base) =>
      var index := base + k;
      if index in memo.contents then (Ok(if index in memo.sourceFiles then Some(memo.sourceFiles[index]) else None), t, memo)
      else match At(t.sectionMaps, i)
        case None => (Ok(None), t, memo)
        case Some(sm) =>
          if k >= |sm.sources| then (Ok(None), t, memo)
          else
            var (content, t1, memo1) := ContentInSection(host, t, memo, i, k);
            match content
            case Missing => (Ok(None), t1, memo1)
            case NonString => (Err(ContentNotString(index)), t1, memo1)
            case Text(text) =>
              var lines := SplitLines(text);
              var sourceLines := seq(|lines|, l requires 0 <= l < |lines| => SourceLineOf(t1, index, l, lines[l]));
              var file := SourceFile(t.generatedFile, text, sourceLines, SourceInSection(host, t1, i, k));
              (Ok(Some(file)), RememberSource(host, t1, i, k), memo1.(sourceFiles := memo1.sourceFiles[index := file]))
  }

  /** After a file is built, asking again returns the same file. */
  lemma SourceFileMemoised(host: Host, t: Tables, memo: FileMemo, i: int, k: int)
    requires SourceFileInSection(host, t, memo, i, k).0.Ok? && SourceFileInSection(host, t, memo, i, k).0.value.Some?
    ensures var (f, t1, memo1) := SourceFileInSection(host, t, memo, i, k);
            SourceFileInSection(host, t1, memo1, i, k).0 == f
  {
  }

  /**
   * A JSON `null` entry whose source cannot be read makes the file lookup
   * fail with the `TypeError` of `content.split`; the `null` stays
   * remembered, so a second file lookup answers `undefined`.
   */
  lemma NullContentFails(host: Host, t: Tables, sm: SourceMap)
    requires At(t.sourceOffsets, 0) == Some(0) && At(t.sectionMaps, 0) == Some(sm)
    requires |sm.sources| == 1 && sm.sourcesContent == [None]
    requires forall url :: host.read(url) == None
    ensures var (f, t1, memo1) := SourceFileInSection(host, t, FileMemo(map[], map[]), 0, 0);
            f == Err(ContentNotString(0)) && SourceFileInSection(host, t1, memo1, 0, 0).0 == Ok(None)
  {
    NullContentKept(host, t, sm);
  }

  /** Once the content alone is remembered, the file is never built: the answer stays `undefined`. */
  lemma ContentFirstHidesFile(host: Host, t: Tables, i: int, k: int)
    requires At(t.sourceOffsets, i).Some?
    ensures var (_, t1, memo1) := ContentInSection(host, t, FileMemo(map[], map[]), i, k);
            Reached(t, i, k) ==> SourceFileInSection(host, t1, memo1, i, k).0 == Ok(None)
  {
  }
}
