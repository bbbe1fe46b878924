/**
 * The records the decoder builds (src/lib/decoder.ts:34-139), the helpers that
 * give JavaScript's sparse arrays their meaning, and `compareOffsets`.
 *
 * Objects that the decoder later changes in place are referred to by index:
 * a mapping names its source by `sourceIndex` (the source's `mediaType` is
 * filled in afterwards), and a scope names its parent and nested scopes by
 * `scopeIndex` into the scope arena.  Names and locals never change once
 * built, so they are held by value.
 */
module Records {
  import opened Wrappers

  datatype ParsedSection = ParsedSection(sectionIndex: nat, generatedLine: int, generatedColumn: int, generatedFile: string)

  datatype Source = Source(sourceIndex: nat, sectionIndex: nat, sectionSourceIndex: nat, url: string, mediaType: Option<string>)

  datatype Name = Name(nameIndex: nat, sectionIndex: nat, sectionNameIndex: nat, text: string)

  /** The name part of a mapping: the delta read and the name it led to, if any. */
  datatype NamePart = NamePart(nameIndexOffset: int, name: Option<Name>)

  /** The source part of a mapping, present when its segment has more than three fields. */
  datatype SourcePart = SourcePart(
    sourceIndexOffset: int, sourceIndex: nat,
    sourceLineOffset: int, sourceLine: int,
    sourceColumnOffset: int, sourceColumn: int,
    name: Option<NamePart>)

  datatype Mapping = Mapping(
    mappingIndex: nat, sectionIndex: nat, sectionMappingIndex: nat,
    generatedLine: int, sectionGeneratedLine: int,
    generatedColumnOffset: int, generatedColumn: int, sectionGeneratedColumn: int,
    source: Option<SourcePart>)

  /** A (line, column) pair. */
  datatype Position = Position(line: int, column: int)

  datatype Local = Local(
    localIndex: nat, sectionIndex: nat, sectionLocalIndex: nat,
    scope: Option<nat>,
    generatedName: Option<Name>, sourceName: Option<Name>,
    isHidden: bool, isRenamed: bool)

  /** A scope; `end` and `sectionEnd` stay `None` (`undefined`) until an exit writes them. */
  datatype Scope = Scope(
    scopeIndex: nat, sectionIndex: nat, sectionScopeIndex: nat,
    parent: Option<nat>,
    start: Position, sectionStart: Position,
    end: Option<Position>, sectionEnd: Option<Position>,
    nested: seq<nat>, locals: seq<Local>)

  datatype GeneratedSegment = GeneratedSegment(mapping: Option<Mapping>, line: nat, startColumn: nat, endColumn: nat)
  datatype GeneratedLine = GeneratedLine(line: nat, segments: seq<GeneratedSegment>)
  datatype GeneratedFile = GeneratedFile(url: string, content: string, lines: seq<GeneratedLine>)

  datatype SourceSegment = SourceSegment(mappings: seq<Mapping>, line: nat, startColumn: nat, endColumn: nat)
  datatype SourceLine = SourceLine(line: nat, segments: seq<SourceSegment>)
  datatype SourceFile = SourceFile(url: string, content: string, lines: seq<SourceLine>, source: Option<Source>)

  /**
   * The ways the decoder stops with a `TypeError`, plus the one place where
   * the model stops although the code goes on with `NaN` (a segment that
   * decodes to fewer values than the code reads).
   */
  datatype Fault =
    | ShortSegment(pos: nat)
    | UnknownSource(sectionIndex: nat, sectionSourceIndex: int)
    | ExitWithoutParent(pos: nat)
    | HoleInScopes(index: nat)
    | NoScope
    | NoLocal
    | NoGeneratedName
    | ContentNotString(sourceIndex: int)  // `content.split` on a source content that is not a string

  // ---------------------------------------------------------------------------
  // Sparse arrays

  /** `a[i]` on a sparse array: `undefined` outside it and at holes. */
  function At<T>(a: seq<Option<T>>, i: int): (r: Option<T>)
    ensures r.Some? ==> 0 <= i < |a| && a[i] == r
    ensures 0 <= i < |a| ==> r == a[i]
  {
    if 0 <= i < |a| then a[i] else None
  }

  /** `a[i] = x` on a sparse array: the array grows to `i + 1` when needed, leaving holes. */
  function Put<T>(a: seq<Option<T>>, i: nat, x: T): (r: seq<Option<T>>)
    ensures |r| == if i < |a| then |a| else i + 1
    ensures r[i] == Some(x)
  {
    if i < |a| then a[i := Some(x)]
    else a + seq(i - |a|, _ => None) + [Some(x)]
  }

  /** Every other index keeps what it had, a gap the store opens being a hole. */
  lemma PutKeepsOthers<T>(a: seq<Option<T>>, i: nat, x: T)
    ensures forall j :: 0 <= j < |Put(a, i, x)| && j != i ==> Put(a, i, x)[j] == At(a, j)
  {
  }

  /** `(cache[k] || (cache[k] = [])).push(x)`. */
  function Push<T>(cache: map<int, seq<T>>, k: int, x: T): map<int, seq<T>> {
    cache[k := (if k in cache then cache[k] else []) + [x]]
  }

  /** A push adds `x` at the end of the bucket `k` and leaves the other buckets alone. */
  lemma PushBuckets<T>(cache: map<int, seq<T>>, k: int, x: T)
    ensures var r := Push(cache, k, x);
            r.Keys == cache.Keys + {k} &&
            r[k] == (if k in cache then cache[k] else []) + [x] &&
            forall j :: j in cache && j != k ==> r[j] == cache[j]
  {
  }

  /** The same push one level down: `cache[k1][k2].push(x)`, creating both levels. */
  function Push2<T>(cache: map<int, map<int, seq<T>>>, k1: int, k2: int, x: T): map<int, map<int, seq<T>>> {
    cache[k1 := Push(if k1 in cache then cache[k1] else map[], k2, x)]
  }

  /** The same one level down: only the inner map at `k1` changes. */
  lemma Push2Buckets<T>(cache: map<int, map<int, seq<T>>>, k1: int, k2: int, x: T)
    ensures var r := Push2(cache, k1, k2, x);
            r.Keys == cache.Keys + {k1} &&
            r[k1] == Push(if k1 in cache then cache[k1] else map[], k2, x) &&
            forall j :: j in cache && j != k1 ==> r[j] == cache[j]
  {
  }

  /** `cache[k1][k2]`, `undefined` meaning no entry. */
  function Lookup2<T>(cache: map<int, map<int, seq<T>>>, k1: int, k2: int): (r: Option<seq<T>>)
    ensures r.Some? <==> k1 in cache && k2 in cache[k1]
  {
    if k1 in cache && k2 in cache[k1] then Some(cache[k1][k2]) else None
  }

  /**
   * How `Array.prototype.slice` reads one bound: `undefined` is the default,
   * a negative bound counts from the end, and the result is clamped to
   * `[0, len]`.
   */
  function SliceBound(b: Option<int>, len: nat, default: nat): (r: nat)
    requires default <= len
    ensures r <= len
    ensures b.None? ==> r == default
    ensures b.Some? && 0 <= b.value <= len ==> r == b.value
    ensures b.Some? && b.value > len ==> r == len
    ensures b.Some? && b.value < 0 ==> r == if len + b.value < 0 then 0 else len + b.value
  {
    match b
    case None => default
    case Some(x) =>
      if x < 0 then (if len + x < 0 then 0 else len + x)
      else if x > len then len
      else x
  }

  /** `a.slice(start, end)`. */
  function Slice<T>(a: seq<T>, start: Option<int>, end: Option<int>): (r: seq<T>)
    ensures var s, e := SliceBound(start, |a|, 0), SliceBound(end, |a|, |a|);
            |r| == (if s < e then e - s else 0) &&
            forall k :: 0 <= k < |r| ==> r[k] == a[s + k]
  {
    var s, e := SliceBound(start, |a|, 0), SliceBound(end, |a|, |a|);
    if s < e then a[s..e] else []
  }

  /** Slicing with two defined bounds that meet or cross gives nothing. */
  lemma SliceEmpty<T>(a: seq<T>, start: int, end: int)
    requires 0 <= end <= start
    ensures Slice(a, Some(start), Some(end)) == []
  {
  }

  // ---------------------------------------------------------------------------
  // Offsets

  /** `compareOffsets`: a three-way comparison of two (line, column) pairs. */
  function CompareOffsets(line1: int, column1: int, line2: int, column2: int): (r: int)
    ensures -1 <= r <= 1
    ensures r < 0 <==> line1 < line2 || (line1 == line2 && column1 < column2)
    ensures r == 0 <==> line1 == line2 && column1 == column2
    ensures r > 0 <==> line1 > line2 || (line1 == line2 && column1 > column2)
  {
    if line1 < line2 then -1
    else if line1 > line2 then 1
    else if column1 < column2 then -1
    else if column1 > column2 then 1
    else 0
  }

  /**
   * `compareOffsets` on positions that may be `undefined`.  Every `<` and `>`
   * with `undefined` is false, so an undefined operand compares equal to
   * anything.
   */
  function ComparePositions(a: Option<Position>, b: Option<Position>): (r: int)
    ensures a.None? || b.None? ==> r == 0
    ensures a.Some? && b.Some? ==> r == CompareOffsets(a.value.line, a.value.column, b.value.line, b.value.column)
  {
    if a.Some? && b.Some? then CompareOffsets(a.value.line, a.value.column, b.value.line, b.value.column) else 0
  }

  /** Swapping the operands negates the comparison. */
  lemma CompareAntisymmetric(line1: int, column1: int, line2: int, column2: int)
    ensures CompareOffsets(line1, column1, line2, column2) == -CompareOffsets(line2, column2, line1, column1)
  {
  }

  /** The order `compareOffsets` describes is transitive. */
  lemma CompareTransitive(a: Position, b: Position, c: Position)
    requires CompareOffsets(a.line, a.column, b.line, b.column) <= 0
    requires CompareOffsets(b.line, b.column, c.line, c.column) <= 0
    ensures CompareOffsets(a.line, a.column, c.line, c.column) <= 0
  {
  }
}
