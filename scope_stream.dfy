/**
 * The character scan of `decodeSectionScopes` (src/lib/decoder.ts:501-567).
 *
 * A `>` or `<` preceded by a non-empty field reads a (line delta, column
 * delta) pair from that field and moves both the absolute position (which
 * starts at the section's offset) and the section-relative one (which starts
 * at 0); neither column is ever reset.  `>` opens a scope numbered
 * `base + (++sectionScopeIndex)` whose parent is the innermost open scope;
 * `<` first steps to the parent and then writes the end position into it,
 * so the end lands on the enclosing scope, and an exit with no parent
 * dereferences `undefined`.  A mark right after another mark (an empty field)
 * is skipped and its character stays part of the next field.
 *
 * Scopes live in an arena indexed by `scopeIndex`; `parent` and `nested`
 * hold indices into it.
 */
module ScopeStream {
  import opened Wrappers
  import opened Records
  import Vlq

  /** The loop's variables: both positions, `sectionScopeIndex`, `parent` and `current`. */
  datatype ScopeCursor = ScopeCursor(
    line: int, column: int, sectionLine: int, sectionColumn: int,
    count: nat, parent: Option<nat>, current: Option<nat>)

  function ScopeStart(generatedLine: int, generatedColumn: int): ScopeCursor {
    ScopeCursor(generatedLine, generatedColumn, 0, 0, 0, None, None)
  }

  predicate IsMark(ch: char) {
    ch == '>' || ch == '<'
  }

  /** Both positions moved by a segment's first two values. */
  function Move(c: ScopeCursor, seg: seq<int>): (d: ScopeCursor)
    requires |seg| >= 2
    ensures d == c.(line := d.line, column := d.column, sectionLine := d.sectionLine, sectionColumn := d.sectionColumn)
    ensures d.line - d.sectionLine == c.line - c.sectionLine && d.column - d.sectionColumn == c.column - c.sectionColumn
    ensures d.sectionLine == c.sectionLine + seg[0] && d.sectionColumn == c.sectionColumn + seg[1]
  {
    c.(line := c.line + seg[0], column := c.column + seg[1],
       sectionLine := c.sectionLine + seg[0], sectionColumn := c.sectionColumn + seg[1])
  }

  /** `parent.nested.push(child)` on the arena. */
  function AddNested(arena: seq<Option<Scope>>, p: nat, child: nat): (r: seq<Option<Scope>>)
    ensures |r| == |arena|
  {
    if p < |arena| && arena[p].Some? then arena[p := Some(arena[p].value.(nested := arena[p].value.nested + [child]))]
    else arena
  }

  /** Writing the end positions into the scope at `p`. */
  function Close(arena: seq<Option<Scope>>, p: nat, end: Position, sectionEnd: Position): (r: seq<Option<Scope>>)
    ensures |r| == |arena|
  {
    if p < |arena| && arena[p].Some? then arena[p := Some(arena[p].value.(end := Some(end), sectionEnd := Some(sectionEnd)))]
    else arena
  }

  /** `current.parent` after `current = parent`. */
  function ParentOf(arena: seq<Option<Scope>>, p: nat): Option<nat> {
    if p < |arena| && arena[p].Some? then arena[p].value.parent else None
  }

  /** The scope a `>` opens, at the cursor's position after the move. */
  function NewScope(d: ScopeCursor, sectionIndex: nat, base: nat): Scope {
    Scope(base + d.count + 1, sectionIndex, d.count + 1, d.current,
          Position(d.line, d.column), Position(d.sectionLine, d.sectionColumn), None, None, [], [])
  }

  /** The arena with the new scope's index pushed onto the current scope's `nested`, if there is one. */
  function ChildArena(d: ScopeCursor, arena: seq<Option<Scope>>, base: nat): seq<Option<Scope>> {
    match d.current
    case None => arena
    case Some(p) => AddNested(arena, p, base + d.count + 1)
  }

  function EnterArena(d: ScopeCursor, arena: seq<Option<Scope>>, sectionIndex: nat, base: nat): seq<Option<Scope>> {
    Put(ChildArena(d, arena, base), base + d.count + 1, NewScope(d, sectionIndex, base))
  }

  function EnterCursor(d: ScopeCursor, base: nat): ScopeCursor {
    d.(count := d.count + 1, parent := d.current, current := Some(base + d.count + 1))
  }

  /** The loop from `pos` on. */
  function ScopeScan(text: string, pos: nat, startPos: nat, c: ScopeCursor, arena: seq<Option<Scope>>,
                     sectionIndex: nat, base: nat): Result<seq<Option<Scope>>, Fault>
    requires startPos <= pos
    decreases |text| - pos
  {
    if pos >= |text| then Ok(arena)
    else if IsMark(text[pos]) && pos > startPos then
      var seg := Vlq.DecodeWindow(text, startPos, pos);
      if |seg| < 2 then Err(ShortSegment(pos))
      else
        var d := Move(c, seg);
        if text[pos] == '>' then
          ScopeScan(text, pos + 1, pos + 1, EnterCursor(d, base), EnterArena(d, arena, sectionIndex, base), sectionIndex, base)
        else
          match d.parent
          case None => Err(ExitWithoutParent(pos))
          case Some(p) =>
            var a := Close(arena, p, Position(d.line, d.column), Position(d.sectionLine, d.sectionColumn));
            ScopeScan(text, pos + 1, pos + 1, d.(current := Some(p), parent := ParentOf(a, p)), a, sectionIndex, base)
    else ScopeScan(text, pos + 1, startPos, c, arena, sectionIndex, base)
  }

  /** The arena after a section's `x_ms_scopes` text, numbering from `base`. */
  function ScanScopes(text: string, arena: seq<Option<Scope>>, sectionIndex: nat, base: nat,
                      generatedLine: int, generatedColumn: int): Result<seq<Option<Scope>>, Fault> {
    ScopeScan(text, 0, 0, ScopeStart(generatedLine, generatedColumn), arena, sectionIndex, base)
  }

  // ---------------------------------------------------------------------------
  // The shape of the arena a section leaves

  /**
   * A scope the section made, sitting at index `j`: numbered from the base,
   * absolute positions equal to section positions plus the section's offset
   * (both coordinates, as no column is ever reset), its parent an earlier
   * scope of the same section, its nested scopes later ones, and no locals.
   */
  predicate WellPlaced(s: Scope, j: nat, base: nat, sectionIndex: nat, generatedLine: int, generatedColumn: int) {
    s.scopeIndex == j && s.sectionIndex == sectionIndex && base + s.sectionScopeIndex == j && s.sectionScopeIndex >= 1 &&
    s.start.line == s.sectionStart.line + generatedLine && s.start.column == s.sectionStart.column + generatedColumn &&
    (s.end.Some? <==> s.sectionEnd.Some?) &&
    (s.end.Some? ==> s.end.value.line == s.sectionEnd.value.line + generatedLine &&
                     s.end.value.column == s.sectionEnd.value.column + generatedColumn) &&
    (s.parent.Some? ==> base < s.parent.value < j) &&
    (forall k :: 0 <= k < |s.nested| ==> j < s.nested[k]) &&
    s.locals == []
  }

  /**
   * The arena after `count` scopes of a section: everything below the base as
   * it was, a hole at the base, the section's scopes at `base + 1 ..
   * base + count`, and every parent link matched by a `nested` entry and the
   * other way round.
   */
  ghost predicate ArenaShape(arena: seq<Option<Scope>>, before: seq<Option<Scope>>, base: nat, count: nat,
                             sectionIndex: nat, generatedLine: int, generatedColumn: int) {
    |before| == base &&
    |arena| == (if count == 0 then base else base + count + 1) &&
    (forall j :: 0 <= j < base ==> arena[j] == before[j]) &&
    (count > 0 ==> arena[base].None?) &&
    (forall j :: base < j < |arena| ==> arena[j].Some? && WellPlaced(arena[j].value, j, base, sectionIndex, generatedLine, generatedColumn)) &&
    (forall j, k :: base < j < |arena| && 0 <= k < |arena[j].value.nested| ==>
       arena[j].value.nested[k] < |arena| && arena[arena[j].value.nested[k]].value.parent == Some(j)) &&
    (forall j :: base < j < |arena| && arena[j].value.parent.Some? ==> j in arena[arena[j].value.parent.value].value.nested)
  }

  /** The loop variables agree with the arena: `parent == current.parent`, and the positions obey the offset. */
  ghost predicate CursorShape(c: ScopeCursor, arena: seq<Option<Scope>>, base: nat, generatedLine: int, generatedColumn: int) {
    c.line == c.sectionLine + generatedLine && c.column == c.sectionColumn + generatedColumn &&
    (c.current.None? <==> c.count == 0) &&
    (c.current.None? ==> c.parent.None?) &&
    (c.current.Some? ==> base < c.current.value < |arena| && arena[c.current.value].Some? &&
                         c.parent == arena[c.current.value].value.parent)
  }

  /** `withChild`: the arena after the new scope's index is pushed onto its parent's `nested`. */
  lemma EnterChild(d: ScopeCursor, arena: seq<Option<Scope>>, before: seq<Option<Scope>>, base: nat,
                   sectionIndex: nat, generatedLine: int, generatedColumn: int)
    requires ArenaShape(arena, before, base, d.count, sectionIndex, generatedLine, generatedColumn)
    requires CursorShape(d, arena, base, generatedLine, generatedColumn)
    ensures var w := ChildArena(d, arena, base);
            |w| == |arena| &&
            (forall j :: 0 <= j <= base && j < |w| ==> w[j] == arena[j]) &&
            (forall j :: base < j < |w| ==>
               w[j].Some? && WellPlaced(w[j].value, j, base, sectionIndex, generatedLine, generatedColumn) &&
               w[j].value.parent == arena[j].value.parent &&
               w[j].value.nested == (if d.current == Some(j) then arena[j].value.nested + [base + d.count + 1]
                                     else arena[j].value.nested))
  {
    var w := ChildArena(d, arena, base);
    forall j | base < j < |w|
      ensures w[j].Some? && WellPlaced(w[j].value, j, base, sectionIndex, generatedLine, generatedColumn)
    {
      assert WellPlaced(arena[j].value, j, base, sectionIndex, generatedLine, generatedColumn);
    }
  }

  /** Entering keeps the prefix, the hole and the placing of every scope. */
  lemma EnterPlaced(d: ScopeCursor, arena: seq<Option<Scope>>, before: seq<Option<Scope>>, base: nat,
                    sectionIndex: nat, generatedLine: int, generatedColumn: int)
    requires ArenaShape(arena, before, base, d.count, sectionIndex, generatedLine, generatedColumn)
    requires CursorShape(d, arena, base, generatedLine, generatedColumn)
    ensures var r := EnterArena(d, arena, sectionIndex, base);
            |r| == base + d.count + 2 &&
            (forall j :: 0 <= j < base ==> r[j] == before[j]) &&
            r[base].None? &&
            (forall j :: base < j < |r| ==> r[j].Some? && WellPlaced(r[j].value, j, base, sectionIndex, generatedLine, generatedColumn))
  {
    EnterChild(d, arena, before, base, sectionIndex, generatedLine, generatedColumn);
    var idx := base + d.count + 1;
    var w := ChildArena(d, arena, base);
    var r := EnterArena(d, arena, sectionIndex, base);
    assert r == Put(w, idx, NewScope(d, sectionIndex, base));
    assert WellPlaced(NewScope(d, sectionIndex, base), idx, base, sectionIndex, generatedLine, generatedColumn);
    forall j | 0 <= j < |w| ensures r[j] == w[j] { }
    if d.count == 0 {
      assert r[base] == At(arena, base);
    }
  }

  /** Every `nested` entry of the entered arena points to a scope whose parent is the holder. */
  lemma EnterLinksDown(d: ScopeCursor, arena: seq<Option<Scope>>, before: seq<Option<Scope>>, base: nat,
                       sectionIndex: nat, generatedLine: int, generatedColumn: int)
    requires ArenaShape(arena, before, base, d.count, sectionIndex, generatedLine, generatedColumn)
    requires CursorShape(d, arena, base, generatedLine, generatedColumn)
    ensures var r := EnterArena(d, arena, sectionIndex, base);
            |r| == base + d.count + 2 &&
            forall j, k :: base < j < |r| && r[j].Some? && 0 <= k < |r[j].value.nested| ==>
              r[j].value.nested[k] < |r| && r[r[j].value.nested[k]].Some? && r[r[j].value.nested[k]].value.parent == Some(j)
  {
    EnterChild(d, arena, before, base, sectionIndex, generatedLine, generatedColumn);
    var idx := base + d.count + 1;
    var w := ChildArena(d, arena, base);
    var r := EnterArena(d, arena, sectionIndex, base);
    assert r == Put(w, idx, NewScope(d, sectionIndex, base));
    forall j, k | base < j < |r| && r[j].Some? && 0 <= k < |r[j].value.nested|
      ensures r[j].value.nested[k] < |r| && r[r[j].value.nested[k]].Some? && r[r[j].value.nested[k]].value.parent == Some(j)
    {
      if j < idx {
        assert r[j] == w[j];
        if d.current == Some(j) && k == |arena[j].value.nested| {
          assert r[j].value.nested[k] == idx;
        } else {
          var q := arena[j].value.nested[k];
          assert r[j].value.nested[k] == q;
          assert WellPlaced(arena[j].value, j, base, sectionIndex, generatedLine, generatedColumn);
          assert q < |arena| && arena[q].value.parent == Some(j);
          assert r[q] == w[q];
        }
      }
    }
  }

  /** Every parent link of the entered arena is matched by a `nested` entry. */
  lemma EnterLinksUp(d: ScopeCursor, arena: seq<Option<Scope>>, before: seq<Option<Scope>>, base: nat,
                     sectionIndex: nat, generatedLine: int, generatedColumn: int)
    requires ArenaShape(arena, before, base, d.count, sectionIndex, generatedLine, generatedColumn)
    requires CursorShape(d, arena, base, generatedLine, generatedColumn)
    ensures var r := EnterArena(d, arena, sectionIndex, base);
            |r| == base + d.count + 2 &&
            forall j :: base < j < |r| && r[j].Some? && r[j].value.parent.Some? ==>
              r[j].value.parent.value < |r| && r[r[j].value.parent.value].Some? && j in r[r[j].value.parent.value].value.nested
  {
    EnterChild(d, arena, before, base, sectionIndex, generatedLine, generatedColumn);
    var idx := base + d.count + 1;
    var w := ChildArena(d, arena, base);
    var r := EnterArena(d, arena, sectionIndex, base);
    assert r == Put(w, idx, NewScope(d, sectionIndex, base));
    PutKeepsOthers(w, idx, NewScope(d, sectionIndex, base));
    forall j | base < j < |r| && r[j].Some? && r[j].value.parent.Some?
      ensures r[j].value.parent.value < |r| && r[r[j].value.parent.value].Some? && j in r[r[j].value.parent.value].value.nested
    {
      var p := r[j].value.parent.value;
      if j < idx {
        assert r[j] == w[j];
        assert WellPlaced(arena[j].value, j, base, sectionIndex, generatedLine, generatedColumn);
        assert r[p] == w[p];
        assert j in arena[p].value.nested;
      } else {
        assert p == d.current.value;
        assert r[p] == w[p];
        assert w[p].value.nested == arena[p].value.nested + [idx];
      }
    }
  }

  lemma EnterKeepsShape(d: ScopeCursor, arena: seq<Option<Scope>>, before: seq<Option<Scope>>, base: nat,
                        sectionIndex: nat, generatedLine: int, generatedColumn: int)
    requires ArenaShape(arena, before, base, d.count, sectionIndex, generatedLine, generatedColumn)
    requires CursorShape(d, arena, base, generatedLine, generatedColumn)
    ensures ArenaShape(EnterArena(d, arena, sectionIndex, base), before, base, d.count + 1, sectionIndex, generatedLine, generatedColumn)
    ensures CursorShape(EnterCursor(d, base), EnterArena(d, arena, sectionIndex, base), base, generatedLine, generatedColumn)
  {
    EnterPlaced(d, arena, before, base, sectionIndex, generatedLine, generatedColumn);
    EnterLinksDown(d, arena, before, base, sectionIndex, generatedLine, generatedColumn);
    EnterLinksUp(d, arena, before, base, sectionIndex, generatedLine, generatedColumn);
  }

  lemma ExitKeepsShape(d: ScopeCursor, p: nat, end: Position, sectionEnd: Position, arena: seq<Option<Scope>>,
                       before: seq<Option<Scope>>, base: nat, sectionIndex: nat, generatedLine: int, generatedColumn: int)
    requires ArenaShape(arena, before, base, d.count, sectionIndex, generatedLine, generatedColumn)
    requires CursorShape(d, arena, base, generatedLine, generatedColumn)
    requires d.parent == Some(p)
    requires end.line == sectionEnd.line + generatedLine && end.column == sectionEnd.column + generatedColumn
    ensures ArenaShape(Close(arena, p, end, sectionEnd), before, base, d.count, sectionIndex, generatedLine, generatedColumn)
    ensures CursorShape(d.(current := Some(p), parent := ParentOf(Close(arena, p, end, sectionEnd), p)),
                        Close(arena, p, end, sectionEnd), base, generatedLine, generatedColumn)
  {
    var r := Close(arena, p, end, sectionEnd);
    var cur := d.current.value;
    assert WellPlaced(arena[cur].value, cur, base, sectionIndex, generatedLine, generatedColumn);
    assert base < p < |arena|;
    forall j | base < j < |r|
      ensures r[j].Some? && WellPlaced(r[j].value, j, base, sectionIndex, generatedLine, generatedColumn)
      ensures r[j].value.parent == arena[j].value.parent && r[j].value.nested == arena[j].value.nested
    {
      assert WellPlaced(arena[j].value, j, base, sectionIndex, generatedLine, generatedColumn);
    }
  }

  /** Some number of the section's scopes fill the arena in the shape `ArenaShape` describes. */
  ghost predicate Shaped(arena: seq<Option<Scope>>, before: seq<Option<Scope>>, base: nat,
                         sectionIndex: nat, generatedLine: int, generatedColumn: int) {
    exists n: nat :: ArenaShape(arena, before, base, n, sectionIndex, generatedLine, generatedColumn)
  }

  /** One scope mark read: the scan goes on from a cursor and an arena of the same shape. */
  lemma MarkKeepsShape(text: string, pos: nat, startPos: nat, c: ScopeCursor, arena: seq<Option<Scope>>,
                       before: seq<Option<Scope>>, sectionIndex: nat, base: nat,
                       generatedLine: int, generatedColumn: int)
    returns (c1: ScopeCursor, a1: seq<Option<Scope>>)
    requires startPos < pos < |text| && IsMark(text[pos])
    requires ArenaShape(arena, before, base, c.count, sectionIndex, generatedLine, generatedColumn)
    requires CursorShape(c, arena, base, generatedLine, generatedColumn)
    requires ScopeScan(text, pos, startPos, c, arena, sectionIndex, base).Ok?
    ensures ArenaShape(a1, before, base, c1.count, sectionIndex, generatedLine, generatedColumn)
    ensures CursorShape(c1, a1, base, generatedLine, generatedColumn)
    ensures ScopeScan(text, pos, startPos, c, arena, sectionIndex, base) == ScopeScan(text, pos + 1, pos + 1, c1, a1, sectionIndex, base)
  {
    var seg := Vlq.DecodeWindow(text, startPos, pos);
    var d := Move(c, seg);
    if text[pos] == '>' {
      EnterKeepsShape(d, arena, before, base, sectionIndex, generatedLine, generatedColumn);
      c1 := EnterCursor(d, base);
      a1 := EnterArena(d, arena, sectionIndex, base);
    } else {
      var p := d.parent.value;
      var e := Position(d.line, d.column);
      var se := Position(d.sectionLine, d.sectionColumn);
      ExitKeepsShape(d, p, e, se, arena, before, base, sectionIndex, generatedLine, generatedColumn);
      a1 := Close(arena, p, e, se);
      c1 := d.(current := Some(p), parent := ParentOf(a1, p));
    }
  }

  /** From any point where cursor and arena are shaped, a scan that succeeds leaves a shaped arena. */
  lemma {:induction false} ScanKeepsShape(text: string, pos: nat, startPos: nat, c: ScopeCursor, arena: seq<Option<Scope>>,
                                         before: seq<Option<Scope>>, sectionIndex: nat, base: nat,
                                         generatedLine: int, generatedColumn: int)
    requires startPos <= pos
    requires ArenaShape(arena, before, base, c.count, sectionIndex, generatedLine, generatedColumn)
    requires CursorShape(c, arena, base, generatedLine, generatedColumn)
    requires ScopeScan(text, pos, startPos, c, arena, sectionIndex, base).Ok?
    ensures Shaped(ScopeScan(text, pos, startPos, c, arena, sectionIndex, base).value,
                   before, base, sectionIndex, generatedLine, generatedColumn)
    decreases |text| - pos
  {
    var r := ScopeScan(text, pos, startPos, c, arena, sectionIndex, base);
    if pos >= |text| {
      assert r.value == arena;
      assert ArenaShape(r.value, before, base, c.count, sectionIndex, generatedLine, generatedColumn);
    } else if IsMark(text[pos]) && pos > startPos {
      var c1, a1 := MarkKeepsShape(text, pos, startPos, c, arena, before, sectionIndex, base, generatedLine, generatedColumn);
      ScanKeepsShape(text, pos + 1, pos + 1, c1, a1, before, sectionIndex, base, generatedLine, generatedColumn);
    } else {
      assert r == ScopeScan(text, pos + 1, startPos, c, arena, sectionIndex, base);
      ScanKeepsShape(text, pos + 1, startPos, c, arena, before, sectionIndex, base, generatedLine, generatedColumn);
    }
  }

  /**
   * The arena a section leaves, numbering from `base == |arena|`: the scopes
   * below the base untouched, a hole at the base as soon as there is any
   * scope, and after it the section's scopes, each well placed, forming a
   * forest through `parent` and `nested`.
   */
  lemma ScopesShape(text: string, arena: seq<Option<Scope>>, sectionIndex: nat, generatedLine: int, generatedColumn: int)
    requires ScanScopes(text, arena, sectionIndex, |arena|, generatedLine, generatedColumn).Ok?
    ensures exists n: nat :: ArenaShape(ScanScopes(text, arena, sectionIndex, |arena|, generatedLine, generatedColumn).value,
                                        arena, |arena|, n, sectionIndex, generatedLine, generatedColumn)
  {
    ScanKeepsShape(text, 0, 0, ScopeStart(generatedLine, generatedColumn), arena, arena, sectionIndex, |arena|,
                   generatedLine, generatedColumn);
  }

  /** The hole: a section that opens any scope leaves index `base` empty. */
  lemma ScopesLeaveHole(text: string, arena: seq<Option<Scope>>, sectionIndex: nat, generatedLine: int, generatedColumn: int)
    requires ScanScopes(text, arena, sectionIndex, |arena|, generatedLine, generatedColumn).Ok?
    ensures var r := ScanScopes(text, arena, sectionIndex, |arena|, generatedLine, generatedColumn).value;
            |r| >= |arena| && (|r| > |arena| ==> r[|arena|].None?) &&
            (forall j :: 0 <= j < |arena| ==> r[j] == arena[j]) &&
            (forall j :: |arena| <= j < |r| && r[j].Some? ==> r[j].value.locals == [])
  {
    ScopesShape(text, arena, sectionIndex, generatedLine, generatedColumn);
  }

  /**
   * "AA>AA>AA<": two nested scopes open at (0, 0), and the exit writes its
   * end into scope 1, the parent, leaving scope 2 open.
   */
  lemma EndLandsOnParentExample()
    ensures ScanScopes("AA>AA>AA<", [], 0, 0, 0, 0) == Ok([
      None,
      Some(Scope(1, 0, 1, None, Position(0, 0), Position(0, 0), Some(Position(0, 0)), Some(Position(0, 0)), [2], [])),
      Some(Scope(2, 0, 2, Some(1), Position(0, 0), Position(0, 0), None, None, [], []))])
  {
    var text := "AA>AA>AA<";
    assert |text| == 9;
    assert Vlq.CharsFrom(text, 0, 2, 0, 0, []) == [0, 0];
    assert Vlq.DecodeWindow(text, 0, 2) == [0, 0];
    assert Vlq.CharsFrom(text, 3, 5, 0, 0, []) == [0, 0];
    assert Vlq.DecodeWindow(text, 3, 5) == [0, 0];
    assert Vlq.CharsFrom(text, 6, 8, 0, 0, []) == [0, 0];
    assert Vlq.DecodeWindow(text, 6, 8) == [0, 0];
    var s1 := Scope(1, 0, 1, None, Position(0, 0), Position(0, 0), None, None, [], []);
    var s1n := s1.(nested := [2]);
    var s1c := s1n.(end := Some(Position(0, 0)), sectionEnd := Some(Position(0, 0)));
    var s2 := Scope(2, 0, 2, Some(1), Position(0, 0), Position(0, 0), None, None, [], []);
    var c0 := ScopeStart(0, 0);
    var c1 := ScopeCursor(0, 0, 0, 0, 1, None, Some(1));
    var c2 := ScopeCursor(0, 0, 0, 0, 2, Some(1), Some(2));
    var c3 := ScopeCursor(0, 0, 0, 0, 2, None, Some(1));
    assert Move(c0, [0, 0]) == c0 && Move(c1, [0, 0]) == c1 && Move(c2, [0, 0]) == c2;
    assert EnterArena(c0, [], 0, 0) == [None, Some(s1)];
    assert EnterCursor(c0, 0) == c1;
    assert s1.nested + [2] == [2];
    assert [None, Some(s1)][1 := Some(s1n)] == [None, Some(s1n)];
    assert AddNested([None, Some(s1)], 1, 2) == [None, Some(s1n)];
    assert EnterArena(c1, [None, Some(s1)], 0, 0) == [None, Some(s1n), Some(s2)];
    assert EnterCursor(c1, 0) == c2;
    var a2 := [None, Some(s1n), Some(s2)];
    assert Close(a2, 1, Position(0, 0), Position(0, 0)) == [None, Some(s1c), Some(s2)];
    assert ParentOf([None, Some(s1c), Some(s2)], 1) == None;
    assert ScopeScan(text, 9, 9, c3, [None, Some(s1c), Some(s2)], 0, 0) == Ok([None, Some(s1c), Some(s2)]);
    assert ScopeScan(text, 6, 6, c2, a2, 0, 0) == ScopeScan(text, 9, 9, c3, [None, Some(s1c), Some(s2)], 0, 0);
    assert ScopeScan(text, 3, 3, c1, [None, Some(s1)], 0, 0) == ScopeScan(text, 6, 6, c2, a2, 0, 0);
    assert ScopeScan(text, 0, 0, c0, [], 0, 0) == ScopeScan(text, 3, 3, c1, [None, Some(s1)], 0, 0);
  }

  /** Closing the outermost open scope has no parent to step to: "AA>AA<" fails. */
  lemma ExitOutermostExample()
    ensures ScanScopes("AA>AA<", [], 0, 0, 0, 0) == Err(ExitWithoutParent(5))
  {
    var text := "AA>AA<";
    assert |text| == 6;
    assert Vlq.CharsFrom(text, 0, 2, 0, 0, []) == [0, 0];
    assert Vlq.DecodeWindow(text, 0, 2) == [0, 0];
    assert Vlq.CharsFrom(text, 3, 5, 0, 0, []) == [0, 0];
    assert Vlq.DecodeWindow(text, 3, 5) == [0, 0];
    var s1 := Scope(1, 0, 1, None, Position(0, 0), Position(0, 0), None, None, [], []);
    var c0 := ScopeStart(0, 0);
    var c1 := ScopeCursor(0, 0, 0, 0, 1, None, Some(1));
    assert Move(c0, [0, 0]) == c0 && Move(c1, [0, 0]) == c1;
    assert EnterArena(c0, [], 0, 0) == [None, Some(s1)];
    assert EnterCursor(c0, 0) == c1;
    assert ScopeScan(text, 3, 3, c1, [None, Some(s1)], 0, 0) == Err(ExitWithoutParent(5));
    assert ScopeScan(text, 0, 0, c0, [], 0, 0) == ScopeScan(text, 3, 3, c1, [None, Some(s1)], 0, 0);
  }
}
