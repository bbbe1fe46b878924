/**
 * The scope and local queries of the decoder (src/lib/decoder.ts:1110-1329):
 * the scope lists, the narrowest scope around a generated position, the
 * candidate scopes and locals for a source position, and the local lookups
 * by name.
 */
module ScopeQueries {
  import opened Wrappers
  import opened Records
  import opened DecoderTables
  import opened MappingQueries
  import opened SectionDecode
  import opened SourceMapJson

  // ---------------------------------------------------------------------------
  // Scope lists

  /** `filter(scope => !!scope.parent)`: the holes are skipped, and so are scopes without a parent. */
  function WithParent(a: seq<Option<Scope>>): (r: seq<Option<Scope>>)
    ensures |r| <= |a|
    ensures forall k :: 0 <= k < |r| ==> r[k].Some? && r[k].value.parent.Some? && r[k] in a
    ensures forall j :: 0 <= j < |a| && a[j].Some? && a[j].value.parent.Some? ==> a[j] in r
  {
    if a == [] then []
    else
      var rest := WithParent(a[1..]);
      assert forall j :: 1 <= j < |a| ==> a[j] == a[1..][j - 1];
      if a[0].Some? && a[0].value.parent.Some? then [a[0]] + rest else rest
  }

  /** `getScopes(topMost)`: despite its name, `topMost` keeps the scopes that HAVE a parent. */
  function Scopes(t: Tables, topMost: bool): seq<Option<Scope>> {
    if topMost then WithParent(t.scopes) else t.scopes
  }

  /** `getScopesInSection(sectionIndex, topMost)`. */
  function ScopesOfSection(t: Tables, i: int, topMost: bool): seq<Option<Scope>> {
    if topMost then WithParent(ScopesInSection(t, i)) else ScopesInSection(t, i)
  }

  /** The outermost scopes are exactly the ones `topMost` leaves out. */
  lemma TopMostDropsOutermost(t: Tables, s: Scope)
    ensures Some(s) in Scopes(t, true) ==> s.parent.Some? && Some(s) in t.scopes
    ensures Some(s) in t.scopes && s.parent.Some? ==> Some(s) in Scopes(t, true)
  {
    if Some(s) in t.scopes {
      var j :| 0 <= j < |t.scopes| && t.scopes[j] == Some(s);
      assert t.scopes[j] in WithParent(t.scopes) <== s.parent.Some?;
    }
  }

  // ---------------------------------------------------------------------------
  // The narrowest scope around a position

  /**
   * Whether a scope from `start` to `end` is kept for position `p`: it does
   * not start after `p` and does not end before it.  An open scope (`end`
   * undefined) compares equal to everything, so it is kept from its start on.
   */
  predicate Covers(start: Position, end: Option<Position>, p: Position) {
    !(ComparePositions(Some(start), Some(p)) > 0) && !(ComparePositions(end, Some(p)) < 0)
  }

  /** The replacement check: no scope yet, or the new one starts later, or it ends later. */
  predicate Replaces(best: Option<Scope>, s: Scope) {
    best.None? || ComparePositions(Some(best.value.start), Some(s.start)) < 0 || ComparePositions(best.value.end, s.end) < 0
  }

  /** Whether scope `s` is kept; with `inSection` the section positions are compared. */
  predicate Kept(s: Scope, p: Position, inSection: bool) {
    if inSection then Covers(s.sectionStart, s.sectionEnd, p) else Covers(s.start, s.end, p)
  }

  /**
   * The scan of the first `n` scopes in the narrowest-scope loop; reading a
   * field of a hole throws.
   */
  function NarrowestIn(scopes: seq<Option<Scope>>, p: Position, inSection: bool, n: nat): Result<Option<Scope>, Fault>
    requires n <= |scopes|
  {
    if n == 0 then Ok(None)
    else match NarrowestIn(scopes, p, inSection, n - 1)
      case Err(e) => Err(e)
      case Ok(best) =>
        match scopes[n - 1]
        case None => Err(HoleInScopes(n - 1))
        case Some(s) => if Kept(s, p, inSection) && Replaces(best, s) then Ok(Some(s)) else Ok(best)
  }

  /** `getNarrowestScopeAtGeneratedLocation`. */
  function Narrowest(t: Tables, p: Position): Result<Option<Scope>, Fault> {
    NarrowestIn(t.scopes, p, false, |t.scopes|)
  }

  /**
   * `getNarrowestScopeAtGeneratedLocationInSection`: containment by section
   * positions, the replacement check still by absolute ones.
   */
  function NarrowestInSection(t: Tables, i: int, p: Position): Result<Option<Scope>, Fault> {
    var scopes := ScopesInSection(t, i);
    NarrowestIn(scopes, p, true, |scopes|)
  }

  /** The scan fails exactly when it meets a hole. */
  lemma {:induction false} NarrowestFailsAtHole(scopes: seq<Option<Scope>>, p: Position, inSection: bool, n: nat)
    requires n <= |scopes|
    ensures NarrowestIn(scopes, p, inSection, n).Err? <==> exists k :: 0 <= k < n && scopes[k].None?
  {
    if n > 0 {
      NarrowestFailsAtHole(scopes, p, inSection, n - 1);
    }
  }

  /** A scope found is one of the scopes scanned, and it is kept for the position. */
  lemma {:induction false} NarrowestIsKept(scopes: seq<Option<Scope>>, p: Position, inSection: bool, n: nat)
    requires n <= |scopes|
    requires NarrowestIn(scopes, p, inSection, n).Ok? && NarrowestIn(scopes, p, inSection, n).value.Some?
    ensures var s := NarrowestIn(scopes, p, inSection, n).value.value;
            Kept(s, p, inSection) && exists k :: 0 <= k < n && scopes[k] == Some(s)
  {
    var r := NarrowestIn(scopes, p, inSection, n);
    var prev := NarrowestIn(scopes, p, inSection, n - 1);
    if prev.Ok? && prev.value.Some? && r.value == prev.value {
      NarrowestIsKept(scopes, p, inSection, n - 1);
    }
  }

  /** Nothing is found exactly when there are no holes and no scope is kept. */
  lemma {:induction false} NarrowestNone(scopes: seq<Option<Scope>>, p: Position, inSection: bool, n: nat)
    requires n <= |scopes|
    ensures NarrowestIn(scopes, p, inSection, n) == Ok(None) <==>
            forall k :: 0 <= k < n ==> scopes[k].Some? && !Kept(scopes[k].value, p, inSection)
  {
    if n > 0 {
      NarrowestNone(scopes, p, inSection, n - 1);
      NarrowestFailsAtHole(scopes, p, inSection, n - 1);
    }
  }

  /**
   * Two nested scopes, A over lines 1-10 and B over lines 3-5 inside it: at
   * line 4 the scan settles on B.
   */
  lemma NestedExample()
    ensures var a := Scope(1, 0, 1, None, Position(1, 0), Position(1, 0), Some(Position(10, 0)), Some(Position(10, 0)), [2], []);
            var b := Scope(2, 0, 2, Some(1), Position(3, 0), Position(3, 0), Some(Position(5, 0)), Some(Position(5, 0)), [], []);
            NarrowestIn([Some(a), Some(b)], Position(4, 0), false, 2) == Ok(Some(b))
  {
    var a := Scope(1, 0, 1, None, Position(1, 0), Position(1, 0), Some(Position(10, 0)), Some(Position(10, 0)), [2], []);
    var b := Scope(2, 0, 2, Some(1), Position(3, 0), Position(3, 0), Some(Position(5, 0)), Some(Position(5, 0)), [], []);
    assert NarrowestIn([Some(a), Some(b)], Position(4, 0), false, 1) == Ok(Some(a));
  }

  /**
   * The same two scopes in the other order: B first, then A, which ends
   * later and so replaces it; the result depends on the order.
   */
  lemma LaterWiderScopeWinsExample()
    ensures var a := Scope(1, 0, 1, None, Position(1, 0), Position(1, 0), Some(Position(10, 0)), Some(Position(10, 0)), [], []);
            var b := Scope(2, 0, 2, None, Position(3, 0), Position(3, 0), Some(Position(5, 0)), Some(Position(5, 0)), [], []);
            NarrowestIn([Some(b), Some(a)], Position(4, 0), false, 2) == Ok(Some(a))
  {
    var a := Scope(1, 0, 1, None, Position(1, 0), Position(1, 0), Some(Position(10, 0)), Some(Position(10, 0)), [], []);
    var b := Scope(2, 0, 2, None, Position(3, 0), Position(3, 0), Some(Position(5, 0)), Some(Position(5, 0)), [], []);
    assert NarrowestIn([Some(b), Some(a)], Position(4, 0), false, 1) == Ok(Some(b));
  }

  /**
   * On decoded tables the whole-map scan never finds a scope: it either
   * finds the arena empty or throws at the hole at index 0.
   */
  lemma NarrowestAfterDecode(host: Host, doc: Document, p: Position)
    requires DecodeDocument(host, doc).Ok?
    ensures var r := Narrowest(DecodeDocument(host, doc).value, p);
            r.Err? || r == Ok(None)
  {
    var t := DecodeDocument(host, doc).value;
    DecodedScopes(host, doc);
    NarrowestFailsAtHole(t.scopes, p, false, |t.scopes|);
    if |t.scopes| > 0 {
      assert t.scopes[0].None?;
    }
  }

  // ---------------------------------------------------------------------------
  // Candidate scopes for a source position

  /** The scope indices already collected. */
  function ScopeIndices(acc: seq<Scope>): set<nat> {
    set k | 0 <= k < |acc| :: acc[k].scopeIndex
  }

  /**
   * The `forEach` of `getCandidateNarrowestScopesAtSourceLocation` over the
   * mappings `ms`: each one's narrowest scope, first occurrence of each scope
   * index only; a mapping without a scope throws on `scope.scopeIndex`.
   */
  function CandidateScopes(t: Tables, ms: seq<Mapping>): Result<seq<Scope>, Fault> {
    if ms == [] then Ok([])
    else match CandidateScopes(t, ms[..|ms| - 1])
      case Err(e) => Err(e)
      case Ok(acc) =>
        var m := ms[|ms| - 1];
        match Narrowest(t, Position(m.generatedLine, m.generatedColumn))
        case Err(e) => Err(e)
        case Ok(None) => Err(NoScope)
        case Ok(Some(s)) => if s.scopeIndex in ScopeIndices(acc) then Ok(acc) else Ok(acc + [s])
  }

  /** `getCandidateNarrowestScopesAtSourceLocation`. */
  function CandidateNarrowestScopes(t: Tables, sourceIndex: int, line: int, column: int): Result<seq<Scope>, Fault> {
    CandidateScopes(t, CandidatesAtSourceLocation(t, sourceIndex, line, column))
  }

  /**
   * `getCandidateNarrowestScopesAtSourceLocationInSection`: the source index
   * is the section's base plus the SECTION index; `sectionSourceIndex` is
   * not used.
   */
  function CandidateNarrowestScopesInSection(t: Tables, i: int, k: int, line: int, column: int): Result<seq<Scope>, Fault> {
    match At(t.sourceOffsets, i)
    case None => Ok([])
    case Some(base) => CandidateNarrowestScopes(t, base + i, line, column)
  }

  /** The collected scopes have distinct indices, and each is the narrowest scope of one of the mappings. */
  lemma {:induction false} CandidateScopesDistinct(t: Tables, ms: seq<Mapping>)
    requires CandidateScopes(t, ms).Ok?
    ensures var r := CandidateScopes(t, ms).value;
            && (forall j, k :: 0 <= j < k < |r| ==> r[j].scopeIndex != r[k].scopeIndex)
            && (forall k :: 0 <= k < |r| ==> exists m :: m in ms && Narrowest(t, Position(m.generatedLine, m.generatedColumn)) == Ok(Some(r[k])))
    decreases |ms|
  {
    if ms != [] {
      var init := ms[..|ms| - 1];
      CandidateScopesDistinct(t, init);
      var acc := CandidateScopes(t, init).value;
      var m := ms[|ms| - 1];
      var r := CandidateScopes(t, ms).value;
      forall k | 0 <= k < |r|
        ensures exists m' :: m' in ms && Narrowest(t, Position(m'.generatedLine, m'.generatedColumn)) == Ok(Some(r[k]))
      {
        if k < |acc| {
          var m' :| m' in init && Narrowest(t, Position(m'.generatedLine, m'.generatedColumn)) == Ok(Some(acc[k]));
          assert m' in ms;
        } else {
          assert m in ms;
        }
      }
    }
  }

  /** The scan fails as soon as any mapping has no narrowest scope. */
  lemma {:induction false} CandidateScopesNeedEveryScope(t: Tables, ms: seq<Mapping>)
    requires CandidateScopes(t, ms).Ok?
    ensures forall k :: 0 <= k < |ms| ==>
              Narrowest(t, Position(ms[k].generatedLine, ms[k].generatedColumn)).Ok? &&
              Narrowest(t, Position(ms[k].generatedLine, ms[k].generatedColumn)).value.Some?
    decreases |ms|
  {
    if ms != [] {
      var init := ms[..|ms| - 1];
      CandidateScopesNeedEveryScope(t, init);
      forall k | 0 <= k < |ms|
        ensures Narrowest(t, Position(ms[k].generatedLine, ms[k].generatedColumn)).Ok? &&
                Narrowest(t, Position(ms[k].generatedLine, ms[k].generatedColumn)).value.Some?
      {
        if k < |init| { assert ms[k] == init[k]; }
      }
    }
  }

  /** On decoded tables the candidate scopes are found only when there are no candidate mappings. */
  lemma CandidateScopesAfterDecode(host: Host, doc: Document, sourceIndex: int, line: int, column: int)
    requires DecodeDocument(host, doc).Ok?
    ensures var t := DecodeDocument(host, doc).value;
            CandidateNarrowestScopes(t, sourceIndex, line, column).Ok? <==> CandidatesAtSourceLocation(t, sourceIndex, line, column) == []
  {
    var t := DecodeDocument(host, doc).value;
    var ms := CandidatesAtSourceLocation(t, sourceIndex, line, column);
    if CandidateScopes(t, ms).Ok? && ms != [] {
      CandidateScopesNeedEveryScope(t, ms);
      NarrowestAfterDecode(host, doc, Position(ms[0].generatedLine, ms[0].generatedColumn));
    }
  }

  /** The in-section variant ignores the section source index it is given. */
  lemma CandidateScopesInSectionIgnoresSource(t: Tables, i: int, k1: int, k2: int, line: int, column: int)
    ensures CandidateNarrowestScopesInSection(t, i, k1, line, column) == CandidateNarrowestScopesInSection(t, i, k2, line, column)
  {
  }

  // ---------------------------------------------------------------------------
  // Locals

  /** Which name of a local a lookup compares. */
  datatype NameKind = GeneratedName | SourceName

  /**
   * The first local of a scope with the given name: by generated name (a
   * local without one throws on `.text`) or by source name (one without is
   * skipped).
   */
  function FindLocal(locals: seq<Local>, kind: NameKind, name: string): (r: Result<Option<Local>, Fault>)
    ensures r.Ok? && r.value.Some? ==> r.value.value in locals
    ensures r.Ok? && r.value.Some? && kind == GeneratedName ==>
              r.value.value.generatedName.Some? && r.value.value.generatedName.value.text == name
    ensures r.Ok? && r.value.Some? && kind == SourceName ==>
              r.value.value.sourceName.Some? && r.value.value.sourceName.value.text == name
    ensures kind == SourceName ==> r.Ok?
    ensures r == Ok(None) && kind == GeneratedName ==>
              forall k :: 0 <= k < |locals| ==> locals[k].generatedName.Some? && locals[k].generatedName.value.text != name
    ensures r == Ok(None) && kind == SourceName ==>
              forall k :: 0 <= k < |locals| ==> locals[k].sourceName.None? || locals[k].sourceName.value.text != name
    ensures locals == [] ==> r == Ok(None)
  {
    if locals == [] then Ok(None)
    else
      var l := locals[0];
      assert forall k :: 1 <= k < |locals| ==> locals[k] == locals[1..][k - 1];
      match kind
      case GeneratedName =>
        if l.generatedName.None? then Err(NoGeneratedName)
        else if l.generatedName.value.text == name then Ok(Some(l))
        else FindLocal(locals[1..], kind, name)
      case SourceName =>
        if l.sourceName.Some? && l.sourceName.value.text == name then Ok(Some(l))
        else FindLocal(locals[1..], kind, name)
  }

  /** `getLocalAtGeneratedLocationFor{Generated,Source}Name`: `undefined` when no scope is found. */
  function LocalAt(t: Tables, p: Position, kind: NameKind, name: string): Result<Option<Local>, Fault> {
    match Narrowest(t, p)
    case Err(e) => Err(e)
    case Ok(None) => Ok(None)
    case Ok(Some(s)) => FindLocal(s.locals, kind, name)
  }

  /** `getLocalAtGeneratedLocationInSectionFor{Generated,Source}Name`. */
  function LocalAtInSection(t: Tables, i: int, p: Position, kind: NameKind, name: string): Result<Option<Local>, Fault> {
    match NarrowestInSection(t, i, p)
    case Err(e) => Err(e)
    case Ok(None) => Ok(None)
    case Ok(Some(s)) => FindLocal(s.locals, kind, name)
  }

  function LocalIndices(acc: seq<Local>): set<nat> {
    set k | 0 <= k < |acc| :: acc[k].localIndex
  }

  /**
   * The `forEach` of the candidate-locals queries: each mapping's local by
   * the whole-map lookup, first occurrence of each local index only; a
   * mapping without a local throws on `local.localIndex`.
   */
  function CandidateLocals(t: Tables, ms: seq<Mapping>, kind: NameKind, name: string): Result<seq<Local>, Fault> {
    if ms == [] then Ok([])
    else match CandidateLocals(t, ms[..|ms| - 1], kind, name)
      case Err(e) => Err(e)
      case Ok(acc) =>
        var m := ms[|ms| - 1];
        match LocalAt(t, Position(m.generatedLine, m.generatedColumn), kind, name)
        case Err(e) => Err(e)
        case Ok(None) => Err(NoLocal)
        case Ok(Some(l)) => if l.localIndex in LocalIndices(acc) then Ok(acc) else Ok(acc + [l])
  }

  /** `getCandidateLocalsAtSourceLocationFor{Generated,Source}Name`. */
  function CandidateLocalsAtSource(t: Tables, sourceIndex: int, line: int, column: int, kind: NameKind, name: string): Result<seq<Local>, Fault> {
    CandidateLocals(t, CandidatesAtSourceLocation(t, sourceIndex, line, column), kind, name)
  }

  /**
   * `getCandidateLocalsAtSourceLocationInSectionFor{Generated,Source}Name`:
   * the candidates come from the section, the locals from the whole-map lookup.
   */
  function CandidateLocalsAtSourceInSection(t: Tables, i: int, k: int, line: int, column: int, kind: NameKind, name: string): Result<seq<Local>, Fault> {
    CandidateLocals(t, CandidatesAtSourceLocationInSection(t, i, k, line, column), kind, name)
  }

  /** The collected locals have distinct indices, and each is the local found for one of the mappings. */
  lemma {:induction false} CandidateLocalsDistinct(t: Tables, ms: seq<Mapping>, kind: NameKind, name: string)
    requires CandidateLocals(t, ms, kind, name).Ok?
    ensures var r := CandidateLocals(t, ms, kind, name).value;
            && (forall j, k :: 0 <= j < k < |r| ==> r[j].localIndex != r[k].localIndex)
            && (forall k :: 0 <= k < |r| ==> exists m :: m in ms && LocalAt(t, Position(m.generatedLine, m.generatedColumn), kind, name) == Ok(Some(r[k])))
    decreases |ms|
  {
    if ms != [] {
      var init := ms[..|ms| - 1];
      CandidateLocalsDistinct(t, init, kind, name);
      var acc := CandidateLocals(t, init, kind, name).value;
      var m := ms[|ms| - 1];
      var r := CandidateLocals(t, ms, kind, name).value;
      forall k | 0 <= k < |r|
        ensures exists m' :: m' in ms && LocalAt(t, Position(m'.generatedLine, m'.generatedColumn), kind, name) == Ok(Some(r[k]))
      {
        if k < |acc| {
          var m' :| m' in init && LocalAt(t, Position(m'.generatedLine, m'.generatedColumn), kind, name) == Ok(Some(acc[k]));
          assert m' in ms;
        } else {
          assert m in ms;
        }
      }
    }
  }

  /** On decoded tables no local is ever found: scopes hold no locals, and the scan finds no scope anyway. */
  lemma LocalAtAfterDecode(host: Host, doc: Document, p: Position, kind: NameKind, name: string)
    requires DecodeDocument(host, doc).Ok?
    ensures var r := LocalAt(DecodeDocument(host, doc).value, p, kind, name);
            r.Err? || r == Ok(None)
  {
    NarrowestAfterDecode(host, doc, p);
  }

  /** So on decoded tables the candidate locals are found only when there are no candidate mappings. */
  lemma CandidateLocalsAfterDecode(host: Host, doc: Document, ms: seq<Mapping>, kind: NameKind, name: string)
    requires DecodeDocument(host, doc).Ok?
    ensures CandidateLocals(DecodeDocument(host, doc).value, ms, kind, name).Ok? <==> ms == []
  {
    var t := DecodeDocument(host, doc).value;
    if ms != [] {
      var init := ms[..|ms| - 1];
      var m := ms[|ms| - 1];
      LocalAtAfterDecode(host, doc, Position(m.generatedLine, m.generatedColumn), kind, name);
    }
  }
}
