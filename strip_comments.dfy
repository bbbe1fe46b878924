/**
 * `stripComments`: the scanner that removes `#`, `//` and `/* */` comments
 * from a source map's text before it is parsed as JSON.  A comment inside a
 * string literal is kept.
 *
 * The scanner copies text in pieces.  `startPos` marks where the next piece
 * starts (the resume point).  When a comment opens, the piece up to it is
 * copied.  When a line comment ends, the resume point moves to the line
 * break, so the line break is kept.  When a block comment ends, it moves past
 * the closing delimiter.  The rest of the text from the resume point is
 * copied only if the scan ends outside any comment or string.
 */
module StripComments {

  /** The four scanner states. */
  datatype Context = Document | StringLiteral | SingleLineComment | MultiLineComment

  /** The scanner's position, its resume point and its state. */
  datatype Cursor = Cursor(pos: nat, startPos: nat, context: Context)

  /** The resume point is never past the position, which is never past the end. */
  predicate ValidCursor(text: string, c: Cursor) {
    c.startPos <= c.pos <= |text|
  }

  /** `text.charAt(i) === ch`; `charAt` past the end gives "", equal to no character. */
  predicate At(text: string, i: nat, ch: char) {
    i < |text| && text[i] == ch
  }

  /** The state and position after one turn of the loop, including the final `pos++`. */
  function Next(text: string, c: Cursor): (d: Cursor)
    requires ValidCursor(text, c) && c.pos < |text|
    ensures ValidCursor(text, d)
    ensures c.pos < d.pos
  {
    var pos, ch := c.pos, text[c.pos];
    match c.context
    case Document =>
      if ch == '"' then Cursor(pos + 1, c.startPos, StringLiteral)
      else if ch == '#' then Cursor(pos + 1, c.startPos, SingleLineComment)
      else if ch == '/' && At(text, pos + 1, '/') then Cursor(pos + 2, c.startPos, SingleLineComment)
      else if ch == '/' && At(text, pos + 1, '*') then Cursor(pos + 2, c.startPos, MultiLineComment)
      else Cursor(pos + 1, c.startPos, Document)
    case StringLiteral =>
      if ch == '"' then Cursor(pos + 1, c.startPos, Document)
      else if ch == '\\' && At(text, pos + 1, '\\') then Cursor(pos + 2, c.startPos, StringLiteral)
      else if ch == '\\' && At(text, pos + 1, '"') then Cursor(pos + 2, c.startPos, StringLiteral)
      else Cursor(pos + 1, c.startPos, StringLiteral)
    case SingleLineComment =>
      if ch == '\r' || ch == '\n' then Cursor(pos + 1, pos, Document)
      else Cursor(pos + 1, c.startPos, SingleLineComment)
    case MultiLineComment =>
      if ch == '*' && At(text, pos + 1, '/') then Cursor(pos + 2, pos + 2, Document)
      else Cursor(pos + 1, c.startPos, MultiLineComment)
  }

  /** Does this turn of the loop open a comment in the document? */
  predicate OpensComment(text: string, c: Cursor)
    requires c.pos < |text|
  {
    c.context == Document &&
    (text[c.pos] == '#' || (text[c.pos] == '/' && (At(text, c.pos + 1, '/') || At(text, c.pos + 1, '*'))))
  }

  /** What one turn of the loop appends to the output: the piece before an opening comment. */
  function Emit(text: string, c: Cursor): string
    requires ValidCursor(text, c) && c.pos < |text|
  {
    if OpensComment(text, c) then text[c.startPos..c.pos] else []
  }

  /** What the end of the scan appends: the rest from the resume point, in the document only. */
  function Tail(text: string, c: Cursor): string
    requires ValidCursor(text, c)
  {
    if c.context == Document then text[c.startPos..] else []
  }

  /** The output of the scan from cursor `c`, given the output `out` so far. */
  function Run(text: string, c: Cursor, out: string): string
    requires ValidCursor(text, c)
    decreases |text| - c.pos
  {
    if c.pos >= |text| then out + Tail(text, c)
    else Run(text, Next(text, c), out + Emit(text, c))
  }

  /** The output of `stripComments(text)`. */
  function Strip(text: string): string {
    Run(text, Cursor(0, 0, Document), [])
  }

  /** A turn of the loop that opens a comment appends the piece before it. */
  lemma RunOpen(text: string, c: Cursor)
    requires ValidCursor(text, c) && c.pos < |text| && OpensComment(text, c)
    ensures Run(text, c, []) == Run(text, Next(text, c), text[c.startPos..c.pos])
  {
    assert [] + Emit(text, c) == text[c.startPos..c.pos];
  }

  /** A turn of the loop that appends nothing. */
  lemma RunStep(text: string, c: Cursor, out: string)
    requires ValidCursor(text, c) && c.pos < |text| && Emit(text, c) == []
    ensures Run(text, c, out) == Run(text, Next(text, c), out)
  {
    assert out + Emit(text, c) == out;
  }

  /** One turn of the loop, then the rest of the scan. */
  lemma RunUnfold(text: string, c: Cursor, out: string)
    requires ValidCursor(text, c) && c.pos < |text|
    ensures Run(text, c, out) == Run(text, Next(text, c), out + Emit(text, c))
  {
  }

  /** `stripComments`: the scanner loop itself. */
  method StripCommentsOf(text: string) returns (output: string)
    ensures output == Strip(text)
  {
    var startPos: nat := 0;
    var pos: nat := 0;
    var context := Document;
    output := [];
    while pos < |text|
      invariant startPos <= pos <= |text|
      invariant Run(text, Cursor(pos, startPos, context), output) == Strip(text)
      decreases |text| - pos
    {
      ghost var c := Cursor(pos, startPos, context);
      ghost var before := output;
      var ch := text[pos];
      if context == Document {
        if ch == '"' {
          context := StringLiteral;
        } else if ch == '#' {
          output := output + text[startPos..pos];
          context := SingleLineComment;
        } else if ch == '/' && pos + 1 < |text| && text[pos + 1] == '/' {
          output := output + text[startPos..pos];
          context := SingleLineComment;
          pos := pos + 1;
        } else if ch == '/' && pos + 1 < |text| && text[pos + 1] == '*' {
          output := output + text[startPos..pos];
          context := MultiLineComment;
          pos := pos + 1;
        }
      } else if context == StringLiteral {
        if ch == '"' {
          context := Document;
        } else if ch == '\\' && pos + 1 < |text| && text[pos + 1] == '\\' {
          pos := pos + 1;
        } else if ch == '\\' && pos + 1 < |text| && text[pos + 1] == '"' {
          pos := pos + 1;
        }
      } else if context == SingleLineComment {
        if ch == '\r' || ch == '\n' {
          startPos := pos;
          context := Document;
        }
      } else {
        if ch == '*' && pos + 1 < |text| && text[pos + 1] == '/' {
          startPos := pos + 2;
          pos := pos + 1;
          context := Document;
        }
      }
      pos := pos + 1;
      assert Cursor(pos, startPos, context) == Next(text, c);
      assert output == before + Emit(text, c);
      RunUnfold(text, c, before);
    }
    if context == Document {
      output := output + text[startPos..];
    }
  }

  // ---------------------------------------------------------------------------
  // Resuming and shifting

  /** A prefix of the output so far stays in front of everything the scan appends. */
  lemma {:induction false} RunPrefix(text: string, c: Cursor, a: string, b: string)
    requires ValidCursor(text, c)
    ensures Run(text, c, a + b) == a + Run(text, c, b)
    decreases |text| - c.pos
  {
    if c.pos < |text| {
      var d, e := Next(text, c), Emit(text, c);
      assert (a + b) + e == a + (b + e);
      RunPrefix(text, d, a, b + e);
    } else {
      assert (a + b) + Tail(text, c) == a + (b + Tail(text, c));
    }
  }

  /** The output so far is only ever extended. */
  lemma RunOutput(text: string, c: Cursor, out: string)
    requires ValidCursor(text, c)
    ensures Run(text, c, out) == out + Run(text, c, [])
  {
    assert out + [] == out;
    RunPrefix(text, c, out, []);
  }

  /** The cursor as seen on `text[k..]`. */
  function Shift(c: Cursor, k: nat): Cursor
    requires k <= c.startPos <= c.pos
  {
    Cursor(c.pos - k, c.startPos - k, c.context)
  }

  /** One turn of the loop is the same on a suffix that starts before the resume point. */
  lemma NextShift(text: string, c: Cursor, k: nat)
    requires ValidCursor(text, c) && c.pos < |text| && k <= c.startPos
    ensures ValidCursor(text[k..], Shift(c, k)) && Shift(c, k).pos < |text[k..]|
    ensures k <= Next(text, c).startPos
    ensures Next(text[k..], Shift(c, k)) == Shift(Next(text, c), k)
    ensures Emit(text[k..], Shift(c, k)) == Emit(text, c)
  {
    var t := text[k..];
    assert t[c.pos - k] == text[c.pos];
    assert |t| == |text| - k;
    assert c.pos + 1 < |text| ==> t[c.pos - k + 1] == text[c.pos + 1];
    assert t[c.startPos - k..c.pos - k] == text[c.startPos..c.pos];
  }

  /** The scan from a cursor is the scan of the suffix that starts at or before its resume point. */
  lemma {:induction false} RunShift(text: string, c: Cursor, k: nat, out: string)
    requires ValidCursor(text, c) && k <= c.startPos
    ensures ValidCursor(text[k..], Shift(c, k))
    ensures Run(text, c, out) == Run(text[k..], Shift(c, k), out)
    decreases |text| - c.pos
  {
    if c.pos < |text| {
      NextShift(text, c, k);
      RunShift(text, Next(text, c), k, out + Emit(text, c));
    } else {
      assert text[k..][c.startPos - k..] == text[c.startPos..];
    }
  }

  /** A scan that resumes in the document at position k goes on as `stripComments` of the rest. */
  lemma Resume(text: string, k: nat, out: string)
    requires k <= |text|
    ensures Run(text, Cursor(k, k, Document), out) == out + Strip(text[k..])
  {
    RunShift(text, Cursor(k, k, Document), k, []);
    RunOutput(text, Cursor(k, k, Document), out);
  }

  // ---------------------------------------------------------------------------
  // The output is a subsequence of the input

  /** `a` is obtained from `b` by deleting characters. */
  predicate IsSubsequence(a: string, b: string)
    decreases |b|
  {
    if a == [] then true
    else if b == [] then false
    else
      (a[|a| - 1] == b[|b| - 1] && IsSubsequence(a[..|a| - 1], b[..|b| - 1]))
      || IsSubsequence(a, b[..|b| - 1])
  }

  lemma {:induction false} SubsequenceExtend(a: string, b: string, c: string)
    requires IsSubsequence(a, b)
    ensures IsSubsequence(a, b + c)
    decreases |c|
  {
    if c != [] {
      var c0 := c[..|c| - 1];
      SubsequenceExtend(a, b, c0);
      assert (b + c)[..|b + c| - 1] == b + c0;
    } else {
      assert b + c == b;
    }
  }

  lemma {:induction false} SubsequenceAppend(a: string, b: string, c: string)
    requires IsSubsequence(a, b)
    ensures IsSubsequence(a + c, b + c)
    decreases |c|
  {
    if c != [] {
      var c0 := c[..|c| - 1];
      SubsequenceAppend(a, b, c0);
      assert (a + c)[..|a + c| - 1] == a + c0;
      assert (b + c)[..|b + c| - 1] == b + c0;
    } else {
      assert a + c == a && b + c == b;
    }
  }

  lemma {:induction false} SubsequenceLength(a: string, b: string)
    requires IsSubsequence(a, b)
    ensures |a| <= |b|
    decreases |b|
  {
    if a != [] {
      if a[|a| - 1] == b[|b| - 1] && IsSubsequence(a[..|a| - 1], b[..|b| - 1]) {
        SubsequenceLength(a[..|a| - 1], b[..|b| - 1]);
      } else {
        SubsequenceLength(a, b[..|b| - 1]);
      }
    }
  }

  /** How much of the input the output so far was taken from. */
  function Cut(c: Cursor): nat {
    if c.context == Document || c.context == StringLiteral then c.startPos else c.pos
  }

  lemma SubsequenceGrow(out: string, text: string, i: nat, j: nat)
    requires i <= j <= |text| && IsSubsequence(out, text[..i])
    ensures IsSubsequence(out, text[..j])
  {
    SubsequenceExtend(out, text[..i], text[i..j]);
    assert text[..i] + text[i..j] == text[..j];
  }

  /** One turn of the loop keeps the output a subsequence of the input read so far. */
  lemma NextSubsequence(text: string, c: Cursor, out: string)
    requires ValidCursor(text, c) && c.pos < |text| && Cut(c) <= c.pos
    requires IsSubsequence(out, text[..Cut(c)])
    ensures Cut(Next(text, c)) <= Next(text, c).pos
    ensures IsSubsequence(out + Emit(text, c), text[..Cut(Next(text, c))])
  {
    var d := Next(text, c);
    if OpensComment(text, c) {
      SubsequenceAppend(out, text[..c.startPos], text[c.startPos..c.pos]);
      assert text[..c.startPos] + text[c.startPos..c.pos] == text[..c.pos];
      SubsequenceGrow(out + Emit(text, c), text, c.pos, d.pos);
    } else {
      assert out + Emit(text, c) == out;
      SubsequenceGrow(out, text, Cut(c), Cut(d));
    }
  }

  lemma {:induction false} RunSubsequence(text: string, c: Cursor, out: string)
    requires ValidCursor(text, c) && Cut(c) <= c.pos
    requires IsSubsequence(out, text[..Cut(c)])
    ensures IsSubsequence(Run(text, c, out), text)
    decreases |text| - c.pos
  {
    if c.pos < |text| {
      NextSubsequence(text, c, out);
      RunSubsequence(text, Next(text, c), out + Emit(text, c));
    } else if c.context == Document {
      SubsequenceAppend(out, text[..c.startPos], text[c.startPos..]);
      assert text[..c.startPos] + text[c.startPos..] == text;
    } else {
      SubsequenceGrow(out, text, Cut(c), |text|);
      assert text[..|text|] == text;
      assert out + [] == out;
    }
  }

  /** The output is the input with some characters deleted, so it is never longer. */
  lemma StripIsSubsequence(text: string)
    ensures IsSubsequence(Strip(text), text)
    ensures |Strip(text)| <= |text|
  {
    assert text[..0] == [];
    RunSubsequence(text, Cursor(0, 0, Document), []);
    SubsequenceLength(Strip(text), text);
  }

  // ---------------------------------------------------------------------------
  // Text without comments

  /**
   * A character that the document state passes over as a token of its own: a
   * `/` is one too, as long as the next character is not another `/` or a `*`.
   */
  predicate PlainChar(ch: char) {
    ch != '"' && ch != '#'
  }

  /** A token that would turn a `/` just before it into a comment opener. */
  predicate ContinuesSlash(t: Token) {
    t == Plain('/') || t == Plain('*')
  }

  /** The text ends with a lone `/`. */
  predicate EndsInSlash(ts: seq<Token>) {
    |ts| > 0 && ts[|ts| - 1] == Plain('/')
  }

  /** What follows the rendered tokens at `end` does not complete a trailing `/` into a comment opener. */
  predicate ClearAfter(text: string, end: nat, ts: seq<Token>) {
    EndsInSlash(ts) ==> !(At(text, end, '/') || At(text, end, '*'))
  }

  /** One unit of a string literal's body. */
  datatype StringUnit =
    | Char(ch: char)      // any character but a quote or a backslash
    | Escape(ch: char)    // a backslash followed by any character

  /** One token of comment-free text: a plain character or a complete string literal. */
  datatype Token = Plain(ch: char) | Literal(body: seq<StringUnit>)

  predicate WellFormedUnit(u: StringUnit) {
    u.Escape? || (u.ch != '"' && u.ch != '\\')
  }

  predicate WellFormedUnits(us: seq<StringUnit>) {
    |us| == 0 || (WellFormedUnit(us[0]) && WellFormedUnits(us[1..]))
  }

  predicate WellFormedToken(t: Token) {
    match t
    case Plain(ch) => PlainChar(ch)
    case Literal(body) => WellFormedUnits(body)
  }

  /** Comment-free text: plain characters and complete string literals, no `/` followed by `/` or `*`. */
  predicate WellFormed(ts: seq<Token>) {
    |ts| == 0 ||
    (WellFormedToken(ts[0]) && (ts[0] == Plain('/') && |ts| > 1 ==> !ContinuesSlash(ts[1])) && WellFormed(ts[1..]))
  }

  function RenderUnits(us: seq<StringUnit>): string {
    if |us| == 0 then []
    else (match us[0] case Char(ch) => [ch] case Escape(ch) => ['\\', ch]) + RenderUnits(us[1..])
  }

  function RenderToken(t: Token): string {
    match t
    case Plain(ch) => [ch]
    case Literal(body) => ['"'] + RenderUnits(body) + ['"']
  }

  /** The text of a token sequence. */
  function Render(ts: seq<Token>): string {
    if |ts| == 0 then [] else RenderToken(ts[0]) + Render(ts[1..])
  }

  /** The characters of `text` from `pos` on begin with `r`. */
  predicate StartsWith(text: string, pos: nat, r: string) {
    pos + |r| <= |text| && forall i :: 0 <= i < |r| ==> text[pos + i] == r[i]
  }

  lemma StartsWithSplit(text: string, pos: nat, a: string, b: string)
    requires StartsWith(text, pos, a + b)
    ensures StartsWith(text, pos, a) && StartsWith(text, pos + |a|, b)
  {
    forall i | 0 <= i < |a| ensures text[pos + i] == a[i] {
      assert (a + b)[i] == a[i];
    }
    forall i | 0 <= i < |b| ensures text[pos + |a| + i] == b[i] {
      assert (a + b)[|a| + i] == b[i];
    }
  }

  lemma StartsWithAt(text: string, pos: nat, r: string, i: nat)
    requires StartsWith(text, pos, r) && i < |r|
    ensures text[pos + i] == r[i]
  {
  }

  /** A prefix of `text` is what `text` starts with. */
  lemma StartsWithPrefix(text: string, r: string)
    requires |r| <= |text| && text[..|r|] == r
    ensures StartsWith(text, 0, r)
  {
    forall i | 0 <= i < |r| ensures text[0 + i] == r[i] {
      assert text[..|r|][i] == text[i];
    }
  }

  /** Scanning a string literal's body, which ends at `end`, stays in the string and emits nothing. */
  lemma {:induction false} ScanUnits(text: string, pos: nat, end: nat, s: nat, us: seq<StringUnit>, out: string)
    requires s <= pos && StartsWith(text, pos, RenderUnits(us)) && end == pos + |RenderUnits(us)|
    requires WellFormedUnits(us)
    ensures Run(text, Cursor(pos, s, StringLiteral), out) == Run(text, Cursor(end, s, StringLiteral), out)
    decreases |us|
  {
    if |us| > 0 {
      var tail := us[1..];
      var rest := RenderUnits(tail);
      var c := Cursor(pos, s, StringLiteral);
      match us[0]
      case Char(ch) =>
        var next := pos + 1;
        StartsWithSplit(text, pos, [ch], rest);
        StartsWithAt(text, pos, [ch], 0);
        assert Next(text, c) == Cursor(next, s, StringLiteral);
        RunStep(text, c, out);
        ScanUnits(text, next, end, s, tail, out);
      case Escape(ch) =>
        var next := pos + 2;
        StartsWithSplit(text, pos, ['\\', ch], rest);
        StartsWithAt(text, pos, ['\\', ch], 0);
        StartsWithAt(text, pos, ['\\', ch], 1);
        RunStep(text, c, out);
        if ch == '\\' || ch == '"' {
          assert Next(text, c) == Cursor(next, s, StringLiteral);
        } else {
          var c1 := Cursor(pos + 1, s, StringLiteral);
          assert Next(text, c) == c1;
          assert Next(text, c1) == Cursor(next, s, StringLiteral);
          RunStep(text, c1, out);
        }
        ScanUnits(text, next, end, s, tail, out);
    }
  }

  /** Scanning one comment-free token, which ends at `end`, stays in the document and emits nothing. */
  lemma ScanToken(text: string, pos: nat, end: nat, s: nat, t: Token, out: string)
    requires s <= pos && StartsWith(text, pos, RenderToken(t)) && end == pos + |RenderToken(t)|
    requires WellFormedToken(t)
    requires t == Plain('/') ==> !(At(text, end, '/') || At(text, end, '*'))
    ensures Run(text, Cursor(pos, s, Document), out) == Run(text, Cursor(end, s, Document), out)
  {
    var c := Cursor(pos, s, Document);
    match t
    case Plain(ch) =>
      StartsWithAt(text, pos, [ch], 0);
      assert Next(text, c) == Cursor(end, s, Document);
      RunStep(text, c, out);
    case Literal(body) =>
      var b := RenderUnits(body);
      var open, close := pos + 1, pos + 1 + |b|;
      StartsWithSplit(text, pos, ['"'] + b, ['"']);
      StartsWithSplit(text, pos, ['"'], b);
      StartsWithAt(text, pos, ['"'], 0);
      StartsWithAt(text, close, ['"'], 0);
      assert Next(text, c) == Cursor(open, s, StringLiteral);
      RunStep(text, c, out);
      ScanUnits(text, open, close, s, body, out);
      var c1 := Cursor(close, s, StringLiteral);
      assert Next(text, c1) == Cursor(end, s, Document);
      RunStep(text, c1, out);
  }

  /** Scanning comment-free tokens, which end at `end`, stays in the document and emits nothing. */
  lemma {:induction false} ScanTokens(text: string, pos: nat, end: nat, s: nat, ts: seq<Token>, out: string)
    requires s <= pos && StartsWith(text, pos, Render(ts)) && end == pos + |Render(ts)|
    requires WellFormed(ts) && ClearAfter(text, end, ts)
    ensures Run(text, Cursor(pos, s, Document), out) == Run(text, Cursor(end, s, Document), out)
    decreases |ts|
  {
    if |ts| == 0 {
      assert end == pos;
    } else {
      var next := pos + |RenderToken(ts[0])|;
      SplitFirstToken(text, pos, ts, RenderToken(ts[0]), Render(ts[1..]));
      FirstSlashClear(text, next, end, ts, Render(ts[1..]));
      ScanToken(text, pos, next, s, ts[0], out);
      ScanTokens(text, next, end, s, ts[1..], out);
    }
  }

  /** The first token of a rendered sequence, and the rest, lie one after the other. */
  lemma SplitFirstToken(text: string, pos: nat, ts: seq<Token>, a: string, b: string)
    requires |ts| > 0 && a == RenderToken(ts[0]) && b == Render(ts[1..])
    requires StartsWith(text, pos, Render(ts))
    ensures StartsWith(text, pos, a) && StartsWith(text, pos + |a|, b)
    ensures |Render(ts)| == |a| + |b|
  {
    RenderCons(ts);
    StartsWithSplit(text, pos, a, b);
  }

  lemma RenderCons(ts: seq<Token>)
    requires |ts| > 0
    ensures Render(ts) == RenderToken(ts[0]) + Render(ts[1..])
  {
  }

  /**
   * In comment-free text whose rest `b` starts at `next`, a lone `/` as the
   * first token is not followed by `/` or `*`.
   */
  lemma FirstSlashClear(text: string, next: nat, end: nat, ts: seq<Token>, b: string)
    requires |ts| > 0 && b == Render(ts[1..]) && StartsWith(text, next, b) && end == next + |b|
    requires WellFormed(ts) && ClearAfter(text, end, ts)
    ensures ts[0] == Plain('/') ==> !(At(text, next, '/') || At(text, next, '*'))
    ensures WellFormedToken(ts[0]) && WellFormed(ts[1..]) && ClearAfter(text, end, ts[1..])
  {
    var tail := ts[1..];
    if |tail| > 0 {
      assert tail[|tail| - 1] == ts[|ts| - 1];
      if ts[0] == Plain('/') {
        RenderCons(tail);
        TokenHead(tail[0]);
        assert b[0] == RenderToken(tail[0])[0];
        StartsWithAt(text, next, b, 0);
      }
    } else {
      assert next == end && ts[|ts| - 1] == ts[0];
    }
  }

  /** Only a plain `/` or `*` token renders to text that starts with that character. */
  lemma TokenHead(t: Token)
    ensures |RenderToken(t)| > 0
    ensures RenderToken(t)[0] == '/' ==> t == Plain('/')
    ensures RenderToken(t)[0] == '*' ==> t == Plain('*')
  {
  }

  /** Text made of plain characters and complete string literals comes back unchanged. */
  lemma StripCommentFree(ts: seq<Token>)
    requires WellFormed(ts)
    ensures Strip(Render(ts)) == Render(ts)
  {
    var text := Render(ts);
    assert text[..|text|] == text;
    StartsWithPrefix(text, text);
    ScanTokens(text, 0, |text|, 0, ts, []);
    assert Run(text, Cursor(|text|, 0, Document), []) == [] + text[0..];
  }

  /** Position `i` neither opens a string nor a comment in the document state. */
  predicate Unmarked(text: string, i: nat)
    requires i < |text|
  {
    text[i] != '"' && text[i] != '#' && !(text[i] == '/' && (At(text, i + 1, '/') || At(text, i + 1, '*')))
  }

  lemma {:induction false} UnmarkedRun(text: string, pos: nat)
    requires pos <= |text|
    requires forall i :: 0 <= i < |text| ==> Unmarked(text, i)
    ensures Run(text, Cursor(pos, 0, Document), []) == Run(text, Cursor(|text|, 0, Document), [])
    decreases |text| - pos
  {
    if pos < |text| {
      var c := Cursor(pos, 0, Document);
      assert Unmarked(text, pos);
      assert Next(text, c) == Cursor(pos + 1, 0, Document);
      RunStep(text, c, []);
      UnmarkedRun(text, pos + 1);
    }
  }

  /** Text with no quote, no `#`, and no `/` followed by `/` or `*`, comes back unchanged. */
  lemma StripNoMarkers(text: string)
    requires forall i :: 0 <= i < |text| ==> Unmarked(text, i)
    ensures Strip(text) == text
  {
    UnmarkedRun(text, 0);
    assert Run(text, Cursor(|text|, 0, Document), []) == [] + text[0..];
    assert text[0..] == text;
  }

  /** A lone `/`, in the middle or at the end, is not a comment. */
  lemma LoneSlashExample()
    ensures Strip("1/2/") == "1/2/"
  {
    var text := "1/2/";
    assert forall i :: 0 <= i < |text| ==> Unmarked(text, i) by {
      assert text[0] == '1' && text[1] == '/' && text[2] == '2' && text[3] == '/';
    }
    StripNoMarkers(text);
  }

  /** Comment markers and an escaped quote inside a string literal are kept verbatim. */
  lemma StringKeptVerbatim()
    ensures Strip("\"#\\\"//\"") == "\"#\\\"//\""
  {
    var units := [Char('#'), Escape('"'), Char('/'), Char('/')];
    assert RenderUnits(units[3..]) == "/";
    assert RenderUnits(units[2..]) == "//";
    assert RenderUnits(units[1..]) == "\\\"//";
    assert RenderUnits(units) == "#\\\"//";
    var ts := [Literal(units)];
    assert WellFormedUnits(units[3..]) && WellFormedUnits(units[2..]);
    assert WellFormedUnits(units[1..]) && WellFormedUnits(units);
    assert WellFormed(ts[1..]);
    assert Render(ts) == "\"#\\\"//\"";
    StripCommentFree(ts);
  }

  // ---------------------------------------------------------------------------
  // Comments

  /** No line break in text[i..j]. */
  predicate NoLineBreak(text: string, i: nat, j: nat)
    requires i <= j <= |text|
  {
    forall k :: i <= k < j ==> text[k] != '\r' && text[k] != '\n'
  }

  /** No `*` followed by `/` starting in text[i..j]. */
  predicate NoClose(text: string, i: nat, j: nat)
    requires i <= j <= |text|
  {
    forall k :: i <= k < j ==> !(text[k] == '*' && At(text, k + 1, '/'))
  }

  /** No quote in text[i..j]. */
  predicate NoQuote(text: string, i: nat, j: nat)
    requires i <= j <= |text|
  {
    forall k :: i <= k < j ==> text[k] != '"'
  }

  lemma {:induction false} SkipLine(text: string, pos: nat, j: nat, s: nat, out: string)
    requires s <= pos <= j <= |text| && NoLineBreak(text, pos, j)
    ensures Run(text, Cursor(pos, s, SingleLineComment), out) == Run(text, Cursor(j, s, SingleLineComment), out)
    decreases j - pos
  {
    if pos < j {
      RunStep(text, Cursor(pos, s, SingleLineComment), out);
      SkipLine(text, pos + 1, j, s, out);
    }
  }

  lemma {:induction false} SkipBlock(text: string, pos: nat, j: nat, s: nat, out: string)
    requires s <= pos <= j <= |text| && NoClose(text, pos, j)
    ensures Run(text, Cursor(pos, s, MultiLineComment), out) == Run(text, Cursor(j, s, MultiLineComment), out)
    decreases j - pos
  {
    if pos < j {
      RunStep(text, Cursor(pos, s, MultiLineComment), out);
      SkipBlock(text, pos + 1, j, s, out);
    }
  }

  lemma {:induction false} SkipString(text: string, pos: nat, s: nat, out: string)
    requires s <= pos <= |text| && NoQuote(text, pos, |text|)
    ensures Run(text, Cursor(pos, s, StringLiteral), out) == out
    decreases |text| - pos
  {
    if pos < |text| {
      var d := Next(text, Cursor(pos, s, StringLiteral));
      assert d.context == StringLiteral && d.startPos == s;
      RunStep(text, Cursor(pos, s, StringLiteral), out);
      SkipString(text, d.pos, s, out);
    } else {
      assert out + [] == out;
    }
  }

  /** Scanning the comment-free prefix `Render(ts)` of `text` from the start. */
  lemma ScanPrefix(text: string, ts: seq<Token>)
    requires WellFormed(ts) && |Render(ts)| <= |text| && text[..|Render(ts)|] == Render(ts)
    requires ClearAfter(text, |Render(ts)|, ts)
    ensures Strip(text) == Run(text, Cursor(|Render(ts)|, 0, Document), [])
  {
    StartsWithPrefix(text, Render(ts));
    ScanTokens(text, 0, |Render(ts)|, 0, ts, []);
  }

  /**
   * The scan from the opening of a line comment at `at`, whose opener is `n`
   * characters long and whose body runs to `brk`, where a line break is.
   */
  lemma LineCommentBody(text: string, at: nat, n: nat, brk: nat)
    requires at + n <= brk < |text| && (n == 1 || n == 2)
    requires n == 1 ==> text[at] == '#'
    requires n == 2 ==> text[at] == '/' && text[at + 1] == '/'
    requires NoLineBreak(text, at + n, brk) && (text[brk] == '\r' || text[brk] == '\n')
    ensures Run(text, Cursor(at, 0, Document), []) == text[..at] + Strip(text[brk..])
  {
    var c := Cursor(at, 0, Document);
    var a := at + n;
    var p := text[..at];
    assert text[0..at] == p;
    assert Next(text, c) == Cursor(a, 0, SingleLineComment);
    RunOpen(text, c);
    SkipLine(text, a, brk, 0, p);
    LineBreakResume(text, brk, p);
  }

  /** The line break that ends a line comment becomes the next resume point. */
  lemma LineBreakResume(text: string, brk: nat, p: string)
    requires brk < |text| && (text[brk] == '\r' || text[brk] == '\n')
    ensures Run(text, Cursor(brk, 0, SingleLineComment), p) == p + Strip(text[brk..])
  {
    var b := Cursor(brk, 0, SingleLineComment);
    var d := Cursor(brk, brk, Document);
    assert Next(text, b) == Cursor(brk + 1, brk, Document);
    assert Next(text, d) == Cursor(brk + 1, brk, Document);
    RunStep(text, b, p);
    RunStep(text, d, p);
    Resume(text, brk, p);
  }

  /**
   * A `#` comment is dropped up to the next line break; the line break and what
   * follows it are scanned as a fresh document.
   */
  lemma HashComment(ts: seq<Token>, comment: string, rest: string)
    requires WellFormed(ts)
    requires forall i :: 0 <= i < |comment| ==> comment[i] != '\r' && comment[i] != '\n'
    requires |rest| > 0 && (rest[0] == '\r' || rest[0] == '\n')
    ensures Strip(Render(ts) + ['#'] + comment + rest) == Render(ts) + Strip(rest)
  {
    var p := Render(ts);
    var text := p + ['#'] + comment + rest;
    var at, brk := |p|, |p| + 1 + |comment|;
    assert text[..at] == p;
    assert text[brk..] == rest;
    assert text[at] == '#';
    forall k | at + 1 <= k < brk ensures text[k] != '\r' && text[k] != '\n' {
      assert text[k] == comment[k - at - 1];
    }
    ScanPrefix(text, ts);
    LineCommentBody(text, at, 1, brk);
  }

  /** The same for a `//` comment, after text that does not end in a `/` (which would open the comment one character earlier). */
  lemma SlashComment(ts: seq<Token>, comment: string, rest: string)
    requires WellFormed(ts) && !EndsInSlash(ts)
    requires forall i :: 0 <= i < |comment| ==> comment[i] != '\r' && comment[i] != '\n'
    requires |rest| > 0 && (rest[0] == '\r' || rest[0] == '\n')
    ensures Strip(Render(ts) + ['/', '/'] + comment + rest) == Render(ts) + Strip(rest)
  {
    var p := Render(ts);
    var text := p + ['/', '/'] + comment + rest;
    var at, brk := |p|, |p| + 2 + |comment|;
    assert text[..at] == p;
    assert text[brk..] == rest;
    assert text[at] == '/' && text[at + 1] == '/';
    forall k | at + 2 <= k < brk ensures text[k] != '\r' && text[k] != '\n' {
      assert text[k] == comment[k - at - 2];
    }
    ScanPrefix(text, ts);
    LineCommentBody(text, at, 2, brk);
  }

  /**
   * A `/* */` comment is dropped with both delimiters; the scan resumes after it.
   * The text before it does not end in a `/`, which would open a line comment instead.
   */
  lemma BlockComment(ts: seq<Token>, comment: string, rest: string)
    requires WellFormed(ts) && !EndsInSlash(ts)
    requires forall i :: 0 <= i < |comment| - 1 ==> !(comment[i] == '*' && comment[i + 1] == '/')
    ensures Strip(Render(ts) + ['/', '*'] + comment + ['*', '/'] + rest) == Render(ts) + Strip(rest)
  {
    var text := Render(ts) + ['/', '*'] + comment + (['*', '/'] + rest);
    assert text == Render(ts) + ['/', '*'] + comment + ['*', '/'] + rest;
    OpenBlockLayout(Render(ts), comment, ['*', '/'] + rest);
    var b := |Render(ts)| + 2 + |comment|;
    assert text[b..][..2] == ['*', '/'] && text[b..][2..] == rest;
    ScanPrefix(text, ts);
    ClosedBlockComment(text, |Render(ts)|, b);
  }

  /** The scan from a block-comment opener whose comment closes at `b`. */
  lemma ClosedBlockComment(text: string, at: nat, b: nat)
    requires at + 2 <= b && b + 2 <= |text|
    requires text[at] == '/' && text[at + 1] == '*' && NoClose(text, at + 2, b)
    requires text[b] == '*' && text[b + 1] == '/'
    ensures Run(text, Cursor(at, 0, Document), []) == text[..at] + Strip(text[b + 2..])
  {
    var p := text[..at];
    var c, e := Cursor(at, 0, Document), Cursor(b, 0, MultiLineComment);
    assert text[0..at] == p;
    assert Next(text, c) == Cursor(at + 2, 0, MultiLineComment);
    RunOpen(text, c);
    SkipBlock(text, at + 2, b, 0, p);
    assert Next(text, e) == Cursor(b + 2, b + 2, Document);
    RunStep(text, e, p);
    Resume(text, b + 2, p);
  }

  /** The layout of `p + [ch] + body`. */
  lemma Spliced(p: string, ch: char, body: string)
    ensures var text := p + [ch] + body;
            |text| == |p| + 1 + |body| && text[..|p|] == p && text[|p|] == ch &&
            forall k :: |p| < k < |text| ==> text[k] == body[k - |p| - 1]
  {
  }

  /** The scan from a `#` whose comment runs to the end of the text. */
  lemma LineCommentToEnd(text: string, at: nat)
    requires at < |text| && text[at] == '#' && NoLineBreak(text, at + 1, |text|)
    ensures Run(text, Cursor(at, 0, Document), []) == text[..at]
  {
    var c := Cursor(at, 0, Document);
    var p := text[..at];
    assert text[0..at] == p;
    assert Next(text, c) == Cursor(at + 1, 0, SingleLineComment);
    RunOpen(text, c);
    SkipLine(text, at + 1, |text|, 0, p);
    assert Run(text, Cursor(|text|, 0, SingleLineComment), p) == p + [];
  }

  /** A comment still open at the end drops everything after the last resume point. */
  lemma UnterminatedLineComment(ts: seq<Token>, comment: string)
    requires WellFormed(ts)
    requires forall i :: 0 <= i < |comment| ==> comment[i] != '\r' && comment[i] != '\n'
    ensures Strip(Render(ts) + ['#'] + comment) == Render(ts)
  {
    var p := Render(ts);
    var text := p + ['#'] + comment;
    Spliced(p, '#', comment);
    forall k | |p| + 1 <= k < |text| ensures text[k] != '\r' && text[k] != '\n' {
      assert text[k] == comment[k - |p| - 1];
    }
    ScanPrefix(text, ts);
    LineCommentToEnd(text, |p|);
  }

  /** The same for a block comment still open at the end. */
  lemma UnterminatedBlockComment(ts: seq<Token>, comment: string)
    requires WellFormed(ts) && !EndsInSlash(ts)
    requires forall i :: 0 <= i < |comment| - 1 ==> !(comment[i] == '*' && comment[i + 1] == '/')
    ensures Strip(Render(ts) + ['/', '*'] + comment) == Render(ts)
  {
    var text := Render(ts) + ['/', '*'] + comment;
    OpenBlockLayout(Render(ts), comment, []);
    ScanPrefix(text, ts);
    BlockCommentToEnd(text, |Render(ts)|);
  }

  /** The layout of `p + ['/', '*'] + comment + tail`, where the comment holds no closer. */
  lemma OpenBlockLayout(p: string, comment: string, tail: string)
    requires forall i :: 0 <= i < |comment| - 1 ==> !(comment[i] == '*' && comment[i + 1] == '/')
    requires tail == [] || tail[0] == '*'
    ensures var text := p + ['/', '*'] + comment + tail;
            |text| == |p| + 2 + |comment| + |tail| && text[..|p|] == p &&
            text[|p|] == '/' && text[|p| + 1] == '*' && text[|p| + 2 + |comment|..] == tail &&
            NoClose(text, |p| + 2, |p| + 2 + |comment|)
  {
    var text := p + ['/', '*'] + comment + tail;
    var at, b := |p|, |p| + 2 + |comment|;
    assert text[..at] == p;
    assert text[b..] == tail;
    forall k | at + 2 <= k < b ensures !(text[k] == '*' && At(text, k + 1, '/')) {
      assert text[k] == comment[k - at - 2];
      if k + 1 < b {
        assert text[k + 1] == comment[k + 1 - at - 2];
      } else if k + 1 < |text| {
        assert text[k + 1] == tail[0];
      }
    }
  }

  /** The scan from a block-comment opener whose comment runs to the end of the text. */
  lemma BlockCommentToEnd(text: string, at: nat)
    requires at + 2 <= |text| && text[at] == '/' && text[at + 1] == '*' && NoClose(text, at + 2, |text|)
    ensures Run(text, Cursor(at, 0, Document), []) == text[..at]
  {
    var c := Cursor(at, 0, Document);
    var p := text[..at];
    assert text[0..at] == p;
    assert Next(text, c) == Cursor(at + 2, 0, MultiLineComment);
    RunOpen(text, c);
    SkipBlock(text, at + 2, |text|, 0, p);
    assert Run(text, Cursor(|text|, 0, MultiLineComment), p) == p + [];
  }

  /** The scan from a quote whose string runs to the end of the text. */
  lemma StringToEnd(text: string, at: nat)
    requires at < |text| && text[at] == '"' && NoQuote(text, at + 1, |text|)
    ensures Run(text, Cursor(at, 0, Document), []) == []
  {
    var c := Cursor(at, 0, Document);
    assert Next(text, c) == Cursor(at + 1, 0, StringLiteral);
    RunStep(text, c, []);
    SkipString(text, at + 1, 0, []);
  }

  /**
   * A string literal still open at the end drops everything since the last
   * resume point, which for comment-free text before it is the whole text.
   */
  lemma UnterminatedString(ts: seq<Token>, body: string)
    requires WellFormed(ts)
    requires forall i :: 0 <= i < |body| ==> body[i] != '"'
    ensures Strip(Render(ts) + ['"'] + body) == []
  {
    var p := Render(ts);
    var text := p + ['"'] + body;
    Spliced(p, '"', body);
    forall k | |p| + 1 <= k < |text| ensures text[k] != '"' {
      assert text[k] == body[k - |p| - 1];
    }
    ScanPrefix(text, ts);
    StringToEnd(text, |p|);
  }

  /** A comment in the middle of a line: `a#b`, a line break and `c` give `a`, the line break and `c`. */
  lemma LineCommentExample()
    ensures Strip("a#b\nc") == "a\nc"
  {
    var ts := [Plain('a')];
    assert WellFormed(ts[1..]);
    assert Render(ts) == "a";
    HashComment(ts, "b", "\nc");
    StripNoMarkers("\nc");
    assert "a" + ['#'] + "b" + "\nc" == "a#b\nc";
  }
}
