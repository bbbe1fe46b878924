/**
 * The Base64 VLQ integer codec of the Source Map Revision 3 Proposal.
 *
 * Each integer is zig-zag encoded (the sign goes to bit 0) and written as
 * 5-bit groups, least significant first, one base64 digit per group; a digit
 * whose value has bit 32 set says that another group follows.
 *
 * Integers are unbounded here.  The JavaScript code does its shifts on 32-bit
 * integers; the encoder below is restricted to |n| < 2^30, where those shifts
 * cannot overflow and the two agree.
 */
module Vlq {

  /** The base64 digit of a value 0..63, in the alphabet of RFC 4648 section 4. */
  function Base64Char(v: int): (c: char)
    requires 0 <= v < 64
    ensures 'A' <= c <= 'Z' <==> v < 26
    ensures 'a' <= c <= 'z' <==> 26 <= v < 52
    ensures '0' <= c <= '9' <==> 52 <= v < 62
  {
    if v < 26 then ('A' as int + v) as char
    else if v < 52 then ('a' as int + (v - 26)) as char
    else if v < 62 then ('0' as int + (v - 52)) as char
    else if v == 62 then '+'
    else '/'
  }

  /** The first `n` digits of the alphabet, in order. */
  function AlphabetPrefix(n: nat): (s: string)
    requires n <= 64
    ensures |s| == n
    ensures forall i :: 0 <= i < n ==> s[i] == Base64Char(i)
  {
    if n == 0 then [] else AlphabetPrefix(n - 1) + [Base64Char(n - 1)]
  }

  /** The 64-character alphabet "A".."Z", "a".."z", "0".."9", "+", "/". */
  const Base64Chars: string := AlphabetPrefix(64)

  /** The characters of the alphabet, by range. */
  predicate IsDigit(c: char) {
    'A' <= c <= 'Z' || 'a' <= c <= 'z' || '0' <= c <= '9' || c == '+' || c == '/'
  }

  /** `base64chars.indexOf(c)`: the position of `c` in the alphabet, or -1. */
  function Base64Index(c: char): (r: int)
    ensures -1 <= r < 64
    ensures r == -1 <==> !IsDigit(c)
    ensures r >= 0 ==> Base64Char(r) == c
  {
    if 'A' <= c <= 'Z' then c as int - 'A' as int
    else if 'a' <= c <= 'z' then c as int - 'a' as int + 26
    else if '0' <= c <= '9' then c as int - '0' as int + 52
    else if c == '+' then 62
    else if c == '/' then 63
    else -1
  }

  /** The alphabet holds exactly the characters of the four ranges. */
  lemma AlphabetIsDigits(c: char)
    ensures c in Base64Chars <==> IsDigit(c)
  {
    if c in Base64Chars {
      var i :| 0 <= i < 64 && Base64Chars[i] == c;
      assert Base64Char(i) == c;
    }
    if IsDigit(c) {
      var r := Base64Index(c);
      assert Base64Chars[r] == c;
    }
  }

  /** Every digit of the alphabet sits at its own index: the alphabet has no repeats. */
  lemma IndexOfChar(i: int)
    requires 0 <= i < 64
    ensures Base64Index(Base64Chars[i]) == i
  {
    var c := Base64Chars[i];
    assert c == Base64Char(i);
  }

  /**
   * The module-level loop that fills `base64encoder` (digit value to character
   * code) and `base64decoder` (character code to digit value).  The two tables
   * are mutual inverses.
   */
  method BuildTables() returns (encoder: seq<int>, decoder: map<int, int>)
    ensures |encoder| == 64
    ensures forall i :: 0 <= i < 64 ==> encoder[i] == Base64Chars[i] as int
    ensures forall i :: 0 <= i < 64 ==> encoder[i] in decoder && decoder[encoder[i]] == i
    ensures forall code :: code in decoder <==> exists i :: 0 <= i < 64 && encoder[i] == code
  {
    encoder, decoder := [], map[];
    for i := 0 to |Base64Chars|
      invariant |encoder| == i
      invariant forall j :: 0 <= j < i ==> encoder[j] == Base64Chars[j] as int
      invariant forall j :: 0 <= j < i ==> encoder[j] in decoder && decoder[encoder[j]] == j
      invariant forall code :: code in decoder <==> exists j :: 0 <= j < i && encoder[j] == code
    {
      var code := Base64Chars[i] as int;
      forall j | 0 <= j < i ensures encoder[j] != code {
        IndexOfChar(i);
        IndexOfChar(j);
      }
      decoder := decoder[code := i];
      encoder := encoder + [code];
    }
  }

  // ---------------------------------------------------------------------------
  // Encoding

  /** The zig-zag transform: the sign goes to bit 0, the magnitude to the bits above. */
  function ZigZag(n: int): (u: nat)
    ensures u % 2 == (if n < 0 then 1 else 0)
    ensures u / 2 == (if n < 0 then -n else n)
  {
    if n < 0 then (-n) * 2 + 1 else n * 2
  }

  /**
   * The digits of an unsigned value: 5-bit groups, least significant first,
   * every group but the last carrying the continuation bit 32.
   */
  function Groups(u: nat): (s: string)
    decreases u
  {
    if u < 32 then [Base64Char(u)] else [Base64Char(u % 32 + 32)] + Groups(u / 32)
  }

  /** `d << k` on unbounded integers: `d` doubled `k` times. */
  function Shift(d: nat, k: nat): nat {
    if k == 0 then d else 2 * Shift(d, k - 1)
  }

  /** The value that a sequence of digit values contributes, 5 bits per digit. */
  function GroupValue(ps: seq<int>): int {
    if ps == [] then 0 else ps[0] % 32 + 32 * GroupValue(ps[1..])
  }

  /** The digit values of a string, as `indexOf` returns them. */
  function IndexParts(text: string): (ps: seq<int>)
    ensures |ps| == |text|
    ensures forall i :: 0 <= i < |text| ==> ps[i] == Base64Index(text[i])
  {
    seq(|text|, i requires 0 <= i < |text| => Base64Index(text[i]))
  }

  /** Reading back a digit gives its value. */
  lemma IndexOfDigit(v: int)
    requires 0 <= v < 64
    ensures Base64Index(Base64Char(v)) == v
  {
  }

  /** An encoded integer is one or more digits of the alphabet. */
  lemma {:induction false} GroupsDigits(u: nat)
    ensures |Groups(u)| >= 1
    ensures forall k :: 0 <= k < |Groups(u)| ==> IsDigit(Groups(u)[k])
    decreases u
  {
    if u >= 32 {
      GroupsDigits(u / 32);
      var s, t := Groups(u), Groups(u / 32);
      assert s == [Base64Char(u % 32 + 32)] + t;
      forall k | 1 <= k < |s| ensures s[k] == t[k - 1] { }
    }
  }

  /** Every digit of an encoded integer but the last has bit 32 set; the last has it clear. */
  lemma {:induction false} GroupsContinuation(u: nat)
    ensures |Groups(u)| >= 1
    ensures forall k :: 0 <= k < |Groups(u)| - 1 ==> Base64Index(Groups(u)[k]) >= 32
    ensures Base64Index(Groups(u)[|Groups(u)| - 1]) < 32
    decreases u
  {
    if u < 32 {
      IndexOfDigit(u);
    } else {
      GroupsContinuation(u / 32);
      var d := u % 32 + 32;
      var s, t := Groups(u), Groups(u / 32);
      assert s == [Base64Char(d)] + t;
      IndexOfDigit(d);
      forall k | 1 <= k < |s| ensures s[k] == t[k - 1] { }
      assert s[|s| - 1] == t[|t| - 1];
    }
  }

  /** The low five bits of the digits, least significant first, spell the encoded value. */
  lemma {:induction false} GroupsValue(u: nat)
    ensures GroupValue(IndexParts(Groups(u))) == u
    decreases u
  {
    if u < 32 {
      IndexOfDigit(u);
      assert IndexParts(Groups(u)) == [u];
      assert GroupValue([u]) == u % 32 + 32 * GroupValue([]);
    } else {
      var d := u % 32 + 32;
      var s, t := Groups(u), Groups(u / 32);
      GroupsValue(u / 32);
      assert s == [Base64Char(d)] + t;
      IndexOfDigit(d);
      var ps := IndexParts(s);
      assert ps[0] == d;
      assert ps[1..] == IndexParts(t);
      assert GroupValue(ps) == d % 32 + 32 * GroupValue(IndexParts(t));
      assert d % 32 == u % 32;
    }
  }

  /** The encoding of one integer. */
  function EncodeValue(n: int): string {
    Groups(ZigZag(n))
  }

  /** The encoding of a sequence: the encodings of its elements, in order. */
  function EncodeAll(xs: seq<int>): string {
    if xs == [] then [] else EncodeAll(xs[..|xs| - 1]) + EncodeValue(xs[|xs| - 1])
  }

  /** The integers whose encoding the JavaScript code computes without overflow. */
  predicate InEncodableRange(xs: seq<int>) {
    forall i :: 0 <= i < |xs| ==> -0x4000_0000 < xs[i] < 0x4000_0000
  }

  /** `encode`: the do-while emits one digit per 5-bit group. */
  method Encode(buffer: seq<int>) returns (text: string)
    requires InEncodableRange(buffer)
    ensures text == EncodeAll(buffer)
  {
    var parts: string := [];
    for i := 0 to |buffer|
      invariant parts == EncodeAll(buffer[..i])
    {
      var data := buffer[i];
      var unsigned: nat := if data < 0 then (-data) * 2 + 1 else data * 2;
      assert unsigned == ZigZag(data);
      ghost var before := parts;
      var done := false;
      while !done
        invariant !done ==> parts + Groups(unsigned) == before + EncodeValue(data)
        invariant done ==> parts == before + EncodeValue(data)
        decreases if done then 0 else unsigned + 1
      {
        var part := unsigned % 32;
        unsigned := unsigned / 32;
        if unsigned > 0 {
          part := part + 32;
        }
        parts := parts + [Base64Char(part)];
        done := unsigned == 0;
      }
      assert buffer[..i + 1][..i] == buffer[..i];
    }
    assert buffer[..|buffer|] == buffer;
    text := parts;
  }

  // ---------------------------------------------------------------------------
  // Decoding

  /**
   * `part & 31`.  In two's complement `x & 31` is `x` modulo 32 for negative
   * `x` too; -1, which `indexOf` returns for a character outside the
   * alphabet, has every bit set and gives 31.
   */
  function Low5(part: int): (r: int)
    ensures 0 <= r < 32
  {
    part % 32
  }

  /** `(part & 32) !== 0`: another group follows; bit 5 is set exactly when `part` modulo 64 is at least 32. */
  predicate HasMore(part: int) {
    part % 64 >= 32
  }

  /** `value += (part & 31) << shift`. */
  function Accumulate(value: nat, part: int, shift: nat): (v: nat)
    ensures v >= value
  {
    value + Shift(Low5(part), shift)
  }

  /** Undoing the zig-zag transform: `value & 1 ? -(value >>> 1) : value >>> 1`. */
  function Unzig(value: nat): int {
    if value % 2 == 1 then -(value / 2) else value / 2
  }

  lemma UnzigZigZag(n: int)
    ensures Unzig(ZigZag(n)) == n
  {
  }

  /**
   * The decoding loop over a sequence of digit values, from a state where
   * `value` has been accumulated with `shift` bits so far.  A digit without the
   * continuation bit ends one integer; a trailing unfinished group is dropped.
   */
  function DecodeParts(ps: seq<int>, value: nat, shift: nat): seq<int>
    decreases |ps|
  {
    if ps == [] then []
    else
      var v := Accumulate(value, ps[0], shift);
      if HasMore(ps[0]) then DecodeParts(ps[1..], v, shift + 5)
      else [Unzig(v)] + DecodeParts(ps[1..], 0, 0)
  }

  /** One turn of the decoding loop at index `j`. */
  lemma DecodeStep(ps: seq<int>, j: nat, value: nat, shift: nat)
    requires j < |ps|
    ensures DecodeParts(ps[j..], value, shift)
         == if HasMore(ps[j]) then DecodeParts(ps[j + 1..], Accumulate(value, ps[j], shift), shift + 5)
            else [Unzig(Accumulate(value, ps[j], shift))] + DecodeParts(ps[j + 1..], 0, 0)
  {
    assert ps[j..][0] == ps[j] && ps[j..][1..] == ps[j + 1..];
  }

  /** `decode(text)`. */
  function DecodeText(text: string): seq<int> {
    DecodeParts(IndexParts(text), 0, 0)
  }

  method Decode(text: string) returns (buffer: seq<int>)
    ensures buffer == DecodeText(text)
  {
    ghost var ps := IndexParts(text);
    buffer := [];
    var value: nat := 0;
    var shift: nat := 0;
    for i := 0 to |text|
      invariant buffer + DecodeParts(ps[i..], value, shift) == DecodeText(text)
    {
      var part := Base64Index(text[i]);
      DecodeStep(ps, i, value, shift);
      value := Accumulate(value, part, shift);
      shift := shift + 5;
      if !HasMore(part) {
        buffer := buffer + [Unzig(value)];
        shift := 0;
        value := 0;
      }
    }
  }

  /**
   * `base64decoder[code]` as `decodeChars` uses it: a character outside the
   * alphabet reads `undefined`, and `undefined & 31` and `undefined & 32` are
   * both 0, so it acts as the digit 0.
   */
  function TablePart(c: char): (r: int)
    ensures 0 <= r < 64
    ensures IsDigit(c) ==> r == Base64Index(c)
  {
    if IsDigit(c) then Base64Index(c) else 0
  }

  /** The window `[max(start, 0), min(end, |text|))` that `decodeChars` clamps to; empty when it is inverted. */
  function Window(text: string, start: int, end: int): (w: string)
    ensures var s := if start < 0 then 0 else start;
            var e := if end > |text| then |text| else end;
            w == if s < e then text[s..e] else []
  {
    var s := if start < 0 then 0 else start;
    var e := if end > |text| then |text| else end;
    if s < e then text[s..e] else []
  }

  function TableParts(w: string): (ps: seq<int>)
    ensures |ps| == |w|
    ensures forall i :: 0 <= i < |w| ==> ps[i] == TablePart(w[i])
  {
    seq(|w|, i requires 0 <= i < |w| => TablePart(w[i]))
  }


  /** The loop of `decodeChars` from index `i` on, with `value`, `shift` and the buffer so far carried in. */
  function CharsFrom(text: string, i: nat, e: int, value: nat, shift: nat, buffer: seq<int>): seq<int>
    requires e <= |text|
    decreases e - i
  {
    if i >= e then buffer
    else
      var part := TablePart(text[i]);
      var v := Accumulate(value, part, shift);
      if HasMore(part) then CharsFrom(text, i + 1, e, v, shift + 5, buffer)
      else CharsFrom(text, i + 1, e, 0, 0, buffer + [Unzig(v)])
  }

  /** `decodeChars(text, start, end)`: the loop over the window clamped to the text. */
  function DecodeWindow(text: string, start: int, end: int): seq<int> {
    var s := if start < 0 then 0 else start;
    var e := if end > |text| then |text| else end;
    CharsFrom(text, s, e, 0, 0, [])
  }

  /** The index loop appends the decoding of the slice's digit values. */
  lemma {:induction false} CharsFromParts(text: string, i: nat, e: nat, value: nat, shift: nat, buffer: seq<int>)
    requires i <= e <= |text|
    ensures CharsFrom(text, i, e, value, shift, buffer) == buffer + DecodeParts(TableParts(text[i..e]), value, shift)
    decreases e - i
  {
    if i < e {
      var ps := TableParts(text[i..e]);
      var qs := TableParts(text[i + 1..e]);
      assert ps[0] == TablePart(text[i]);
      assert ps[1..] == qs;
      var v := Accumulate(value, ps[0], shift);
      if HasMore(ps[0]) {
        CharsFromParts(text, i + 1, e, v, shift + 5, buffer);
      } else {
        CharsFromParts(text, i + 1, e, 0, 0, buffer + [Unzig(v)]);
        assert (buffer + [Unzig(v)]) + DecodeParts(qs, 0, 0) == buffer + ([Unzig(v)] + DecodeParts(qs, 0, 0));
      }
    } else {
      assert buffer + [] == buffer;
    }
  }

  method DecodeChars(text: string, start: int, end: int) returns (buffer: seq<int>)
    ensures buffer == DecodeWindow(text, start, end)
  {
    var s, e := start, end;
    if s < 0 { s := 0; }
    if e > |text| { e := |text|; }
    buffer := [];
    if e <= s {
      return;
    }
    var value: nat := 0;
    var shift: nat := 0;
    for i := s to e
      invariant CharsFrom(text, i, e, value, shift, buffer) == CharsFrom(text, s, e, 0, 0, [])
    {
      var part := TablePart(text[i]);
      value := Accumulate(value, part, shift);
      shift := shift + 5;
      if !HasMore(part) {
        buffer := buffer + [Unzig(value)];
        shift := 0;
        value := 0;
      }
    }
  }

  /** `decodeChars` decodes the digit values of the clamped window. */
  lemma DecodeWindowParts(text: string, start: int, end: int)
    ensures DecodeWindow(text, start, end) == DecodeParts(TableParts(Window(text, start, end)), 0, 0)
  {
    var s := if start < 0 then 0 else start;
    var e := if end > |text| then |text| else end;
    if s < e {
      CharsFromParts(text, s, e, 0, 0, []);
      assert [] + DecodeParts(TableParts(text[s..e]), 0, 0) == DecodeParts(TableParts(text[s..e]), 0, 0);
    }
  }

  // ---------------------------------------------------------------------------
  // Properties of the codec

  /** The digit values of an encoded integer, one group at a time. */
  lemma PartsOfGroups(u: nat)
    ensures u < 32 ==> IndexParts(Groups(u)) == [u]
    ensures u >= 32 ==> IndexParts(Groups(u)) == [u % 32 + 32] + IndexParts(Groups(u / 32))
  {
    if u < 32 {
      IndexOfDigit(u);
    } else {
      IndexOfDigit(u % 32 + 32);
      assert Groups(u) == [Base64Char(u % 32 + 32)] + Groups(u / 32);
    }
  }

  /** Shifting distributes over addition. */
  lemma {:induction false} ShiftAdd(a: nat, b: nat, k: nat)
    ensures Shift(a + b, k) == Shift(a, k) + Shift(b, k)
  {
    if k > 0 {
      ShiftAdd(a, b, k - 1);
    }
  }

  /** Doubling first is one more shift. */
  lemma {:induction false} ShiftDouble(d: nat, k: nat)
    ensures Shift(2 * d, k) == Shift(d, k + 1)
  {
    if k > 0 {
      ShiftDouble(d, k - 1);
    }
  }

  /** The value accumulated before a group plus the groups after it: `u` shifted by `shift`. */
  lemma SplitValue(u: nat, shift: nat)
    ensures Shift(u % 32, shift) + Shift(u / 32, shift + 5) == Shift(u, shift)
  {
    var q := u / 32;
    ShiftDouble(16 * q, shift);
    ShiftDouble(8 * q, shift + 1);
    ShiftDouble(4 * q, shift + 2);
    ShiftDouble(2 * q, shift + 3);
    ShiftDouble(q, shift + 4);
    assert u == u % 32 + 32 * q;
    ShiftAdd(u % 32, 32 * q, shift);
  }

  /** One step of the decoding loop, on the first digit. */
  lemma DecodeHead(d: int, qs: seq<int>, value: nat, shift: nat)
    ensures DecodeParts([d] + qs, value, shift)
         == if HasMore(d) then DecodeParts(qs, Accumulate(value, d, shift), shift + 5)
            else [Unzig(Accumulate(value, d, shift))] + DecodeParts(qs, 0, 0)
  {
    assert ([d] + qs)[0] == d && ([d] + qs)[1..] == qs;
  }

  /** Decoding one encoded group sequence yields its value and resumes on the rest. */
  lemma {:induction false} DecodeGroups(u: nat, rest: seq<int>, value: nat, shift: nat)
    ensures DecodeParts(IndexParts(Groups(u)) + rest, value, shift)
         == [Unzig(value + Shift(u, shift))] + DecodeParts(rest, 0, 0)
    decreases u
  {
    PartsOfGroups(u);
    var ps := IndexParts(Groups(u));
    if u < 32 {
      assert ps == [u];
      assert !HasMore(u) && Low5(u) == u;
      DecodeHead(u, rest, value, shift);
    } else {
      var d := u % 32 + 32;
      var qs := IndexParts(Groups(u / 32));
      assert ps == [d] + qs;
      ConsAppend(d, qs, rest);
      var v := Accumulate(value, d, shift);
      assert Low5(d) == u % 32 && HasMore(d);
      assert v == value + Shift(u % 32, shift);
      DecodeGroups(u / 32, rest, v, shift + 5);
      DecodeHead(d, qs + rest, value, shift);
      SplitValue(u, shift);
      assert v + Shift(u / 32, shift + 5) == value + Shift(u, shift);
    }
  }

  lemma ConsAppend(d: int, qs: seq<int>, rest: seq<int>)
    ensures ([d] + qs) + rest == [d] + (qs + rest)
  {
  }

  lemma IndexPartsConcat(a: string, b: string)
    ensures IndexParts(a + b) == IndexParts(a) + IndexParts(b)
  {
  }

  /** Decoding inverts encoding, element by element. */
  lemma DecodeEncode(xs: seq<int>)
    ensures DecodeText(EncodeAll(xs)) == xs
  {
    DecodeEncodeThen(xs, []);
    assert EncodeAll(xs) + [] == EncodeAll(xs);
    assert DecodeText([]) == [];
  }

  /** Decoding one encoded integer followed by more text yields the integer, then the text's. */
  lemma DecodeValueThen(n: int, tail: string)
    ensures DecodeText(EncodeValue(n) + tail) == [n] + DecodeText(tail)
  {
    var u := ZigZag(n);
    var e := Groups(u);
    IndexPartsConcat(e, tail);
    DecodeGroups(u, IndexParts(tail), 0, 0);
    assert Shift(u, 0) == u;
    UnzigZigZag(n);
    assert DecodeText(e + tail) == DecodeParts(IndexParts(e) + IndexParts(tail), 0, 0);
  }

  /** Decoding a complete encoding followed by more text yields the encoded integers, then the text's. */
  lemma {:induction false} DecodeEncodeThen(xs: seq<int>, tail: string)
    ensures DecodeText(EncodeAll(xs) + tail) == xs + DecodeText(tail)
    decreases |xs|
  {
    if xs == [] {
      assert EncodeAll(xs) + tail == tail;
    } else {
      var init, last := xs[..|xs| - 1], xs[|xs| - 1];
      var e := EncodeValue(last);
      var rest := e + tail;
      assert EncodeAll(xs) == EncodeAll(init) + e;
      assert EncodeAll(xs) + tail == EncodeAll(init) + rest;
      DecodeEncodeThen(init, rest);
      DecodeValueThen(last, tail);
      assert xs == init + [last];
    }
  }

  /** The number of digits that end an integer. */
  function Terminators(ps: seq<int>): nat
  {
    if ps == [] then 0 else (if HasMore(ps[0]) then 0 else 1) + Terminators(ps[1..])
  }

  /** One integer comes out per digit without the continuation bit. */
  lemma {:induction false} DecodeCount(ps: seq<int>, value: nat, shift: nat)
    ensures |DecodeParts(ps, value, shift)| == Terminators(ps)
    decreases |ps|
  {
    if ps != [] {
      var v := Accumulate(value, ps[0], shift);
      if HasMore(ps[0]) { DecodeCount(ps[1..], v, shift + 5); } else { DecodeCount(ps[1..], 0, 0); }
    }
  }

  /** Digits that all carry the continuation bit change nothing: an unfinished group is dropped. */
  lemma {:induction false} TrailingGroupDropped(ps: seq<int>, qs: seq<int>, value: nat, shift: nat)
    requires forall i :: 0 <= i < |qs| ==> HasMore(qs[i])
    ensures DecodeParts(ps + qs, value, shift) == DecodeParts(ps, value, shift)
    decreases |ps| + |qs|
  {
    if ps == [] {
      if qs != [] {
        var v := Accumulate(value, qs[0], shift);
        TrailingGroupDropped([], qs[1..], v, shift + 5);
        assert [] + qs == qs && [] + qs[1..] == qs[1..];
      }
    } else {
      var v := Accumulate(value, ps[0], shift);
      assert (ps + qs)[1..] == ps[1..] + qs;
      if HasMore(ps[0]) {
        TrailingGroupDropped(ps[1..], qs, v, shift + 5);
      } else {
        TrailingGroupDropped(ps[1..], qs, 0, 0);
      }
    }
  }

  /**
   * On text over the alphabet, `decodeChars(text, start, end)` is `decode` of
   * the clamped window; an empty or inverted window yields no integers.
   */
  lemma DecodeWindowIsDecode(text: string, start: int, end: int)
    requires forall i :: 0 <= i < |text| ==> IsDigit(text[i])
    ensures var s := if start < 0 then 0 else start;
            var e := if end > |text| then |text| else end;
            DecodeWindow(text, start, end) == if s < e then DecodeText(text[s..e]) else []
  {
    var w := Window(text, start, end);
    assert TableParts(w) == IndexParts(w);
    DecodeWindowParts(text, start, end);
  }

  /** Outside the alphabet the two decoders disagree: ">" is a lone continuation digit to one and a 0 to the other. */
  lemma NonAlphabetDisagreement()
    ensures DecodeText(">") == []
    ensures DecodeWindow(">", 0, 1) == [0]
  {
    assert IndexParts(">") == [-1];
  }
}
