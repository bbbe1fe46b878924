/**
 * Byte-order-mark sniffing and the UTF-16BE byte swap that `readFile` does
 * before it turns a file's bytes into text.  Reading the file and the final
 * byte-to-text conversion are not part of this model: the buffer is given,
 * and the result says which decoder the bytes go to and from which offset.
 */
module Encoding {

  type byte = x: int | 0 <= x < 256

  /** The encodings `getEncoding` can name; `Unknown` is its empty string. */
  datatype Charset = Utf16Be | Utf16Le | Utf8 | Unknown

  /** `getEncoding(buffer)`: the charset named by the leading byte-order mark, if any. */
  function GetEncoding(buffer: seq<byte>): (e: Charset)
    ensures e == Utf16Be <==> |buffer| >= 2 && buffer[0] == 0xfe && buffer[1] == 0xff
    ensures e == Utf16Le <==> |buffer| >= 2 && buffer[0] == 0xff && buffer[1] == 0xfe
    ensures e == Utf8 <==> |buffer| >= 3 && buffer[0] == 0xef && buffer[1] == 0xbb && buffer[2] == 0xbf
  {
    if |buffer| >= 2 then
      if buffer[0] == 0xfe && buffer[1] == 0xff then Utf16Be
      else if buffer[0] == 0xff && buffer[1] == 0xfe then Utf16Le
      else if |buffer| >= 3 && buffer[0] == 0xef && buffer[1] == 0xbb && buffer[2] == 0xbf then Utf8
      else Unknown
    else Unknown
  }

  /** The length of the byte-order mark of a charset. */
  function MarkLength(e: Charset): nat {
    match e
    case Utf16Be => 2
    case Utf16Le => 2
    case Utf8 => 3
    case Unknown => 0
  }

  /** A buffer whose charset is known is at least as long as its mark. */
  lemma MarkFits(buffer: seq<byte>)
    ensures MarkLength(GetEncoding(buffer)) <= |buffer|
    ensures GetEncoding(buffer) == Unknown <==> MarkLength(GetEncoding(buffer)) == 0
  {
  }

  /** A buffer shorter than two bytes never has a mark. */
  lemma ShortBufferUnknown(buffer: seq<byte>)
    requires |buffer| < 2
    ensures GetEncoding(buffer) == Unknown
  {
  }

  /**
   * The bytes after the swap loop.  Bytes 2k and 2k+1 change places.  On an odd
   * length the last byte takes the value of the missing byte after it:
   * `undefined`, which a byte array stores as 0.
   */
  function PairSwapped(s: seq<byte>): (r: seq<byte>)
    ensures |r| == |s|
  {
    seq(|s|, i requires 0 <= i < |s| =>
      if i % 2 == 1 then s[i - 1]
      else if i + 1 < |s| then s[i + 1]
      else 0)
  }

  /** The swap loop of the utf16be case (`readFile`), in place. */
  method SwapPairs(buffer: array<byte>)
    modifies buffer
    ensures buffer[..] == PairSwapped(old(buffer[..]))
  {
    ghost var original := buffer[..];
    var i := 0;
    while i < buffer.Length
      invariant 0 <= i <= buffer.Length + 1
      invariant i % 2 == 0
      invariant forall k :: 0 <= k < i && k < buffer.Length ==> buffer[k] == PairSwapped(original)[k]
      invariant forall k :: i <= k < buffer.Length ==> buffer[k] == original[k]
      decreases buffer.Length - i
    {
      var b := buffer[i];
      if i + 1 < buffer.Length {
        buffer[i] := buffer[i + 1];
        buffer[i + 1] := b;
      } else {
        buffer[i] := 0;
      }
      i := i + 2;
    }
    assert buffer[..] == PairSwapped(original);
  }

  /** On an even-length buffer the loop exchanges bytes 2k and 2k+1 and changes nothing else. */
  lemma SwapEven(s: seq<byte>, k: nat)
    requires |s| % 2 == 0 && 2 * k + 1 < |s|
    ensures PairSwapped(s)[2 * k] == s[2 * k + 1]
    ensures PairSwapped(s)[2 * k + 1] == s[2 * k]
  {
  }

  /** On an even-length buffer the swap undoes itself. */
  lemma SwapInvolution(s: seq<byte>)
    requires |s| % 2 == 0
    ensures PairSwapped(PairSwapped(s)) == s
  {
    var t := PairSwapped(s);
    forall i | 0 <= i < |s| ensures PairSwapped(t)[i] == s[i] {
      if i % 2 == 0 {
        assert i + 1 < |s|;
        assert (i + 1) % 2 == 1;
      }
    }
  }

  /** On an odd-length buffer the last byte is zeroed. */
  lemma SwapOddLast(s: seq<byte>)
    requires |s| % 2 == 1
    ensures PairSwapped(s)[|s| - 1] == 0
  {
  }

  /**
   * The steps of `readFile` between reading the bytes and converting them:
   * sniff the mark, swap a UTF-16BE buffer into UTF-16LE order (the `switch`
   * falls through into the utf16le case), and name the decoder and the offset
   * at which the text starts.
   */
  method PrepareText(buffer: array<byte>) returns (decoder: Charset, start: nat)
    modifies buffer
    ensures old(GetEncoding(buffer[..])) == Utf16Be ==> buffer[..] == PairSwapped(old(buffer[..]))
    ensures old(GetEncoding(buffer[..])) != Utf16Be ==> buffer[..] == old(buffer[..])
    ensures decoder == (match old(GetEncoding(buffer[..]))
                        case Utf16Be => Utf16Le
                        case Utf16Le => Utf16Le
                        case _ => Utf8)
    ensures start == MarkLength(old(GetEncoding(buffer[..])))
  {
    var e := GetEncoding(buffer[..]);
    match e
    case Utf16Be =>
      SwapPairs(buffer);
      decoder, start := Utf16Le, 2;
    case Utf16Le =>
      decoder, start := Utf16Le, 2;
    case Utf8 =>
      decoder, start := Utf8, 3;
    case Unknown =>
      decoder, start := Utf8, 0;
  }

  /** After the swap a UTF-16BE mark reads as a UTF-16LE mark. */
  lemma SwappedMarkIsLittleEndian(s: seq<byte>)
    requires GetEncoding(s) == Utf16Be
    ensures GetEncoding(PairSwapped(s)) == Utf16Le
  {
    assert PairSwapped(s)[0] == s[1];
    assert PairSwapped(s)[1] == s[0];
  }
}
