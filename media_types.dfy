/**
 * The media-type cursor of `decodeSectionMediaTypes`
 * (src/lib/decoder.ts:621-647): source `k` of a section gets the entry of
 * `x_ms_mediaTypes` at a running index, which moves by the `k`-th value of
 * the VLQ-decoded `x_ms_sourceMediaTypes` while there are values, and which
 * falls back to the last entry once it runs past the end.
 */
module MediaTypes {
  import opened Wrappers

  /** The running index after source `k`: the sum of `offsets[j]` for `j <= k` that exist. */
  function Cursor(offsets: seq<int>, k: nat): int {
    (if k == 0 then 0 else Cursor(offsets, k - 1)) + (if k < |offsets| then offsets[k] else 0)
  }

  function Sum(xs: seq<int>): int {
    if xs == [] then 0 else Sum(xs[..|xs| - 1]) + xs[|xs| - 1]
  }

  /** The cursor is a prefix sum of the offsets, and stops moving once they run out. */
  lemma {:induction false} CursorIsPrefixSum(offsets: seq<int>, k: nat)
    ensures Cursor(offsets, k) == Sum(offsets[..if k + 1 < |offsets| then k + 1 else |offsets|])
  {
    var n := if k + 1 < |offsets| then k + 1 else |offsets|;
    if k == 0 {
      if |offsets| > 0 {
        assert offsets[..1][..0] == [];
      }
    } else {
      CursorIsPrefixSum(offsets, k - 1);
      var m := if k < |offsets| then k else |offsets|;
      if k < |offsets| {
        assert offsets[..n][..m] == offsets[..m];
      } else {
        assert n == m;
      }
    }
  }

  /**
   * The media type at a cursor value: the entry there, the last entry once
   * the cursor is past the end, and `undefined` for a negative cursor or an
   * empty list.
   */
  function MediaTypeAt(types: seq<string>, cursor: int): (r: Option<string>)
    ensures 0 <= cursor < |types| ==> r == Some(types[cursor])
    ensures cursor >= |types| > 0 ==> r == Some(types[|types| - 1])
    ensures cursor < 0 || types == [] ==> r.None?
  {
    if cursor < |types| then (if 0 <= cursor then Some(types[cursor]) else None)
    else if |types| > 0 then Some(types[|types| - 1])
    else None
  }

  /** Without offsets every source gets the first entry. */
  lemma NoOffsetsFirstType(types: seq<string>, k: nat)
    requires types != []
    ensures MediaTypeAt(types, Cursor([], k)) == Some(types[0])
  {
    CursorIsPrefixSum([], k);
  }
}
