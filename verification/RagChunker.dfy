/** `_chunk_text` of `graph/graph_rag.py`: chunks that end just after a sentence boundary when there is one. */
module RagChunker {

  /** In priority order. */
  const SEPARATORS: seq<string> := [". ", ".\n", "\n\n", "\n"]

  predicate OccursAt(text: string, sep: string, i: int) {
    0 <= i && i + |sep| <= |text| && text[i..i + |sep|] == sep
  }

  /** `text.rfind(sep, lo, hi)`: the last occurrence inside `[lo, hi)`, or -1. */
  function RFind(text: string, sep: string, lo: nat, hi: nat): (r: int)
    requires hi <= |text|
    ensures r == -1 || (lo <= r && r + |sep| <= hi && OccursAt(text, sep, r))
    ensures forall i :: lo <= i && r < i && i + |sep| <= hi ==> !OccursAt(text, sep, i)
    decreases hi
  {
    if lo + |sep| > hi then -1
    else if OccursAt(text, sep, hi - |sep|) then hi - |sep|
    else if hi == 0 then -1
    else RFind(text, sep, lo, hi - 1)
  }

  /** Where a chunk of `text[start..]` ends, trying the separators from the `k`-th on. */
  function EndFrom(text: string, start: nat, end: nat, k: nat): (r: nat)
    requires start < end <= |text| && k <= |SEPARATORS|
    ensures start < r <= end
    decreases |SEPARATORS| - k
  {
    if k == |SEPARATORS| then end
    else
      var i := RFind(text, SEPARATORS[k], start, end);
      if i > start then i + |SEPARATORS[k]| else EndFrom(text, start, end, k + 1)
  }

  /** The end of the chunk starting at `start`. */
  function ChunkEnd(text: string, start: nat, size: nat): (r: nat)
    requires start < |text| && size >= 1
    ensures start < r <= |text| && r <= start + size
  {
    if start + size >= |text| then |text| else EndFrom(text, start, start + size, 0)
  }

  /** The recursive form: cut one chunk off the front, split what is left. */
  function Split(text: string, size: nat): seq<string>
    requires size >= 1
    decreases |text|
  {
    if text == "" then []
    else
      var c := ChunkEnd(text, 0, size);
      [text[..c]] + Split(text[c..], size)
  }

  method ChunkText(text: string, chunkSize: nat) returns (chunks: seq<string>)
    requires chunkSize >= 1
    ensures chunks == Split(text, chunkSize)
  {
    hide ChunkEnd, EndFrom;
    chunks := [];
    var start := 0;
    assert text[0..] == text;
    while start < |text|
      invariant 0 <= start <= |text|
      invariant chunks + Split(text[start..], chunkSize) == Split(text, chunkSize)
      decreases |text| - start
    {
      var end := FindEnd(text, start, chunkSize);
      ChunkEndOnSuffix(text, start, chunkSize);
      assert text[start..][..end - start] == text[start..end];
      assert text[start..][end - start..] == text[end..];
      chunks := chunks + [text[start..end]];
      start := end;
    }
  }

  /** The separator loop, which leaves at the first separator found strictly after `start`. */
  method FindEnd(text: string, start: nat, chunkSize: nat) returns (end: nat)
    requires start < |text| && chunkSize >= 1
    ensures end == ChunkEnd(text, start, chunkSize)
  {
    end := if start + chunkSize <= |text| then start + chunkSize else |text|;
    if end < |text| {
      for k := 0 to |SEPARATORS|
        invariant end == start + chunkSize
        invariant EndFrom(text, start, end, k) == ChunkEnd(text, start, chunkSize)
      {
        var idx := RFind(text, SEPARATORS[k], start, end);
        if idx > start {
          end := idx + |SEPARATORS[k]|;
          break;
        }
      }
    }
  }

  // ---- The loop works on suffixes ----

  lemma {:induction false} RFindOnSuffix(text: string, sep: string, start: nat, hi: nat)
    requires start <= hi <= |text|
    ensures RFind(text, sep, start, hi)
         == var i := RFind(text[start..], sep, 0, hi - start); if i == -1 then -1 else start + i
  {
    var tail := text[start..];
    forall i | start <= i && i + |sep| <= |text| ensures OccursAt(text, sep, i) <==> OccursAt(tail, sep, i - start) {
      assert tail[i - start..i - start + |sep|] == text[i..i + |sep|];
    }
    RFindUnique(text, sep, start, hi, tail);
  }

  lemma {:induction false} RFindUnique(text: string, sep: string, start: nat, hi: nat, tail: string)
    requires start <= hi <= |text| && |tail| == |text| - start
    requires forall i :: start <= i && i + |sep| <= |text| ==>
      (OccursAt(text, sep, i) <==> OccursAt(tail, sep, i - start))
    ensures RFind(text, sep, start, hi) == var i := RFind(tail, sep, 0, hi - start); if i == -1 then -1 else start + i
  {
    var r, i := RFind(text, sep, start, hi), RFind(tail, sep, 0, hi - start);
    if r != -1 { assert OccursAt(tail, sep, r - start); }
    if i != -1 { assert OccursAt(tail, sep, start + i - start) && OccursAt(text, sep, start + i); }
  }

  lemma {:induction false} EndFromOnSuffix(text: string, start: nat, end: nat, k: nat)
    requires start < end <= |text| && k <= |SEPARATORS|
    ensures EndFrom(text, start, end, k) == start + EndFrom(text[start..], 0, end - start, k)
    decreases |SEPARATORS| - k
  {
    hide RFind, OccursAt;
    if k < |SEPARATORS| {
      RFindOnSuffix(text, SEPARATORS[k], start, end);
      EndFromOnSuffix(text, start, end, k + 1);
    }
  }

  lemma ChunkEndOnSuffix(text: string, start: nat, size: nat)
    requires start < |text| && size >= 1
    ensures ChunkEnd(text, start, size) == start + ChunkEnd(text[start..], 0, size)
  {
    hide EndFrom, RFind;
    if start + size < |text| { EndFromOnSuffix(text, start, start + size, 0); }
  }

  // ---- What the chunks are ----

  function Concat(chunks: seq<string>): string {
    if chunks == [] then "" else chunks[0] + Concat(chunks[1..])
  }

  /** The chunks concatenate to exactly the text. */
  lemma {:induction false} SplitConcat(text: string, size: nat)
    requires size >= 1
    ensures Concat(Split(text, size)) == text
    decreases |text|
  {
    hide ChunkEnd;
    if text != "" {
      var c := ChunkEnd(text, 0, size);
      SplitConcat(text[c..], size);
      assert Split(text, size)[1..] == Split(text[c..], size);
      assert text == text[..c] + text[c..];
    }
  }

  /** Every chunk has 1 to `size` characters. */
  lemma {:induction false} SplitSizes(text: string, size: nat)
    requires size >= 1
    ensures forall c :: c in Split(text, size) ==> 1 <= |c| <= size
    decreases |text|
  {
    hide ChunkEnd;
    if text != "" { SplitSizes(text[ChunkEnd(text, 0, size)..], size); }
  }

  /** `sep` occurs strictly after the start of `text`, wholly within its first `size` characters. */
  ghost predicate Found(text: string, sep: string, size: nat) {
    exists i :: 1 <= i && i + |sep| <= size && OccursAt(text, sep, i)
  }

  /** `c` is just after the last such occurrence. */
  ghost predicate EndsAfterLast(text: string, sep: string, size: nat, c: nat) {
    && 1 <= c - |sep| && c <= size && OccursAt(text, sep, c - |sep|)
    && forall i :: c - |sep| < i && i + |sep| <= size ==> !OccursAt(text, sep, i)
  }

  /** `c` is a correct length for the first chunk of `text`: the whole text when it fits; otherwise just
      after the last in-window occurrence of the first separator that has one strictly after the start;
      the full `size` when none has. */
  ghost predicate RightLength(text: string, size: nat, c: nat) {
    if |text| <= size then c == |text|
    else
      || (c == size && forall k :: 0 <= k < |SEPARATORS| ==> !Found(text, SEPARATORS[k], size))
      || (exists k :: 0 <= k < |SEPARATORS| && EndsAfterLast(text, SEPARATORS[k], size, c)
           && forall j :: 0 <= j < k ==> !Found(text, SEPARATORS[j], size))
  }

  lemma {:induction false} EndFromRight(text: string, size: nat, k: nat)
    requires 1 <= size < |text| && k <= |SEPARATORS|
    requires forall j :: 0 <= j < k ==> !Found(text, SEPARATORS[j], size)
    ensures RightLength(text, size, EndFrom(text, 0, size, k))
    decreases |SEPARATORS| - k
  {
    if k < |SEPARATORS| {
      var sep := SEPARATORS[k];
      var i := RFind(text, sep, 0, size);
      if i > 0 {
        assert EndsAfterLast(text, sep, size, i + |sep|);
      } else {
        EndFromRight(text, size, k + 1);
      }
    }
  }

  /** Chunk `i` has the right length for the text that was left when it was cut. */
  lemma {:induction false} SplitBoundaries(text: string, size: nat, i: nat)
    requires size >= 1 && i < |Split(text, size)|
    ensures var left := Concat(Split(text, size)[i..]);
      && Split(text, size)[i] <= left
      && RightLength(left, size, |Split(text, size)[i]|)
    decreases i
  {
    hide RightLength, Found, EndsAfterLast;
    var chunks, c := Split(text, size), ChunkEnd(text, 0, size);
    assert chunks[1..] == Split(text[c..], size);
    if i == 0 {
      SplitConcat(text, size);
      assert chunks[0..] == chunks;
      FirstLengthRight(text, size);
    } else {
      SplitBoundaries(text[c..], size, i - 1);
      assert chunks[i..] == chunks[1..][i - 1..];
    }
  }

  lemma FirstLengthRight(text: string, size: nat)
    requires size >= 1 && text != ""
    ensures RightLength(text, size, ChunkEnd(text, 0, size))
  {
    if size < |text| { EndFromRight(text, size, 0); }
  }
}
