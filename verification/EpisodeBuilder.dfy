/** `graph_service/domain/episode_builder.py`: overlapping windows over a document. */
module EpisodeBuilder {
  import opened Wrappers
  import opened Text

  /** The window length actually used. */
  function Width(chunkSize: int): (n: int)
    ensures n >= 1
  {
    Max(1, chunkSize)
  }

  /** The distance between window starts. */
  function Stride(chunkSize: int, chunkOverlap: int): (step: int)
    ensures 1 <= step <= Width(chunkSize)
  {
    Max(1, Width(chunkSize) - Max(0, chunkOverlap))
  }

  function Window(doc: string, n: int, start: nat): string
    requires n >= 1
  {
    if start + n <= |doc| then doc[start..start + n] else if start <= |doc| then doc[start..] else ""
  }

  /** The stripped non-blank windows starting at `start`, `start + step`, and so on. */
  function Windows(space: Space, doc: string, n: int, step: int, start: nat): seq<string>
    requires n >= 1 && step >= 1
    decreases |doc| - start
  {
    if start >= |doc| then []
    else
      var chunk := Strip(space, Window(doc, n, start));
      (if chunk != "" then [chunk] else []) + Windows(space, doc, n, step, start + step)
  }

  function Chunks(space: Space, doc: string, chunkSize: int, chunkOverlap: int): seq<string> {
    Windows(space, doc, Width(chunkSize), Stride(chunkSize, chunkOverlap), 0)
  }

  method ChunkText(space: Space, doc: string, chunkSize: int, chunkOverlap: int) returns (chunks: seq<string>)
    ensures chunks == Chunks(space, doc, chunkSize, chunkOverlap)
  {
    hide Strip, Window;
    if doc == "" { return []; }
    var n, step := Width(chunkSize), Stride(chunkSize, chunkOverlap);
    chunks := [];
    var start := 0;
    while start < |doc|
      invariant start >= 0
      invariant chunks + Windows(space, doc, n, step, start) == Chunks(space, doc, chunkSize, chunkOverlap)
    {
      var chunk := Strip(space, Window(doc, n, start));
      if chunk != "" { chunks := chunks + [chunk]; }
      start := start + step;
    }
  }

  /** One episode per chunk, numbered from 1. */
  datatype Episode = Episode(index: nat, content: string)

  function Episodes(space: Space, doc: string, chunkSize: int, chunkOverlap: int): (r: seq<Episode>)
    ensures |r| == |Chunks(space, doc, chunkSize, chunkOverlap)|
    ensures forall i :: 0 <= i < |r| ==> r[i] == Episode(i + 1, Chunks(space, doc, chunkSize, chunkOverlap)[i])
  {
    var chunks := Chunks(space, doc, chunkSize, chunkOverlap);
    seq(|chunks|, i requires 0 <= i < |chunks| => Episode(i + 1, chunks[i]))
  }

  // ---- What the chunks are ----

  predicate Occurs(text: string, phrase: string, j: nat) {
    j + |phrase| <= |text| && text[j..j + |phrase|] == phrase
  }

  /** `phrase` occurs in `text` as one stretch. */
  ghost predicate Contains(text: string, phrase: string) {
    exists j :: Occurs(text, phrase, j)
  }

  /** The start of the `k`-th window after the one at `start`. */
  function At(start: nat, step: int, k: nat): (r: nat)
    requires step >= 1
    ensures r >= start && (k > 0 ==> r >= start + step)
    decreases k
  {
    if k == 0 then start else At(start + step, step, k - 1)
  }

  /** Where the text of each chunk of `Windows` starts in the document. */
  function Places(space: Space, doc: string, n: int, step: int, start: nat): (r: seq<nat>)
    requires n >= 1 && step >= 1
    ensures |r| == |Windows(space, doc, n, step, start)|
    decreases |doc| - start
  {
    if start >= |doc| then []
    else
      var w := Window(doc, n, start);
      (if Strip(space, w) != "" then [start + Start(space, w)] else []) + Places(space, doc, n, step, start + step)
  }

  function ChunkPlaces(space: Space, doc: string, chunkSize: int, chunkOverlap: int): (r: seq<nat>)
    ensures |r| == |Chunks(space, doc, chunkSize, chunkOverlap)|
  {
    Places(space, doc, Width(chunkSize), Stride(chunkSize, chunkOverlap), 0)
  }

  /** Positions `a` to `b` of the document lie inside one chunk. */
  ghost predicate Covered(chunks: seq<string>, places: seq<nat>, a: nat, b: nat)
    requires |places| == |chunks|
  {
    exists k :: 0 <= k < |chunks| && places[k] <= a && b <= places[k] + |chunks[k]|
  }

  /** A window that is not all whitespace is a chunk, cut where its text starts. */
  lemma {:induction false} WindowListed(space: Space, doc: string, n: int, step: int, start: nat, k: nat)
    returns (m: nat)
    requires n >= 1 && step >= 1 && At(start, step, k) < |doc|
    requires Strip(space, Window(doc, n, At(start, step, k))) != ""
    ensures m < |Windows(space, doc, n, step, start)|
    ensures var w := Window(doc, n, At(start, step, k));
      && Windows(space, doc, n, step, start)[m] == Strip(space, w)
      && Places(space, doc, n, step, start)[m] == At(start, step, k) + Start(space, w)
    decreases k
  {
    hide Strip, Start, Window;
    m := 0;
    if k > 0 {
      m := WindowListed(space, doc, n, step, start + step, k - 1);
      if Strip(space, Window(doc, n, start)) != "" { m := m + 1; }
    }
  }

  /** The last window that starts at or before `a`. */
  lemma {:induction false} WindowBefore(step: int, start: nat, a: nat) returns (k: nat)
    requires step >= 1 && start <= a
    ensures At(start, step, k) <= a < At(start, step, k) + step
    decreases a - start
  {
    if a < start + step { return 0; }
    var k' := WindowBefore(step, start + step, a);
    return k' + 1;
  }

  /** Stripping keeps every position from `a` to `b` when it starts and ends in a character. */
  lemma StripKeeps(space: Space, w: string, a: nat, b: nat)
    requires a < b <= |w| && !space(w[a]) && !space(w[b - 1])
    ensures Start(space, w) <= a && b <= Start(space, w) + |Strip(space, w)|
    ensures Strip(space, w) != ""
  {
    StripFacts(space, w);
  }

  lemma WindowAt(doc: string, n: int, start: nat)
    requires n >= 1 && start < |doc|
    ensures var w := Window(doc, n, start);
      1 <= |w| <= n && (|w| == n || start + |w| == |doc|) && start + |w| <= |doc| && w == doc[start..start + |w|]
  {
  }

  /** A phrase that starts and ends in a character lies whole inside one chunk, where it stands in the
      document, when it is no longer than a chunk and at most one character longer than the overlap. */
  lemma PhraseKept(space: Space, doc: string, chunkSize: int, chunkOverlap: int, a: nat, b: nat)
    requires a < b <= |doc| && !space(doc[a]) && !space(doc[b - 1])
    requires b - a <= Max(1, chunkSize) && b - a <= Max(0, chunkOverlap) + 1
    ensures Covered(Chunks(space, doc, chunkSize, chunkOverlap), ChunkPlaces(space, doc, chunkSize, chunkOverlap), a, b)
  {
    hide Strip, Start, Window;
    var n, step := Width(chunkSize), Stride(chunkSize, chunkOverlap);
    var k := WindowBefore(step, 0, a);
    var start := At(0, step, k);
    var w := Window(doc, n, start);
    WindowAt(doc, n, start);
    StripKeeps(space, w, a - start, b - start);
    var m := WindowListed(space, doc, n, step, 0, k);
  }

  /** No position is lost: every one that does not hold whitespace lies in some chunk. */
  lemma NothingLost(space: Space, doc: string, chunkSize: int, chunkOverlap: int, i: nat)
    requires i < |doc| && !space(doc[i])
    ensures Covered(Chunks(space, doc, chunkSize, chunkOverlap), ChunkPlaces(space, doc, chunkSize, chunkOverlap),
                    i, i + 1)
  {
    PhraseKept(space, doc, chunkSize, chunkOverlap, i, i + 1);
  }

  /** `c` is a trimmed, non-empty stretch of `doc`, starting at `i`, within the window at `start`. */
  ghost predicate Cut(space: Space, doc: string, n: int, start: nat, c: string, i: nat) {
    1 <= |c| <= n && Trim(space, c) && Occurs(doc, c, i) && start <= i && i + |c| <= start + n
  }

  lemma SliceOfSlice(doc: string, from: nat, to: nat, s: nat, e: nat)
    requires from <= to <= |doc| && s <= e <= to - from
    ensures doc[from..to][s..e] == doc[from + s..from + e]
  {
    var w := doc[from..to];
    forall i | 0 <= i < e - s ensures w[s..e][i] == doc[from + s..from + e][i] {
      assert w[s..e][i] == w[s + i] == doc[from + s + i];
    }
  }

  lemma WindowStripped(space: Space, doc: string, n: int, start: nat)
    requires n >= 1 && start < |doc| && Strip(space, Window(doc, n, start)) != ""
    ensures var w := Window(doc, n, start); Cut(space, doc, n, start, Strip(space, w), start + Start(space, w))
  {
    var w := Window(doc, n, start);
    StripFacts(space, w);
    WindowAt(doc, n, start);
    SliceOfSlice(doc, start, start + |w|, Start(space, w), Stop(space, w));
  }

  /** Every chunk is cut, at its place, from the window at some `At(start, step, j)`. */
  lemma {:induction false} ChunkOrigin(space: Space, doc: string, n: int, step: int, start: nat, k: nat)
    returns (j: nat)
    requires n >= 1 && step >= 1 && k < |Windows(space, doc, n, step, start)|
    ensures Cut(space, doc, n, At(start, step, j), Windows(space, doc, n, step, start)[k],
                Places(space, doc, n, step, start)[k])
    decreases |doc| - start
  {
    hide Strip, Start, Window, Cut;
    var listed := Strip(space, Window(doc, n, start)) != "";
    if listed { WindowStripped(space, doc, n, start); }
    if listed && k == 0 { return 0; }
    j := ChunkOrigin(space, doc, n, step, start + step, if listed then k - 1 else k);
    j := j + 1;
  }

  /** Chunks have 1 to `n` characters and no outer whitespace, and are what the document holds at their
      places. */
  lemma ChunkShape(space: Space, doc: string, chunkSize: int, chunkOverlap: int, k: nat)
    requires k < |Chunks(space, doc, chunkSize, chunkOverlap)|
    ensures var c := Chunks(space, doc, chunkSize, chunkOverlap)[k];
      && 1 <= |c| <= Max(1, chunkSize) && Trim(space, c)
      && Occurs(doc, c, ChunkPlaces(space, doc, chunkSize, chunkOverlap)[k])
  {
    var j := ChunkOrigin(space, doc, Width(chunkSize), Stride(chunkSize, chunkOverlap), 0, k);
  }

  // ---- How many ----

  function CeilDiv(x: int, step: int): int
    requires step >= 1
  {
    if x <= 0 then 0 else (x + step - 1) / step
  }

  lemma {:induction false} MulAtLeast(a: int, d: int)
    requires a >= 1 && d >= 1
    ensures a * d >= d
    decreases a
  {
    if a > 1 {
      MulAtLeast(a - 1, d);
      assert a * d == (a - 1) * d + d;
    }
  }

  lemma DivPlus(y: int, d: int)
    requires d >= 1 && y >= 0
    ensures (y + d) / d == y / d + 1
  {
    var q, q' := y / d, (y + d) / d;
    assert y == d * q + y % d && y + d == d * q' + (y + d) % d;
    var k := q' - q - 1;
    assert d * k == d * q' - d * q - d;
    if k >= 1 { MulAtLeast(k, d); }
    if k <= -1 { MulAtLeast(-k, d); }
  }

  lemma CeilDivStep(x: int, step: int)
    requires step >= 1 && x > 0
    ensures CeilDiv(x, step) == 1 + CeilDiv(x - step, step)
  {
    DivPlus(x - 1, step);
  }

  ghost predicate NoBlankWindow(space: Space, doc: string, n: int, step: int, start: nat)
    requires n >= 1 && step >= 1
  {
    forall k: nat :: At(start, step, k) < |doc| ==> !Blank(space, Window(doc, n, At(start, step, k)))
  }

  lemma NoBlankWindowStep(space: Space, doc: string, n: int, step: int, start: nat)
    requires n >= 1 && step >= 1 && start < |doc|
    ensures NoBlankWindow(space, doc, n, step, start) <==>
      !Blank(space, Window(doc, n, start)) && NoBlankWindow(space, doc, n, step, start + step)
  {
    hide Window, Blank;
    var next := start + step;
    if NoBlankWindow(space, doc, n, step, start) {
      assert At(start, step, 0) == start;
      forall k: nat | At(next, step, k) < |doc| ensures !Blank(space, Window(doc, n, At(next, step, k))) {
        assert At(start, step, k + 1) == At(next, step, k);
      }
    }
    if !Blank(space, Window(doc, n, start)) && NoBlankWindow(space, doc, n, step, next) {
      forall k: nat | At(start, step, k) < |doc| ensures !Blank(space, Window(doc, n, At(start, step, k))) {
        if k > 0 { assert At(next, step, k - 1) == At(start, step, k); }
      }
    }
  }

  lemma {:induction false} WindowCount(space: Space, doc: string, n: int, step: int, start: nat)
    requires n >= 1 && step >= 1
    ensures var count, most := |Windows(space, doc, n, step, start)|, CeilDiv(|doc| - start, step);
      count <= most && (count == most <==> NoBlankWindow(space, doc, n, step, start))
    decreases |doc| - start
  {
    hide Strip, Window, NoBlankWindow, CeilDiv;
    if start < |doc| {
      WindowCount(space, doc, n, step, start + step);
      CeilDivStep(|doc| - start, step);
      StripFacts(space, Window(doc, n, start));
      NoBlankWindowStep(space, doc, n, step, start);
    } else {
      PastTheEnd(space, doc, n, step, start);
    }
  }

  lemma PastTheEnd(space: Space, doc: string, n: int, step: int, start: nat)
    requires n >= 1 && step >= 1 && start >= |doc|
    ensures NoBlankWindow(space, doc, n, step, start) && CeilDiv(|doc| - start, step) == 0
  {
  }

  /** There are at most `ceil(len / step)` chunks, and exactly that many iff no window is all whitespace. */
  lemma ChunkCount(space: Space, doc: string, chunkSize: int, chunkOverlap: int)
    ensures var count := |Chunks(space, doc, chunkSize, chunkOverlap)|;
      var n := Max(1, chunkSize);
      var step := Max(1, n - Max(0, chunkOverlap));
      && count <= CeilDiv(|doc|, step)
      && (count == CeilDiv(|doc|, step) <==> NoBlankWindow(space, doc, n, step, 0))
  {
    hide CeilDiv, NoBlankWindow, Windows;
    WindowCount(space, doc, Width(chunkSize), Stride(chunkSize, chunkOverlap), 0);
  }

  // ---- The phrase bound cannot be improved ----

  /** One `x` just before the second window, and `y` everywhere else up to one past the first window. */
  function Probe(x: char, y: char, chunkSize: int, chunkOverlap: int): (doc: string)
    ensures |doc| == Width(chunkSize) + 1
    ensures forall i :: 0 <= i < |doc| ==> doc[i] == if i == Stride(chunkSize, chunkOverlap) - 1 then x else y
  {
    seq(Width(chunkSize) + 1, i => if i == Stride(chunkSize, chunkOverlap) - 1 then x else y)
  }

  /** For every setting, some document has a phrase one character longer that no chunk holds whole. */
  lemma PhraseBoundSharp(space: Space, x: char, y: char, chunkSize: int, chunkOverlap: int)
    returns (doc: string, a: nat)
    requires x != y && !space(x) && !space(y)
    ensures a < |doc| && !space(doc[a]) && !space(doc[|doc| - 1])
    ensures |doc| - a == Max(1, chunkSize) + 1 || |doc| - a == Max(0, chunkOverlap) + 2
    ensures |doc| - a <= Max(1, chunkSize) + 1 && |doc| - a <= Max(0, chunkOverlap) + 2
    ensures forall c :: c in Chunks(space, doc, chunkSize, chunkOverlap) ==> !Contains(c, doc[a..])
  {
    var n, step := Width(chunkSize), Stride(chunkSize, chunkOverlap);
    hide Windows, Places, Probe, Trim;
    doc, a := Probe(x, y, chunkSize, chunkOverlap), step - 1;
    forall c | c in Chunks(space, doc, chunkSize, chunkOverlap) ensures !Contains(c, doc[a..]) {
      var k :| 0 <= k < |Windows(space, doc, n, step, 0)| && Windows(space, doc, n, step, 0)[k] == c;
      var h := ChunkOrigin(space, doc, n, step, 0, k);
      forall j ensures !Occurs(c, doc[a..], j) {
        if Occurs(c, doc[a..], j) { PhraseAligned(doc, a, x, c, Places(space, doc, n, step, 0)[k], j); }
      }
    }
  }

  /** A character that occurs once fixes where a copy of the phrase it opens must lie. */
  lemma PhraseAligned(doc: string, a: nat, x: char, c: string, i: nat, j: nat)
    requires a < |doc| && forall k :: 0 <= k < |doc| ==> (doc[k] == x <==> k == a)
    requires Occurs(doc, c, i) && Occurs(c, doc[a..], j)
    ensures i + j == a
  {
    var phrase := doc[a..];
    assert c[j..j + |phrase|][0] == phrase[0] == x;
    assert doc[i..i + |c|][j] == doc[i + j];
  }

  // ---- Exactly which windows become chunks ----

  /** The stretch of at most `n` characters from `start`. */
  function Stretch(doc: string, start: nat, n: int): string
    requires start <= |doc| && n >= 1
  {
    if |doc| - start <= n then doc[start..] else doc[start..start + n]
  }

  /** `starts` lists in order exactly the multiples of `step` inside the document whose stretch is not blank,
      from `from` on. */
  ghost predicate StartsOf(space: Space, doc: string, n: int, step: int, from: nat, starts: seq<nat>)
    requires n >= 1 && step >= 1
  {
    && Increasing(starts, |doc|)
    && (forall i :: 0 <= i < |doc| ==>
          (i in starts <==> from <= i && i % step == 0 && !Blank(space, Stretch(doc, i, n))))
  }

  ghost predicate ChunksAt(space: Space, doc: string, n: int, starts: seq<nat>, chunks: seq<string>, places: seq<nat>)
    requires n >= 1 && Increasing(starts, |doc|)
  {
    && |chunks| == |starts| == |places|
    && (forall k :: 0 <= k < |starts| ==> chunks[k] == Strip(space, Stretch(doc, starts[k], n)))
    && (forall k :: 0 <= k < |starts| ==> places[k] == starts[k] + Start(space, Stretch(doc, starts[k], n)))
  }

  lemma {:induction false} WindowsExactly(space: Space, doc: string, n: int, step: int, from: nat)
    returns (starts: seq<nat>)
    requires n >= 1 && step >= 1 && from % step == 0
    ensures StartsOf(space, doc, n, step, from, starts)
    ensures ChunksAt(space, doc, n, starts, Windows(space, doc, n, step, from), Places(space, doc, n, step, from))
    decreases |doc| - from
  {
    hide Strip, Start, Blank, Window, Stretch;
    starts := [];
    if from < |doc| {
      NextMultiple(from, step);
      var later := WindowsExactly(space, doc, n, step, from + step);
      WindowIsStretch(space, doc, n, from);
      starts := if Blank(space, Stretch(doc, from, n)) then later else [from] + later;
      StartsStep(space, doc, n, step, from, later, starts);
      ChunksStep(space, doc, n, step, from, later, starts);
    }
  }

  lemma NextMultiple(from: nat, step: int)
    requires step >= 1 && from % step == 0
    ensures (from + step) % step == 0
    ensures forall i :: from < i < from + step ==> i % step != 0
  {
    ModAdd(from, step, 0, step);
    forall i | from < i < from + step ensures i % step != 0 {
      ModAdd(from, i - from, i - from, step);
    }
  }

  lemma ModUnique(x: int, step: int, q: int, r: int)
    requires step >= 1 && x == step * q + r && 0 <= r < step
    ensures x % step == r
  {
    var e := x / step - q;
    assert step * e == step * (x / step) - step * q;
    if e >= 1 { MulAtLeast(e, step); }
    if e <= -1 { MulAtLeast(-e, step); }
  }

  /** Adding `d` to a multiple of `step` leaves `d`'s remainder, `r`. */
  lemma ModAdd(m: nat, d: nat, r: nat, step: int)
    requires step >= 1 && m % step == 0 && r < step && (d == r || d == r + step)
    ensures (m + d) % step == r
  {
    var q := m / step;
    assert m == step * q;
    if d == r {
      ModUnique(m + d, step, q, r);
    } else {
      assert step * (q + 1) == step * q + step;
      ModUnique(m + d, step, q + 1, r);
    }
  }

  lemma WindowIsStretch(space: Space, doc: string, n: int, start: nat)
    requires n >= 1 && start < |doc|
    ensures Window(doc, n, start) == Stretch(doc, start, n)
    ensures Strip(space, Window(doc, n, start)) == "" <==> Blank(space, Stretch(doc, start, n))
  {
    assert doc[start..] == doc[start..|doc|];
    StripFacts(space, Stretch(doc, start, n));
  }

  lemma StartsStep(space: Space, doc: string, n: int, step: int, from: nat, later: seq<nat>, starts: seq<nat>)
    requires n >= 1 && step >= 1 && from < |doc| && from % step == 0
    requires forall i :: from < i < from + step ==> i % step != 0
    requires StartsOf(space, doc, n, step, from + step, later)
    requires starts == if Blank(space, Stretch(doc, from, n)) then later else [from] + later
    ensures StartsOf(space, doc, n, step, from, starts)
  {
    hide Blank, Stretch;
    forall k | 0 <= k < |later| ensures from < later[k] {
      assert later[k] in later;
    }
  }

  lemma ChunksStep(space: Space, doc: string, n: int, step: int, from: nat, later: seq<nat>, starts: seq<nat>)
    requires n >= 1 && step >= 1 && from < |doc| && Increasing(later, |doc|) && Increasing(starts, |doc|)
    requires ChunksAt(space, doc, n, later, Windows(space, doc, n, step, from + step),
                      Places(space, doc, n, step, from + step))
    requires starts == if Blank(space, Stretch(doc, from, n)) then later else [from] + later
    ensures ChunksAt(space, doc, n, starts, Windows(space, doc, n, step, from), Places(space, doc, n, step, from))
  {
    hide Blank, Stretch, Strip, Start, Window;
    WindowIsStretch(space, doc, n, from);
  }

  /** The chunks are, in order, the stripped stretches of at most `max(1, size)` characters that start at the
      multiples of `max(1, max(1, size) - max(0, overlap))` and are not blank. */
  lemma ChunksExactly(space: Space, doc: string, chunkSize: int, chunkOverlap: int) returns (starts: seq<nat>)
    ensures var n := Max(1, chunkSize);
      var step := Max(1, n - Max(0, chunkOverlap));
      && StartsOf(space, doc, n, step, 0, starts)
      && ChunksAt(space, doc, n, starts, Chunks(space, doc, chunkSize, chunkOverlap),
                  ChunkPlaces(space, doc, chunkSize, chunkOverlap))
  {
    hide Windows, Places, StartsOf, ChunksAt;
    starts := WindowsExactly(space, doc, Width(chunkSize), Stride(chunkSize, chunkOverlap), 0);
  }
}
