/** `_build_upload_evidence` of `thinker/orchestrator.py`: uploads under a character budget. */
module UploadEvidence {
  import opened Wrappers
  import opened Text

  const UPLOAD_EVIDENCE_CHAR_BUDGET: nat := 12000

  /** The stripped texts of the files that hold any. */
  function FileTexts(space: Space, files: seq<string>): (r: seq<string>)
    ensures Usable(space, r)
  {
    if files == [] then []
    else
      StripFacts(space, files[0]);
      var text := Strip(space, files[0]);
      (if text != "" then [text] else []) + FileTexts(space, files[1..])
  }

  /** The seed text stands in only when no file holds text. */
  function Sources(space: Space, files: seq<string>, seed: string): (r: seq<string>)
    ensures Usable(space, r)
  {
    StripFacts(space, seed);
    var texts := FileTexts(space, files);
    if texts == [] && Strip(space, seed) != "" then [Strip(space, seed)] else texts
  }

  ghost predicate Usable(space: Space, sources: seq<string>) {
    forall i :: 0 <= i < |sources| ==> sources[i] != "" && Trim(space, sources[i])
  }

  function Take(s: string, n: int): string {
    if n <= 0 then "" else if n >= |s| then s else s[..n]
  }

  /** The evidence the remaining sources yield under the remaining budget. */
  function Spend(space: Space, sources: seq<string>, budget: int): seq<string> {
    if sources == [] || budget <= 0 then []
    else
      var truncated := Strip(space, Take(sources[0], budget));
      if truncated == "" then Spend(space, sources[1..], budget)
      else [truncated] + Spend(space, sources[1..], budget - |truncated|)
  }

  method BuildUploadEvidence(space: Space, files: seq<string>, seed: string) returns (evidence: seq<string>)
    ensures evidence == Spend(space, Sources(space, files, seed), UPLOAD_EVIDENCE_CHAR_BUDGET)
  {
    hide Strip, Take, Sources;
    var sources := Sources(space, files, seed);
    evidence := [];
    var remaining: int := UPLOAD_EVIDENCE_CHAR_BUDGET;
    assert sources[0..] == sources;
    for i := 0 to |sources|
      invariant evidence + Spend(space, sources[i..], remaining)
             == Spend(space, sources, UPLOAD_EVIDENCE_CHAR_BUDGET)
    {
      assert sources[i..][1..] == sources[i + 1..];
      if remaining <= 0 { break; }
      var truncated := Strip(space, Take(sources[i], remaining));
      if truncated == "" { continue; }
      evidence := evidence + [truncated];
      remaining := remaining - |truncated|;
    }
  }

  function Total(xs: seq<string>): nat {
    if xs == [] then 0 else |xs[0]| + Total(xs[1..])
  }

  /** What truncation does to one source: a non-empty prefix within the budget, all of it when it fits. */
  lemma TruncatedSource(space: Space, source: string, budget: int)
    requires source != "" && Trim(space, source) && budget > 0
    ensures var t := Strip(space, Take(source, budget));
      && t != "" && t <= source && |t| <= budget && Trim(space, t)
      && (|source| <= budget ==> t == source)
  {
    var head := Take(source, budget);
    StripStarted(space, head);
    StripFacts(space, head);
    if |source| <= budget { StripTrimmed(space, source); }
  }

  /** Entry `i` is a non-empty trimmed prefix of source `i`; the budget is never exceeded; and either every
      source has an entry or the budget is used up exactly. */
  lemma {:induction false} SpendWithinBudget(space: Space, sources: seq<string>, budget: int)
    requires Usable(space, sources) && budget >= 0
    ensures var ev := Spend(space, sources, budget);
      && |ev| <= |sources|
      && (forall i :: 0 <= i < |ev| ==> ev[i] != "" && ev[i] <= sources[i] && Trim(space, ev[i]))
      && Total(ev) <= budget
      && (|ev| == |sources| || Total(ev) == budget)
  {
    hide Strip, Trim, Take;
    if sources != [] && budget > 0 {
      TruncatedSource(space, sources[0], budget);
      var t := Strip(space, Take(sources[0], budget));
      SpendWithinBudget(space, sources[1..], budget - |t|);
      var ev := Spend(space, sources, budget);
      assert ev[1..] == Spend(space, sources[1..], budget - |t|);
      assert forall i :: 1 <= i < |ev| ==> ev[i] == ev[1..][i - 1] && sources[i] == sources[1..][i - 1];
    }
  }

  lemma {:induction false} TotalUpTo(xs: seq<string>, i: nat)
    requires i < |xs|
    ensures Total(xs[..i]) + |xs[i]| <= Total(xs)
  {
    if i > 0 {
      TotalUpTo(xs[1..], i - 1);
      assert xs[..i][1..] == xs[1..][..i - 1];
    }
  }

  /** An entry is cut short exactly when its source overruns what the earlier entries have left. */
  lemma {:induction false} CutExactlyWhenOverrun(space: Space, sources: seq<string>, budget: int, i: nat)
    requires Usable(space, sources) && budget >= 0 && i < |Spend(space, sources, budget)|
    ensures |Spend(space, sources, budget)| <= |sources|
    ensures var ev := Spend(space, sources, budget);
      ev[i] != sources[i] <==> Total(ev[..i]) + |sources[i]| > budget
    decreases i
  {
    hide Strip, Trim, Take;
    SpendWithinBudget(space, sources, budget);
    TotalUpTo(Spend(space, sources, budget), i);
    TruncatedSource(space, sources[0], budget);
    var t := Strip(space, Take(sources[0], budget));
    var ev := Spend(space, sources, budget);
    assert ev[1..] == Spend(space, sources[1..], budget - |t|);
    if i > 0 {
      CutExactlyWhenOverrun(space, sources[1..], budget - |t|, i - 1);
      assert ev[..i][1..] == ev[1..][..i - 1];
    }
  }

  /** Nothing is cut and nothing is dropped exactly when the sources fit the budget together. */
  lemma {:induction false} SpendAllWhenFits(space: Space, sources: seq<string>, budget: int)
    requires Usable(space, sources) && budget >= 0
    ensures Total(sources) <= budget <==> Spend(space, sources, budget) == sources
  {
    hide Strip, Trim, Take;
    if Total(sources) <= budget {
      if sources != [] {
        TruncatedSource(space, sources[0], budget);
        SpendAllWhenFits(space, sources[1..], budget - |sources[0]|);
      }
    }
    SpendWithinBudget(space, sources, budget);
  }

  /** The sources are the non-blank files, stripped, in order; the seed is used only when all are blank. */
  lemma {:induction false} FileTextsAppend(space: Space, files: seq<string>, f: string)
    ensures FileTexts(space, files + [f])
         == FileTexts(space, files) + (if Blank(space, f) then [] else [Strip(space, f)])
  {
    hide Strip, Blank, Trim, Usable;
    StripFacts(space, f);
    if files == [] {
      assert files + [f] == [f] && [f][1..] == [];
      assert FileTexts(space, []) == [];
    } else {
      assert (files + [f])[1..] == files[1..] + [f];
      FileTextsAppend(space, files[1..], f);
    }
  }

  /** There is no evidence exactly when every file and the seed text are blank. */
  lemma NoEvidenceIff(space: Space, files: seq<string>, seed: string)
    ensures Spend(space, Sources(space, files, seed), UPLOAD_EVIDENCE_CHAR_BUDGET) == []
       <==> Blank(space, seed) && forall f :: f in files ==> Blank(space, f)
  {
    hide Strip, Blank, Take, Trim;
    StripFacts(space, seed);
    NoFileTextsIff(space, files);
    var sources := Sources(space, files, seed);
    if sources != [] { TruncatedSource(space, sources[0], UPLOAD_EVIDENCE_CHAR_BUDGET); }
  }

  lemma {:induction false} NoFileTextsIff(space: Space, files: seq<string>)
    ensures FileTexts(space, files) == [] <==> forall f :: f in files ==> Blank(space, f)
  {
    hide Strip, Blank;
    if files != [] {
      StripFacts(space, files[0]);
      NoFileTextsIff(space, files[1..]);
      assert files == [files[0]] + files[1..];
    }
  }

  // ---- Exactly what the evidence is ----

  /** Entry `e` is `source` when it fits in `left` characters, and else what is left of its first `left`
      characters once the whitespace at their end is dropped. */
  ghost predicate CutTo(space: Space, source: string, left: int, e: string) {
    if |source| <= left then e == source
    else
      && 1 <= |e| <= left && e == source[..|e|] && !space(e[|e| - 1])
      && forall k :: |e| <= k < left ==> space(source[k])
  }

  lemma TruncatedExactly(space: Space, source: string, budget: int)
    requires source != "" && Trim(space, source) && budget > 0
    ensures CutTo(space, source, budget, Strip(space, Take(source, budget)))
  {
    TruncatedSource(space, source, budget);
    var head := Take(source, budget);
    StripFacts(space, head);
    if |source| > budget {
      var t := Strip(space, head);
      assert head[0] == source[0] && !space(head[0]);
      assert Start(space, head) == 0;
      forall k | |t| <= k < budget ensures space(source[k]) { assert head[k] == source[k]; }
    }
  }

  /** Every entry keeps as much of its source as the budget left by the earlier entries allows. */
  lemma {:induction false} SpendExactly(space: Space, sources: seq<string>, budget: int, i: nat)
    requires Usable(space, sources) && budget >= 0 && i < |Spend(space, sources, budget)|
    ensures |Spend(space, sources, budget)| <= |sources|
    ensures var ev := Spend(space, sources, budget); CutTo(space, sources[i], budget - Total(ev[..i]), ev[i])
    decreases i
  {
    hide Strip, Trim, Take, CutTo;
    SpendWithinBudget(space, sources, budget);
    TruncatedSource(space, sources[0], budget);
    TruncatedExactly(space, sources[0], budget);
    var t := Strip(space, Take(sources[0], budget));
    var ev := Spend(space, sources, budget);
    assert ev[1..] == Spend(space, sources[1..], budget - |t|);
    if i > 0 {
      SpendExactly(space, sources[1..], budget - |t|, i - 1);
      assert ev[..i][1..] == ev[1..][..i - 1];
    }
  }

  /** The uploads that hold text are the sources; the seed matters only when every upload is blank. */
  lemma SourcesExactly(space: Space, files: seq<string>, seed: string)
    ensures (exists f :: f in files && !Blank(space, f)) ==> Sources(space, files, seed) == FileTexts(space, files)
    ensures (forall f :: f in files ==> Blank(space, f)) ==>
      Sources(space, files, seed) == if Blank(space, seed) then [] else [Strip(space, seed)]
  {
    hide Strip, Blank, Trim;
    StripFacts(space, seed);
    NoFileTextsIff(space, files);
  }

  lemma NoFileTexts(space: Space)
    ensures FileTexts(space, []) == []
  {
  }

  /** `files[picks[k]]` is the `k`-th upload that holds text. */
  lemma {:induction false} FileTextsExactly(space: Space, files: seq<string>) returns (picks: seq<nat>)
    ensures Increasing(picks, |files|) && |picks| == |FileTexts(space, files)|
    ensures forall i :: 0 <= i < |files| ==> (i in picks <==> !Blank(space, files[i]))
    ensures forall k :: 0 <= k < |picks| ==> FileTexts(space, files)[k] == Strip(space, files[picks[k]])
  {
    hide *;
    picks := [];
    PickNone();
    NoFileTexts(space);
    if files != [] {
      var n := |files| - 1;
      var before := FileTextsExactly(space, files[..n]);
      FileTextsAppend(space, files[..n], files[n]);
      assert files[..n] + [files[n]] == files;
      picks := if Blank(space, files[n]) then before else before + [n];
      PickNext(before, n);
    }
  }

  /** The evidence of a request: at most 12000 characters, one entry per source as far as they reach, and
      each entry as long as they allow. */
  lemma EvidenceExactly(space: Space, files: seq<string>, seed: string)
    ensures var sources := Sources(space, files, seed);
      var ev := Spend(space, sources, UPLOAD_EVIDENCE_CHAR_BUDGET);
      && Total(ev) <= 12000 && |ev| <= |sources|
      && (|ev| < |sources| ==> Total(ev) == 12000)
      && forall i :: 0 <= i < |ev| ==> CutTo(space, sources[i], 12000 - Total(ev[..i]), ev[i])
  {
    hide CutTo, Spend, Sources;
    var sources := Sources(space, files, seed);
    SpendWithinBudget(space, sources, UPLOAD_EVIDENCE_CHAR_BUDGET);
    var ev := Spend(space, sources, UPLOAD_EVIDENCE_CHAR_BUDGET);
    forall i | 0 <= i < |ev| ensures CutTo(space, sources[i], 12000 - Total(ev[..i]), ev[i]) {
      SpendExactly(space, sources, UPLOAD_EVIDENCE_CHAR_BUDGET, i);
    }
  }
}
