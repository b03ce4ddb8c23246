/** What `EntityExtractor.extract` returns for a reply, without naming the loops that compute it. */
module ExtractionLaws {
  import opened Wrappers
  import opened GraphModel
  import opened Text
  import opened Extraction

  /** The two names have equal keys, or that of `name` is similar to that of `kept`. */
  predicate Alike(mt: Matcher, name: string, kept: string) {
    mt.Key(name) == mt.Key(kept) || mt.similar(mt.Key(name), mt.Key(kept))
  }

  /** No item kept before item `i` is alike. */
  ghost predicate NoneAlike(mt: Matcher, items: seq<RawEntity>, kept: seq<nat>, i: nat)
    requires i < |items|
  {
    forall h :: h in kept && h < i ==> !Alike(mt, items[i].name, items[h].name)
  }

  /** The entity an item becomes when it is kept. */
  function EntityOf(mt: Matcher, item: RawEntity): Entity {
    Entity(item.id, Strip(mt.space, item.name), item.entityType, item.description)
  }

  /** `kept` lists in order exactly the items whose name is not blank and not like that of an item kept
      before; `entities` are those items, one for one. */
  ghost predicate GreedyMerge(mt: Matcher, items: seq<RawEntity>, kept: seq<nat>, entities: seq<Entity>) {
    && Increasing(kept, |items|)
    && |entities| == |kept|
    && (forall k :: 0 <= k < |kept| ==> entities[k] == EntityOf(mt, items[kept[k]]))
    && (forall i :: 0 <= i < |items| ==>
          (i in kept <==> !Blank(mt.space, items[i].name) && NoneAlike(mt, items, kept, i)))
  }

  /** `raw` names the `k`-th kept item: by an equal key, or, when no kept key is equal, as the first one its
      key is similar to. */
  ghost predicate Names(mt: Matcher, items: seq<RawEntity>, kept: seq<nat>, raw: string, k: nat)
    requires Increasing(kept, |items|)
  {
    && k < |kept|
    && (mt.Key(raw) == mt.Key(items[kept[k]].name) || (
          && (forall j :: 0 <= j < |kept| ==> mt.Key(raw) != mt.Key(items[kept[j]].name))
          && mt.similar(mt.Key(raw), mt.Key(items[kept[k]].name))
          && (forall j :: 0 <= j < k ==> !mt.similar(mt.Key(raw), mt.Key(items[kept[j]].name)))))
  }

  ghost predicate Named(mt: Matcher, items: seq<RawEntity>, kept: seq<nat>, raw: string)
    requires Increasing(kept, |items|)
  {
    exists k: nat :: Names(mt, items, kept, raw, k)
  }

  /** `e` is edge item `raw`, running between the entities its two ends name. */
  ghost predicate Links(mt: Matcher, items: seq<RawEntity>, kept: seq<nat>, raw: RawEdge, e: Edge)
    requires Increasing(kept, |items|)
  {
    exists a: nat, b: nat :: Names(mt, items, kept, raw.source, a) && Names(mt, items, kept, raw.target, b)
      && e == Edge(raw.id, items[kept[a]].id, items[kept[b]].id, raw.relationType, raw.description)
  }

  /** `linked` lists in order exactly the edge items with both ends named; `edges` are those, one for one. */
  ghost predicate Linked(mt: Matcher, items: seq<RawEntity>, kept: seq<nat>, raws: seq<RawEdge>,
                         linked: seq<nat>, edges: seq<Edge>)
    requires Increasing(kept, |items|)
  {
    && Increasing(linked, |raws|)
    && |edges| == |linked|
    && (forall k :: 0 <= k < |linked| ==> Links(mt, items, kept, raws[linked[k]], edges[k]))
    && (forall i :: 0 <= i < |raws| ==>
          (i in linked <==> Named(mt, items, kept, raws[i].source) && Named(mt, items, kept, raws[i].target)))
  }

  // ---- The merge ----

  /** Entry `k` of the map is the `k`-th kept item under its key. */
  ghost predicate Mapped(mt: Matcher, items: seq<RawEntity>, kept: seq<nat>, m: seq<Entry>) {
    && Increasing(kept, |items|) && |m| == |kept|
    && forall k :: 0 <= k < |m| ==> m[k] == Entry(mt.Key(items[kept[k]].name), EntityOf(mt, items[kept[k]]))
  }

  ghost predicate KeptExactly(mt: Matcher, items: seq<RawEntity>, kept: seq<nat>) {
    forall i :: 0 <= i < |items| ==>
      (i in kept <==> !Blank(mt.space, items[i].name) && NoneAlike(mt, items, kept, i))
  }

  lemma {:induction false} MergeIsGreedy(mt: Matcher, items: seq<RawEntity>) returns (kept: seq<nat>)
    ensures Increasing(kept, |items|)
    ensures Mapped(mt, items, kept, NameMap(mt, items)) && KeptExactly(mt, items, kept)
  {
    hide Strip, Blank, Similar, Matcher.Key, Mapped, KeptExactly, Offer, EntityOf;
    if items == [] {
      kept := [];
      NothingKept(mt);
    } else {
      var n := |items| - 1;
      var init := items[..n];
      var before := MergeIsGreedy(mt, init);
      OfferMeans(mt, NameMap(mt, init), items[n]);
      MatchIffAlike(mt, init, before, NameMap(mt, init), items[n].name);
      kept := if !Blank(mt.space, items[n].name) && Similar(mt, mt.Key(items[n].name), Keys(NameMap(mt, init))).None?
        then before + [n] else before;
      MappedStep(mt, items, before, kept, NameMap(mt, init));
      KeptStep(mt, items, before, kept);
    }
  }

  lemma OfferMeans(mt: Matcher, m: seq<Entry>, item: RawEntity)
    ensures Offer(mt, m, item) ==
      if !Blank(mt.space, item.name) && Similar(mt, mt.Key(item.name), Keys(m)).None?
      then m + [Entry(mt.Key(item.name), EntityOf(mt, item))] else m
  {
    StripFacts(mt.space, item.name);
  }

  lemma NothingKept(mt: Matcher)
    ensures Mapped(mt, [], [], []) && KeptExactly(mt, [], [])
  {
  }

  /** A name matches the map exactly when it is like the name of a kept item. */
  lemma MatchIffAlike(mt: Matcher, items: seq<RawEntity>, kept: seq<nat>, m: seq<Entry>, name: string)
    requires Mapped(mt, items, kept, m)
    ensures Similar(mt, mt.Key(name), Keys(m)).None? <==>
      forall h :: h in kept ==> !Alike(mt, name, items[h].name)
  {
    hide Matcher.Key;
    var keys := Keys(m);
    if Similar(mt, mt.Key(name), keys).None? {
      forall h | h in kept ensures !Alike(mt, name, items[h].name) {
        var k :| 0 <= k < |kept| && kept[k] == h;
        assert keys[k] in keys && keys[k] == mt.Key(items[h].name);
      }
    }
    if forall h :: h in kept ==> !Alike(mt, name, items[h].name) {
      forall key | key in keys ensures key != mt.Key(name) && !mt.similar(mt.Key(name), key) {
        var k :| 0 <= k < |keys| && keys[k] == key;
        assert kept[k] in kept;
      }
    }
  }

  lemma MappedStep(mt: Matcher, items: seq<RawEntity>, before: seq<nat>, kept: seq<nat>, m: seq<Entry>)
    requires items != [] && Mapped(mt, items[..|items| - 1], before, m)
    requires kept == before || kept == before + [|items| - 1]
    ensures Increasing(kept, |items|)
    ensures Mapped(mt, items, kept,
      if kept == before then m
      else m + [Entry(mt.Key(items[|items| - 1].name), EntityOf(mt, items[|items| - 1]))])
  {
    hide Strip, Matcher.Key;
  }

  lemma KeptStep(mt: Matcher, items: seq<RawEntity>, before: seq<nat>, kept: seq<nat>)
    requires items != [] && Increasing(before, |items| - 1) && KeptExactly(mt, items[..|items| - 1], before)
    requires kept == (if !Blank(mt.space, items[|items| - 1].name)
                        && (forall h :: h in before ==> !Alike(mt, items[|items| - 1].name, items[h].name))
                      then before + [|items| - 1] else before)
    ensures KeptExactly(mt, items, kept)
  {
    hide Blank, Alike;
    var n := |items| - 1;
    var init := items[..n];
    forall i | 0 <= i < |items|
      ensures i in kept <==> !Blank(mt.space, items[i].name) && NoneAlike(mt, items, kept, i)
    {
      if i < n {
        assert init[i] == items[i];
        assert NoneAlike(mt, items, kept, i) <==> NoneAlike(mt, init, before, i) by {
          forall h | h in before ensures init[h] == items[h] {}
        }
      } else {
        assert n !in before;
        forall h | h in before ensures h < n {}
      }
    }
  }

  // ---- The edges ----

  lemma {:induction false} FirstSimilarAt(mt: Matcher, lower: string, keys: seq<string>) returns (k: nat)
    requires FirstSimilar(mt, lower, keys).Some?
    ensures k < |keys| && FirstSimilar(mt, lower, keys) == Some(keys[k]) && mt.similar(lower, keys[k])
    ensures forall j :: 0 <= j < k ==> !mt.similar(lower, keys[j])
  {
    k := 0;
    if !mt.similar(lower, keys[0]) {
      k := FirstSimilarAt(mt, lower, keys[1..]);
      k := k + 1;
    }
  }

  lemma LookupAt(m: seq<Entry>, k: nat)
    requires k < |m| && forall i :: 0 <= i < |m| && i != k ==> m[i].key != m[k].key
    ensures Lookup(m, m[k].key) == Some(m[k].ent)
  {
    var r := Lookup(m, m[k].key);
    assert Keys(m)[k] in Keys(m);
    var i :| 0 <= i < |m| && m[i] == Entry(m[k].key, r.value);
  }

  /** An end resolves to the entity it names, and to none exactly when it names none. */
  lemma ResolvesToNamed(mt: Matcher, items: seq<RawEntity>, kept: seq<nat>, m: seq<Entry>, raw: string)
    requires mt.Valid() && Mapped(mt, items, kept, m) && Filed(mt, m) && Unmatched(mt, Keys(m))
    ensures Resolve(mt, m, raw).Some? <==> Named(mt, items, kept, raw)
    ensures Resolve(mt, m, raw).Some? ==>
      exists k: nat :: Names(mt, items, kept, raw, k) && Resolve(mt, m, raw).value == EntityOf(mt, items[kept[k]])
  {
    hide Strip, Lookup, FirstSimilar, Matcher.Key, Filed;
    var lower, keys := mt.Key(raw), Keys(m);
    assert forall k :: 0 <= k < |keys| ==> keys[k] == mt.Key(items[kept[k]].name);
    if lower in keys {
      var k :| 0 <= k < |keys| && keys[k] == lower;
      assert Names(mt, items, kept, raw, k);
      LookupAt(m, k);
    } else if Similar(mt, lower, keys).Some? {
      var k := FirstSimilarAt(mt, lower, keys);
      assert Names(mt, items, kept, raw, k);
      LookupAt(m, k);
      KeyNotEmpty(mt, m, k);
    } else {
      forall k: nat ensures !Names(mt, items, kept, raw, k) {
        if k < |kept| { assert keys[k] in keys; }
      }
    }
  }

  lemma KeyNotEmpty(mt: Matcher, m: seq<Entry>, k: nat)
    requires mt.Valid() && Filed(mt, m) && k < |m|
    ensures m[k].key != ""
  {
  }

  lemma LinksOne(mt: Matcher, items: seq<RawEntity>, kept: seq<nat>, m: seq<Entry>, raw: RawEdge)
    requires mt.Valid() && Mapped(mt, items, kept, m) && Filed(mt, m) && Unmatched(mt, Keys(m))
    ensures ResolveEdge(mt, m, raw) != [] <==> Named(mt, items, kept, raw.source) && Named(mt, items, kept, raw.target)
    ensures ResolveEdge(mt, m, raw) != [] ==>
      |ResolveEdge(mt, m, raw)| == 1 && Links(mt, items, kept, raw, ResolveEdge(mt, m, raw)[0])
  {
    hide Resolve, Named, Names, Filed, Unmatched;
    ResolvesToNamed(mt, items, kept, m, raw.source);
    ResolvesToNamed(mt, items, kept, m, raw.target);
  }

  lemma {:induction false} LinkedExactly(mt: Matcher, items: seq<RawEntity>, kept: seq<nat>, m: seq<Entry>,
                                         raws: seq<RawEdge>) returns (linked: seq<nat>)
    requires mt.Valid() && Increasing(kept, |items|)
    requires Mapped(mt, items, kept, m) && Filed(mt, m) && Unmatched(mt, Keys(m))
    ensures Linked(mt, items, kept, raws, linked, ResolveEdges(mt, m, raws))
  {
    hide *;
    linked := [];
    if raws == [] {
      NothingLinked(mt, items, kept);
      ResolveNone(mt, m);
    } else {
      var n := |raws| - 1;
      var before := LinkedExactly(mt, items, kept, m, raws[..n]);
      LinksOne(mt, items, kept, m, raws[n]);
      var last := ResolveEdge(mt, m, raws[n]);
      ResolveEdgesStep(mt, m, raws, n);
      assert raws[..n + 1] == raws;
      linked := if last != [] then before + [n] else before;
      LinkedStep(mt, items, kept, raws, before, linked, ResolveEdges(mt, m, raws[..n]), last);
    }
  }

  lemma ResolveNone(mt: Matcher, m: seq<Entry>)
    ensures ResolveEdges(mt, m, []) == []
  {
  }

  lemma NothingLinked(mt: Matcher, items: seq<RawEntity>, kept: seq<nat>)
    requires Increasing(kept, |items|)
    ensures Linked(mt, items, kept, [], [], [])
  {
  }

  lemma LinkedStep(mt: Matcher, items: seq<RawEntity>, kept: seq<nat>, raws: seq<RawEdge>, before: seq<nat>,
                   linked: seq<nat>, edges: seq<Edge>, last: seq<Edge>)
    requires Increasing(kept, |items|) && raws != []
    requires Linked(mt, items, kept, raws[..|raws| - 1], before, edges)
    requires var raw := raws[|raws| - 1];
      && (last != [] <==> Named(mt, items, kept, raw.source) && Named(mt, items, kept, raw.target))
      && (last != [] ==> |last| == 1 && Links(mt, items, kept, raw, last[0]))
    requires linked == if last != [] then before + [|raws| - 1] else before
    ensures Linked(mt, items, kept, raws, linked, edges + last)
  {
    hide Named, Links, Increasing;
    var n := |raws| - 1;
    PickNext(before, n);
    forall k | 0 <= k < |linked| ensures Links(mt, items, kept, raws[linked[k]], (edges + last)[k]) {
      if k < |before| {
        assert before[k] < n by { PickBelow(before, n, k); }
        assert raws[..n][before[k]] == raws[before[k]];
      }
    }
    forall i | 0 <= i < |raws|
      ensures i in linked <==> Named(mt, items, kept, raws[i].source) && Named(mt, items, kept, raws[i].target)
    {
      if i < n { assert raws[..n][i] == raws[i]; }
    }
  }

  // ---- The whole extraction ----

  /** A reply that parses gives the greedy merge of its items and the edges whose two ends name kept items. */
  lemma ExtractedExactly(mt: Matcher, items: seq<RawEntity>, raws: seq<RawEdge>)
    returns (kept: seq<nat>, linked: seq<nat>)
    requires mt.Valid()
    ensures var r := Extracted(mt, Parsed(items, raws));
      && r.Ok?
      && GreedyMerge(mt, items, kept, r.value.entities)
      && Linked(mt, items, kept, raws, linked, r.value.edges)
  {
    hide Strip, Blank, Alike, Matcher.Key, NameMap, ResolveEdges, Linked, Unmatched;
    var m := NameMap(mt, items);
    kept := MergeIsGreedy(mt, items);
    KeptFiled(mt, items);
    KeptUnmatched(mt, items);
    linked := LinkedExactly(mt, items, kept, m, raws);
  }

  /** A call that raises is an error, and a reply that is not JSON yields an empty batch. */
  lemma ExtractedOtherwise(mt: Matcher, reply: Reply)
    ensures Extracted(mt, reply).Err? <==> reply.Raised?
    ensures reply.InvalidJson? ==> Extracted(mt, reply).value.entities == [] && Extracted(mt, reply).value.edges == []
  {
  }

  /** Every item that is not blank has its host among the entities returned, and every edge item whose two
      ends equal names of such items, up to case and outer whitespace, has its edge between the hosts. */
  lemma ExtractedKeepsNamed(mt: Matcher, items: seq<RawEntity>, raws: seq<RawEdge>, k: nat, i: nat, j: nat)
    requires mt.Valid() && k < |raws| && i < |items| && j < |items|
    requires !Blank(mt.space, items[i].name) && mt.Key(raws[k].source) == mt.Key(items[i].name)
    requires !Blank(mt.space, items[j].name) && mt.Key(raws[k].target) == mt.Key(items[j].name)
    ensures Host(mt, items, i).Some? && Host(mt, items, j).Some?
    ensures var b := Extracted(mt, Parsed(items, raws)).value;
      && Host(mt, items, i).value in b.entities && Host(mt, items, j).value in b.entities
      && Edge(raws[k].id, Host(mt, items, i).value.id, Host(mt, items, j).value.id,
              raws[k].relationType, raws[k].description) in b.edges
  {
    hide Strip, Blank, Matcher.Key, NameMap, ResolveEdges, Resolve, Host;
    StripFacts(mt.space, items[i].name);
    StripFacts(mt.space, items[j].name);
    ResolutionStable(mt, items, i, raws[k].source);
    ResolutionStable(mt, items, j, raws[k].target);
    NamedEdgesSurvive(mt, items, raws, k, i, j);
  }

  /** What `Host` is: the item itself when it is kept, else the kept item its name matches. */
  lemma HostNamed(mt: Matcher, items: seq<RawEntity>, kept: seq<nat>, i: nat) returns (k: nat)
    requires mt.Valid() && i < |items| && !Blank(mt.space, items[i].name)
    requires Mapped(mt, items, kept, NameMap(mt, items))
    ensures Names(mt, items, kept, items[i].name, k) && Host(mt, items, i) == Some(EntityOf(mt, items[kept[k]]))
  {
    hide Strip, Blank, Matcher.Key, NameMap, Resolve, Host, Unmatched, Filed;
    StripFacts(mt.space, items[i].name);
    KeptFiled(mt, items);
    KeptUnmatched(mt, items);
    ResolutionStable(mt, items, i, items[i].name);
    ResolvesToNamed(mt, items, kept, NameMap(mt, items), items[i].name);
    k :| Names(mt, items, kept, items[i].name, k)
      && Resolve(mt, NameMap(mt, items), items[i].name).value == EntityOf(mt, items[kept[k]]);
  }
}
