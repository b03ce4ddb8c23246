/** `graph/entity_extractor.py`: greedy merging of extracted names, then resolution of edge endpoints. */
module Extraction {
  import opened Wrappers
  import opened GraphModel
  import opened Text

  /** What the extractor is parametric in: `str.lower`, whitespace, and
      `SequenceMatcher(None, lower, key).ratio() >= threshold`, which need not be symmetric. */
  datatype Matcher = Matcher(lower: string -> string, similar: (string, string) -> bool, space: Space) {
    /** Lowering never empties a name, as Python's `str.lower` guarantees. */
    ghost predicate Valid() {
      forall s :: s != "" ==> lower(s) != ""
    }

    function Key(raw: string): string {
      lower(Strip(space, raw))
    }
  }

  /** One extracted item; `id` is the uuid its document would get. */
  datatype RawEntity = RawEntity(name: string, entityType: string, description: string, id: Id)
  datatype RawEdge = RawEdge(source: string, target: string, relationType: string, description: string, id: Id)

  /** What the model call produced: an exception, text that is not JSON, or items. */
  datatype Reply = Raised | InvalidJson | Parsed(entities: seq<RawEntity>, edges: seq<RawEdge>)

  datatype Batch = Batch(entities: seq<Entity>, edges: seq<Edge>)

  /** An insertion-ordered dictionary entry of `name_map`. */
  datatype Entry = Entry(key: string, ent: Entity)

  function Keys(m: seq<Entry>): (r: seq<string>)
    ensures |r| == |m| && forall i :: 0 <= i < |m| ==> r[i] == m[i].key
  {
    seq(|m|, i requires 0 <= i < |m| => m[i].key)
  }

  function Entities(m: seq<Entry>): (r: seq<Entity>)
    ensures |r| == |m| && forall i :: 0 <= i < |m| ==> r[i] == m[i].ent
  {
    seq(|m|, i requires 0 <= i < |m| => m[i].ent)
  }

  /** `name_map.get(key)`. */
  function Lookup(m: seq<Entry>, key: string): (r: Option<Entity>)
    ensures r.Some? ==> exists i :: 0 <= i < |m| && m[i] == Entry(key, r.value)
    ensures r.None? <==> key !in Keys(m)
  {
    if m == [] then None
    else if m[0].key == key then Some(m[0].ent)
    else
      assert Keys(m) == [m[0].key] + Keys(m[1..]);
      Lookup(m[1..], key)
  }

  /** The first key, in insertion order, that the lowered name is similar to. */
  function FirstSimilar(mt: Matcher, lower: string, keys: seq<string>): (r: Option<string>)
    ensures r.Some? ==> r.value in keys && mt.similar(lower, r.value)
    ensures r.None? <==> forall k :: k in keys ==> !mt.similar(lower, k)
  {
    if keys == [] then None
    else if mt.similar(lower, keys[0]) then Some(keys[0])
    else FirstSimilar(mt, lower, keys[1..])
  }

  function Similar(mt: Matcher, lower: string, keys: seq<string>): Option<string> {
    if lower in keys then Some(lower) else FirstSimilar(mt, lower, keys)
  }

  /** One turn of the entity loop on `name_map`. */
  function Offer(mt: Matcher, m: seq<Entry>, item: RawEntity): seq<Entry> {
    var name := Strip(mt.space, item.name);
    if name == "" || Similar(mt, mt.lower(name), Keys(m)).Some? then m
    else m + [Entry(mt.lower(name), Entity(item.id, name, item.entityType, item.description))]
  }

  /** `name_map` once all items are offered. */
  function NameMap(mt: Matcher, items: seq<RawEntity>): seq<Entry> {
    if items == [] then [] else Offer(mt, NameMap(mt, items[..|items| - 1]), items[|items| - 1])
  }

  /** `name_map.get(self._find_similar(name, name_map) or name.lower())`; an empty key counts as no match. */
  function Resolve(mt: Matcher, m: seq<Entry>, raw: string): Option<Entity> {
    var lower := mt.Key(raw);
    var found := Similar(mt, lower, Keys(m));
    Lookup(m, if found.Some? && found.value != "" then found.value else lower)
  }

  function ResolveEdge(mt: Matcher, m: seq<Entry>, item: RawEdge): seq<Edge> {
    var src, tgt := Resolve(mt, m, item.source), Resolve(mt, m, item.target);
    if src.Some? && tgt.Some? then [Edge(item.id, src.value.id, tgt.value.id, item.relationType, item.description)]
    else []
  }

  function ResolveEdges(mt: Matcher, m: seq<Entry>, items: seq<RawEdge>): seq<Edge> {
    if items == [] then []
    else ResolveEdges(mt, m, items[..|items| - 1]) + ResolveEdge(mt, m, items[|items| - 1])
  }

  function Extracted(mt: Matcher, reply: Reply): Result<Batch, ()> {
    match reply
    case Raised => Err(())
    case InvalidJson => Ok(Batch([], []))
    case Parsed(items, edges) =>
      var m := NameMap(mt, items);
      Ok(Batch(Entities(m), ResolveEdges(mt, m, edges)))
  }

  class EntityExtractor {
    const matcher: Matcher

    constructor (matcher: Matcher)
      ensures this.matcher == matcher
    {
      this.matcher := matcher;
    }

    method FindSimilar(name: string, m: seq<Entry>) returns (r: Option<string>)
      ensures r == Similar(matcher, matcher.lower(name), Keys(m))
    {
      var lower := matcher.lower(name);
      var keys := Keys(m);
      if lower in keys { return Some(lower); }
      for i := 0 to |keys|
        invariant FirstSimilar(matcher, lower, keys) == FirstSimilar(matcher, lower, keys[i..])
      {
        if matcher.similar(lower, keys[i]) { return Some(keys[i]); }
        assert keys[i..][1..] == keys[i + 1..];
      }
      return None;
    }

    /** Endpoint resolution, which the source writes out once for each end. */
    method ResolveName(raw: string, m: seq<Entry>) returns (r: Option<Entity>)
      ensures r == Resolve(matcher, m, raw)
    {
      var name := Strip(matcher.space, raw);
      var found := FindSimilar(name, m);
      var key := if found.Some? && found.value != "" then found.value else matcher.lower(name);
      r := Lookup(m, key);
    }

    method Extract(reply: Reply) returns (r: Result<Batch, ()>)
      ensures r == Extracted(matcher, reply)
    {
      hide Similar, FirstSimilar, Lookup, Strip;
      if reply.Raised? { return Err(()); }
      if reply.InvalidJson? { return Ok(Batch([], [])); }
      var entities: seq<Entity> := [];
      var nameMap: seq<Entry> := [];
      for i := 0 to |reply.entities|
        invariant nameMap == NameMap(matcher, reply.entities[..i])
        invariant entities == Entities(nameMap)
      {
        var item := reply.entities[i];
        assert reply.entities[..i + 1][..i] == reply.entities[..i];
        var name := Strip(matcher.space, item.name);
        if name == "" { continue; }
        var canonical := FindSimilar(name, nameMap);
        if canonical.None? {
          var ent := Entity(item.id, name, item.entityType, item.description);
          entities := entities + [ent];
          nameMap := nameMap + [Entry(matcher.lower(name), ent)];
        }
      }
      assert reply.entities[..|reply.entities|] == reply.entities;
      hide NameMap, Offer, Resolve;
      var edges: seq<Edge> := [];
      assert reply.edges[..0] == [];
      for i := 0 to |reply.edges|
        invariant edges == ResolveEdges(matcher, nameMap, reply.edges[..i])
      {
        var item := reply.edges[i];
        ResolveEdgesStep(matcher, nameMap, reply.edges, i);
        var srcEnt := ResolveName(item.source, nameMap);
        var tgtEnt := ResolveName(item.target, nameMap);
        if srcEnt.Some? && tgtEnt.Some? {
          edges := edges + [Edge(item.id, srcEnt.value.id, tgtEnt.value.id, item.relationType, item.description)];
        }
      }
      assert reply.edges[..|reply.edges|] == reply.edges;
      return Ok(Batch(entities, edges));
    }
  }

  lemma ResolveEdgesStep(mt: Matcher, m: seq<Entry>, items: seq<RawEdge>, i: nat)
    requires i < |items|
    ensures ResolveEdges(mt, m, []) == []
    ensures ResolveEdges(mt, m, items[..i + 1]) == ResolveEdges(mt, m, items[..i]) + ResolveEdge(mt, m, items[i])
  {
    assert items[..i + 1][..i] == items[..i];
  }

  // ---- The merge ----

  /** No later key equals or is similar to an earlier one. */
  ghost predicate Unmatched(mt: Matcher, keys: seq<string>) {
    forall i, j :: 0 <= i < j < |keys| ==> keys[i] != keys[j] && !mt.similar(keys[j], keys[i])
  }

  lemma {:induction false} NameMapGrows(mt: Matcher, items: seq<RawEntity>, i: nat)
    requires i <= |items|
    ensures NameMap(mt, items[..i]) <= NameMap(mt, items)
    decreases |items|
  {
    if i < |items| {
      NameMapGrows(mt, items[..|items| - 1], i);
      assert items[..|items| - 1][..i] == items[..i];
    } else {
      assert items[..i] == items;
    }
  }

  /** Every entry is filed under the lowered form of its stripped, non-empty name. */
  ghost predicate Filed(mt: Matcher, m: seq<Entry>) {
    forall i :: 0 <= i < |m| ==>
      m[i].key == mt.lower(m[i].ent.name) && m[i].ent.name != "" && Trim(mt.space, m[i].ent.name)
  }

  lemma {:induction false} KeptFiled(mt: Matcher, items: seq<RawEntity>)
    ensures Filed(mt, NameMap(mt, items))
  {
    hide Similar, Strip;
    if items != [] {
      KeptFiled(mt, items[..|items| - 1]);
      StripFacts(mt.space, items[|items| - 1].name);
    }
  }

  lemma UnmatchedAppend(mt: Matcher, keys: seq<string>, k: string)
    requires Unmatched(mt, keys) && Similar(mt, k, keys).None?
    ensures Unmatched(mt, keys + [k])
  {
    assert forall i :: 0 <= i < |keys| ==> keys[i] in keys;
  }

  /** Kept names never match one another, later against earlier. */
  lemma {:induction false} KeptUnmatched(mt: Matcher, items: seq<RawEntity>)
    ensures Unmatched(mt, Keys(NameMap(mt, items)))
  {
    hide Similar, Strip, Unmatched;
    if items != [] {
      var init, item := items[..|items| - 1], items[|items| - 1];
      KeptUnmatched(mt, init);
      var m, m' := NameMap(mt, init), NameMap(mt, items);
      if m' != m {
        UnmatchedAppend(mt, Keys(m), mt.Key(item.name));
        assert Keys(m') == Keys(m) + [mt.Key(item.name)];
      }
    } else {
      NoKeys(mt);
    }
  }

  lemma NoKeys(mt: Matcher)
    ensures Unmatched(mt, Keys([]))
  {
  }

  /** A dropped name is blank, or its lowered form equals or is similar to the key of an entry kept earlier. */
  lemma DroppedMatchesEarlier(mt: Matcher, items: seq<RawEntity>, i: nat)
    requires i < |items|
    requires NameMap(mt, items[..i + 1]) == NameMap(mt, items[..i])
    requires Strip(mt.space, items[i].name) != ""
    ensures exists k :: (
      && k in Keys(NameMap(mt, items[..i]))
      && (mt.Key(items[i].name) == k || mt.similar(mt.Key(items[i].name), k)))
  {
    assert items[..i + 1][..i] == items[..i];
    var m := NameMap(mt, items[..i]);
    var found := Similar(mt, mt.Key(items[i].name), Keys(m));
    assert found.value in Keys(m);
  }

  /** The entity that item `i` was kept as or merged into, decided when the item was offered. */
  function Host(mt: Matcher, items: seq<RawEntity>, i: nat): Option<Entity>
    requires i < |items|
  {
    var before := NameMap(mt, items[..i]);
    var found := Similar(mt, mt.Key(items[i].name), Keys(before));
    if found.Some? then Lookup(before, found.value)
    else Some(Entity(items[i].id, Strip(mt.space, items[i].name), items[i].entityType, items[i].description))
  }

  lemma TailOfConcat<T>(a: seq<T>, b: seq<T>)
    requires a != []
    ensures (a + b)[0] == a[0] && (a + b)[1..] == a[1..] + b
  {
  }

  lemma KeysTail(m: seq<Entry>, key: string)
    requires key in Keys(m)
    ensures m != [] && (key == m[0].key || key in Keys(m[1..]))
  {
    assert m != [];
    assert Keys(m) == [m[0].key] + Keys(m[1..]);
  }

  lemma {:induction false} LookupGrows(m: seq<Entry>, more: seq<Entry>, key: string)
    requires key in Keys(m)
    ensures Lookup(m + more, key) == Lookup(m, key)
  {
    KeysTail(m, key);
    TailOfConcat(m, more);
    if m[0].key != key { LookupGrows(m[1..], more, key); }
  }

  lemma {:induction false} FirstSimilarGrows(mt: Matcher, lower: string, keys: seq<string>, more: seq<string>)
    requires FirstSimilar(mt, lower, keys).Some?
    ensures FirstSimilar(mt, lower, keys + more) == FirstSimilar(mt, lower, keys)
  {
    if !mt.similar(lower, keys[0]) {
      TailOfConcat(keys, more);
      FirstSimilarGrows(mt, lower, keys[1..], more);
    }
  }

  /** A name once merged by similarity never becomes a key of its own. */
  lemma {:induction false} NeverKeyLater(mt: Matcher, items: seq<RawEntity>, i: nat, lower: string)
    requires i <= |items|
    requires lower !in Keys(NameMap(mt, items[..i])) && FirstSimilar(mt, lower, Keys(NameMap(mt, items[..i]))).Some?
    ensures lower !in Keys(NameMap(mt, items))
    decreases |items|
  {
    hide FirstSimilar, Strip;
    if i < |items| {
      var init := items[..|items| - 1];
      assert init[..i] == items[..i];
      NeverKeyLater(mt, init, i, lower);
      NameMapGrows(mt, init, i);
      var early, m := NameMap(mt, items[..i]), NameMap(mt, init);
      assert Keys(m) == Keys(early) + Keys(m[|early|..]);
      FirstSimilarGrows(mt, lower, Keys(early), Keys(m[|early|..]));
      var m' := NameMap(mt, items);
      if m' != m {
        assert Keys(m') == Keys(m) + [mt.Key(items[|items| - 1].name)];
      }
    } else {
      assert items[..i] == items;
    }
  }

  /** The match found against the final map is the one found when the name was first offered. */
  lemma SimilarStable(mt: Matcher, items: seq<RawEntity>, i: nat, lower: string)
    requires i <= |items|
    requires Similar(mt, lower, Keys(NameMap(mt, items[..i]))).Some?
    ensures Similar(mt, lower, Keys(NameMap(mt, items))) == Similar(mt, lower, Keys(NameMap(mt, items[..i])))
  {
    var early, m := NameMap(mt, items[..i]), NameMap(mt, items);
    NameMapGrows(mt, items, i);
    assert Keys(m) == Keys(early) + Keys(m[|early|..]);
    if lower !in Keys(early) {
      NeverKeyLater(mt, items, i, lower);
      FirstSimilarGrows(mt, lower, Keys(early), Keys(m[|early|..]));
    }
  }

  /** Keys in the map are never empty, so the `or` in edge resolution never discards a match. */
  lemma ResolveBySimilar(mt: Matcher, items: seq<RawEntity>, raw: string)
    requires mt.Valid()
    ensures var m, lower := NameMap(mt, items), mt.Key(raw);
      Resolve(mt, m, raw) == Lookup(m, OrElse(Similar(mt, lower, Keys(m)), lower))
  {
    KeptFiled(mt, items);
  }

  lemma LookupAfter(mt: Matcher, items: seq<RawEntity>, i: nat, key: string)
    requires i <= |items| && key in Keys(NameMap(mt, items[..i]))
    ensures Lookup(NameMap(mt, items), key) == Lookup(NameMap(mt, items[..i]), key)
  {
    var early, m := NameMap(mt, items[..i]), NameMap(mt, items);
    NameMapGrows(mt, items, i);
    assert m == early + m[|early|..];
    LookupGrows(early, m[|early|..], key);
  }

  /** An edge endpoint that equals an extracted name up to case and outer whitespace resolves, against the
      final map, to the very entity that name was kept as or merged into. */
  lemma ResolutionStable(mt: Matcher, items: seq<RawEntity>, i: nat, endpoint: string)
    requires mt.Valid() && i < |items|
    requires Strip(mt.space, items[i].name) != ""
    requires mt.Key(endpoint) == mt.Key(items[i].name)
    ensures Resolve(mt, NameMap(mt, items), endpoint) == Host(mt, items, i)
    ensures Host(mt, items, i).Some? && Host(mt, items, i).value in Entities(NameMap(mt, items))
  {
    hide FirstSimilar, Strip, Lookup, Resolve;
    var lower := mt.Key(endpoint);
    var before, after := NameMap(mt, items[..i]), NameMap(mt, items[..i + 1]);
    assert items[..i + 1][..i] == items[..i];
    ResolveBySimilar(mt, items, endpoint);
    var found := Similar(mt, lower, Keys(before));
    if found.Some? {
      SimilarStable(mt, items, i, lower);
      LookupAfter(mt, items, i, found.value);
    } else {
      assert Keys(after) == Keys(before) + [lower];
      LookupNew(before, after[|before|]);
      assert lower in Keys(after);
      SimilarStable(mt, items, i + 1, lower);
      LookupAfter(mt, items, i + 1, lower);
    }
    LookupInside(NameMap(mt, items), OrElse(found, lower));
  }

  lemma LookupInside(m: seq<Entry>, key: string)
    ensures Lookup(m, key).Some? ==> Lookup(m, key).value in Entities(m)
  {
    var r := Lookup(m, key);
    if r.Some? {
      var i :| 0 <= i < |m| && m[i] == Entry(key, r.value);
      assert Entities(m)[i] == r.value;
    }
  }

  lemma {:induction false} LookupNew(m: seq<Entry>, e: Entry)
    requires e.key !in Keys(m)
    ensures Lookup(m + [e], e.key) == Some(e.ent)
  {
    if m != [] {
      assert Keys(m) == [m[0].key] + Keys(m[1..]);
      TailOfConcat(m, [e]);
      LookupNew(m[1..], e);
    }
  }

  // ---- The edges ----

  /** Every edge of a batch runs between entities of the same batch. */
  ghost predicate SelfContained(b: Batch) {
    forall e :: e in b.edges ==>
      (exists s :: s in b.entities && s.id == e.source) && (exists t :: t in b.entities && t.id == e.target)
  }

  lemma {:induction false} ResolvedEdgesInside(mt: Matcher, m: seq<Entry>, items: seq<RawEdge>)
    ensures SelfContained(Batch(Entities(m), ResolveEdges(mt, m, items)))
  {
    hide Resolve, Lookup;
    if items != [] {
      var item := items[|items| - 1];
      ResolvedEdgesInside(mt, m, items[..|items| - 1]);
      ResolveInside(mt, m, item.source);
      ResolveInside(mt, m, item.target);
    }
  }

  lemma ResolveInside(mt: Matcher, m: seq<Entry>, raw: string)
    ensures Resolve(mt, m, raw).Some? ==> Resolve(mt, m, raw).value in Entities(m)
  {
    var found := Similar(mt, mt.Key(raw), Keys(m));
    LookupInside(m, if found.Some? && found.value != "" then found.value else mt.Key(raw));
  }

  /** Extraction never returns an edge with an endpoint outside the entities it returns. */
  lemma ExtractionSelfContained(mt: Matcher, reply: Reply)
    ensures Extracted(mt, reply).Ok? ==> SelfContained(Extracted(mt, reply).value)
  {
    if reply.Parsed? { ResolvedEdgesInside(mt, NameMap(mt, reply.entities), reply.edges); }
  }

  /** An item whose two endpoints name extracted entities always becomes an edge between their hosts. */
  lemma NamedEdgesSurvive(mt: Matcher, items: seq<RawEntity>, edges: seq<RawEdge>, k: nat, i: nat, j: nat)
    requires mt.Valid() && k < |edges| && i < |items| && j < |items|
    requires Strip(mt.space, items[i].name) != "" && mt.Key(edges[k].source) == mt.Key(items[i].name)
    requires Strip(mt.space, items[j].name) != "" && mt.Key(edges[k].target) == mt.Key(items[j].name)
    ensures Host(mt, items, i).Some? && Host(mt, items, j).Some?
    ensures Edge(edges[k].id, Host(mt, items, i).value.id, Host(mt, items, j).value.id,
                 edges[k].relationType, edges[k].description) in ResolveEdges(mt, NameMap(mt, items), edges)
  {
    ResolutionStable(mt, items, i, edges[k].source);
    ResolutionStable(mt, items, j, edges[k].target);
    ResolvedStays(mt, NameMap(mt, items), edges, k);
  }

  lemma {:induction false} ResolvedStays(mt: Matcher, m: seq<Entry>, edges: seq<RawEdge>, k: nat)
    requires k < |edges|
    ensures forall e :: e in ResolveEdge(mt, m, edges[k]) ==> e in ResolveEdges(mt, m, edges)
    decreases |edges|
  {
    hide ResolveEdge;
    if k < |edges| - 1 {
      ResolvedStays(mt, m, edges[..|edges| - 1], k);
    }
  }

  /** And every edge comes from an item whose two endpoints resolved, running between those entities. */
  lemma {:induction false} EdgesComeFromItems(mt: Matcher, m: seq<Entry>, edges: seq<RawEdge>, e: Edge)
    requires e in ResolveEdges(mt, m, edges)
    ensures exists k :: (
      && 0 <= k < |edges| && e.id == edges[k].id
      && Resolve(mt, m, edges[k].source).Some? && e.source == Resolve(mt, m, edges[k].source).value.id
      && Resolve(mt, m, edges[k].target).Some? && e.target == Resolve(mt, m, edges[k].target).value.id)
  {
    hide Resolve;
    var init, last := edges[..|edges| - 1], edges[|edges| - 1];
    if e in ResolveEdges(mt, m, init) {
      EdgesComeFromItems(mt, m, init, e);
      var k :| 0 <= k < |init| && e.id == init[k].id
        && Resolve(mt, m, init[k].source).Some? && e.source == Resolve(mt, m, init[k].source).value.id
        && Resolve(mt, m, init[k].target).Some? && e.target == Resolve(mt, m, init[k].target).value.id;
      assert edges[k] == init[k];
    } else {
      assert e in ResolveEdge(mt, m, last) && edges[|edges| - 1] == last;
    }
  }

  /** Merging again what was kept keeps all of it: the result is a fixed point. */
  lemma {:induction false} MergeIdempotent(mt: Matcher, items: seq<RawEntity>)
    ensures NameMap(mt, AsItems(NameMap(mt, items))) == NameMap(mt, items)
  {
    KeptUnmatched(mt, items);
    KeptFiled(mt, items);
    UnmatchedIsFixed(mt, NameMap(mt, items));
  }

  function AsItems(m: seq<Entry>): (r: seq<RawEntity>)
    ensures |r| == |m|
    ensures forall i :: 0 <= i < |m| ==>
      r[i] == RawEntity(m[i].ent.name, m[i].ent.entityType, m[i].ent.description, m[i].ent.id)
  {
    seq(|m|, i requires 0 <= i < |m| =>
      RawEntity(m[i].ent.name, m[i].ent.entityType, m[i].ent.description, m[i].ent.id))
  }

  lemma {:induction false} UnmatchedIsFixed(mt: Matcher, m: seq<Entry>)
    requires Unmatched(mt, Keys(m))
    requires Filed(mt, m)
    ensures NameMap(mt, AsItems(m)) == m
  {
    hide FirstSimilar, Strip;
    if m != [] {
      var init, last := m[..|m| - 1], m[|m| - 1];
      assert Keys(init) == Keys(m)[..|init|];
      UnmatchedIsFixed(mt, init);
      assert AsItems(m)[..|init|] == AsItems(init);
      StripTrimmed(mt.space, last.ent.name);
      assert m == init + [last];
      forall k | k in Keys(init) ensures k != last.key && !mt.similar(last.key, k) {
        var i :| 0 <= i < |init| && Keys(init)[i] == k;
        assert Keys(m)[i] == k && Keys(m)[|m| - 1] == last.key;
      }
    }
  }
}
