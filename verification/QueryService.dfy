/** `graph_service/domain/query_service.py`: the local context of each node of a graph read. */
module QueryService {
  import opened Wrappers

  type Uuid = string

  datatype Node = Node(uuid: Uuid, name: string, labels: seq<string>, summary: string)

  datatype Link = Link(source: Uuid, target: Uuid, name: string, fact: string)

  datatype Direction = Outgoing | Incoming

  /** An entry of `related_edges`; `other` is the target of an outgoing edge, the source of an incoming one. */
  datatype RelatedEdge = RelatedEdge(direction: Direction, edgeName: string, fact: string, other: Uuid)

  datatype EntityContext = EntityContext(node: Node, relatedEdges: seq<RelatedEdge>, relatedNodes: seq<Node>)

  /** How `e` appears in the context of node `u`: at its source first, so a loop once. */
  function RelatedAt(u: Uuid, e: Link): seq<RelatedEdge> {
    if e.source == u then [RelatedEdge(Outgoing, e.name, e.fact, e.target)]
    else if e.target == u then [RelatedEdge(Incoming, e.name, e.fact, e.source)]
    else []
  }

  function Related(u: Uuid, edges: seq<Link>): seq<RelatedEdge> {
    if edges == [] then [] else Related(u, edges[..|edges| - 1]) + RelatedAt(u, edges[|edges| - 1])
  }

  /** Python's ordering of strings, by code point. */
  predicate Before(a: string, b: string) {
    b != "" && (a == "" || a[0] < b[0] || (a[0] == b[0] && Before(a[1..], b[1..])))
  }

  ghost predicate Sorted(ids: seq<Uuid>) {
    forall i, j :: 0 <= i < j < |ids| ==> Before(ids[i], ids[j])
  }

  lemma {:induction false} BeforeTransitive(a: string, b: string, c: string)
    requires Before(a, b) && Before(b, c)
    ensures Before(a, c)
    decreases |a|
  {
    if a != "" && a[0] == b[0] && b[0] == c[0] { BeforeTransitive(a[1..], b[1..], c[1..]); }
  }

  lemma {:induction false} BeforeTotal(a: string, b: string)
    ensures Before(a, b) || Before(b, a) || a == b
    ensures !(Before(a, b) && Before(b, a)) && !Before(a, a)
    decreases |a|
  {
    if a != "" { BeforeTotal(a[1..], a[1..]); }
    if a != "" && b != "" && a[0] == b[0] {
      BeforeTotal(a[1..], b[1..]);
      assert a == [a[0]] + a[1..] && b == [b[0]] + b[1..];
    }
  }

  /** `sorted(ids)`: a library sort, here by insertion. */
  function Insert(id: Uuid, ids: seq<Uuid>): (r: seq<Uuid>)
    requires Sorted(ids) && id !in ids
    ensures Sorted(r) && forall x :: x in r <==> x in ids || x == id
  {
    if ids == [] then [id]
    else if Before(id, ids[0]) then
      assert forall i :: 1 <= i < |ids| ==> Before(id, ids[i]) by {
        forall i | 1 <= i < |ids| ensures Before(id, ids[i]) { BeforeTransitive(id, ids[0], ids[i]); }
      }
      [id] + ids
    else
      BeforeTotal(id, ids[0]);
      var rest := Insert(id, ids[1..]);
      assert forall i :: 0 <= i < |rest| ==> Before(ids[0], rest[i]) by {
        forall i | 0 <= i < |rest| ensures Before(ids[0], rest[i]) {
          assert rest[i] in rest;
          if rest[i] != id {
            var j :| 0 <= j < |ids[1..]| && ids[1..][j] == rest[i];
            assert ids[1..][j] == ids[j + 1];
          }
        }
      }
      [ids[0]] + rest
  }

  method SortedIds(ids: set<Uuid>) returns (r: seq<Uuid>)
    ensures Sorted(r) && forall x :: x in r <==> x in ids
  {
    r := [];
    var rest := ids;
    while rest != {}
      invariant rest <= ids && Sorted(r)
      invariant forall x :: x in r <==> x in ids - rest
      decreases rest
    {
      var x :| x in rest;
      rest := rest - {x};
      r := Insert(x, r);
    }
  }

  /** `a` comes first when, where they first differ, it has ended or has the lower character. */
  lemma {:induction false} BeforeMeaning(a: string, b: string)
    ensures Before(a, b) <==> exists k :: 0 <= k <= |a| && k < |b| && a[..k] == b[..k] && (k == |a| || a[k] < b[k])
    decreases |a|
  {
    if a != "" && b != "" && a[0] == b[0] {
      BeforeMeaning(a[1..], b[1..]);
      if Before(a, b) {
        var a', b' := a[1..], b[1..];
        var k :| 0 <= k <= |a'| && k < |b'| && a'[..k] == b'[..k] && (k == |a'| || a'[k] < b'[k]);
        assert a[..k + 1] == [a[0]] + a[1..][..k] && b[..k + 1] == [b[0]] + b[1..][..k];
      }
      if k :| 0 <= k <= |a| && k < |b| && a[..k] == b[..k] && (k == |a| || a[k] < b[k]) {
        assert a[1..][..k - 1] == a[..k][1..] == b[..k][1..] == b[1..][..k - 1];
      }
    } else if b != "" && (a == "" || a[0] < b[0]) {
      assert a[..0] == b[..0];
    } else if a != "" && b != "" {
      forall k | 0 < k <= |a| && k < |b| ensures a[..k] != b[..k] {
        assert a[..k][0] == a[0] && b[..k][0] == b[0];
      }
    }
  }

  /** `{node.uuid: node for node in nodes}`: the last node under each uuid. */
  function NodeMap(nodes: seq<Node>): (r: map<Uuid, Node>)
    ensures forall u :: u in r ==> r[u] in nodes && r[u].uuid == u
    ensures forall n :: n in nodes ==> n.uuid in r
  {
    if nodes == [] then map[]
    else
      var last := nodes[|nodes| - 1];
      assert forall n :: n in nodes ==> n in nodes[..|nodes| - 1] || n == last;
      NodeMap(nodes[..|nodes| - 1])[last.uuid := last]
  }

  /** When nodes share a uuid the last of them is the one in the map. */
  lemma {:induction false} NodeMapTakesLast(nodes: seq<Node>, u: Uuid) returns (i: nat)
    requires u in NodeMap(nodes)
    ensures i < |nodes| && nodes[i] == NodeMap(nodes)[u]
    ensures forall j :: i < j < |nodes| ==> nodes[j].uuid != u
    decreases |nodes|
  {
    hide *;
    i := |nodes| - 1;
    NodeMapStep(nodes);
    if nodes[i].uuid != u { i := NodeMapTakesLast(nodes[..i], u); }
  }

  lemma NodeMapStep(nodes: seq<Node>)
    ensures nodes == [] ==> NodeMap(nodes) == map[]
    ensures nodes != [] ==>
      var last := nodes[|nodes| - 1]; NodeMap(nodes) == NodeMap(nodes[..|nodes| - 1])[last.uuid := last]
  {
  }

  /** The ids at the other ends of the edges at `u`. */
  ghost predicate Adjoins(u: Uuid, edges: seq<Link>, v: Uuid) {
    exists e :: e in edges && ((e.source == u && e.target == v) || (e.source != u && e.target == u && e.source == v))
  }

  /** What the context of a node is. */
  ghost predicate IsContextOf(node: Node, nodeMap: map<Uuid, Node>, edges: seq<Link>, r: EntityContext) {
    && r.node == node
    && r.relatedEdges == Related(node.uuid, edges)
    && (forall i, j :: 0 <= i < j < |r.relatedNodes| ==> Before(r.relatedNodes[i].uuid, r.relatedNodes[j].uuid))
    && (forall n :: n in r.relatedNodes <==>
          n.uuid in nodeMap && nodeMap[n.uuid] == n && Adjoins(node.uuid, edges, n.uuid))
  }

  method SerializeEntity(node: Node, nodeMap: map<Uuid, Node>, edges: seq<Link>) returns (r: EntityContext)
    requires forall u :: u in nodeMap ==> nodeMap[u].uuid == u
    ensures IsContextOf(node, nodeMap, edges, r)
  {
    var relatedEdges: seq<RelatedEdge> := [];
    var relatedIds: set<Uuid> := {};
    for i := 0 to |edges|
      invariant relatedEdges == Related(node.uuid, edges[..i])
      invariant forall v :: v in relatedIds <==> Adjoins(node.uuid, edges[..i], v)
    {
      var edge := edges[i];
      RelatedStep(node.uuid, edges, i);
      if edge.source == node.uuid {
        relatedEdges := relatedEdges + [RelatedEdge(Outgoing, edge.name, edge.fact, edge.target)];
        relatedIds := relatedIds + {edge.target};
      } else if edge.target == node.uuid {
        relatedEdges := relatedEdges + [RelatedEdge(Incoming, edge.name, edge.fact, edge.source)];
        relatedIds := relatedIds + {edge.source};
      }
    }
    assert edges[..|edges|] == edges;
    var ids := SortedIds(relatedIds);
    var relatedNodes := NodesOf(nodeMap, ids);
    r := EntityContext(node, relatedEdges, relatedNodes);
  }

  lemma RelatedStep(u: Uuid, edges: seq<Link>, i: nat)
    requires i < |edges|
    ensures Related(u, edges[..i + 1]) == Related(u, edges[..i]) + RelatedAt(u, edges[i])
    ensures forall v :: Adjoins(u, edges[..i + 1], v) <==> Adjoins(u, edges[..i], v) || Adjoins(u, [edges[i]], v)
  {
    assert edges[..i + 1][..i] == edges[..i];
    assert edges[..i + 1] == edges[..i] + [edges[i]];
  }

  /** The ids that name an existing node, in order, as nodes. */
  method NodesOf(nodeMap: map<Uuid, Node>, ids: seq<Uuid>) returns (r: seq<Node>)
    requires Sorted(ids) && forall u :: u in nodeMap ==> nodeMap[u].uuid == u
    ensures forall i, j :: 0 <= i < j < |r| ==> Before(r[i].uuid, r[j].uuid)
    ensures forall n :: n in r <==> n.uuid in nodeMap && nodeMap[n.uuid] == n && n.uuid in ids
  {
    r := [];
    for k := 0 to |ids|
      invariant forall i, j :: 0 <= i < j < |r| ==> Before(r[i].uuid, r[j].uuid)
      invariant forall n :: n in r <==> n.uuid in nodeMap && nodeMap[n.uuid] == n && n.uuid in ids[..k]
    {
      if ids[k] in nodeMap {
        forall i | 0 <= i < |r| ensures Before(r[i].uuid, ids[k]) {
          assert r[i] in r;
          var h :| 0 <= h < k && ids[h] == r[i].uuid;
        }
        r := r + [nodeMap[ids[k]]];
      }
      assert ids[..k + 1] == ids[..k] + [ids[k]];
    }
    assert ids[..|ids|] == ids;
  }

  const PLAIN_LABELS: set<string> := {"Entity", "Node"}

  function CustomLabels(labels: seq<string>): (r: seq<string>)
    ensures forall l :: l in r <==> l in labels && l !in PLAIN_LABELS
  {
    if labels == [] then []
    else (if labels[0] in PLAIN_LABELS then [] else [labels[0]]) + CustomLabels(labels[1..])
  }

  predicate Listed(n: Node, entityType: Option<string>) {
    CustomLabels(n.labels) != [] && (entityType.Some? ==> entityType.value in CustomLabels(n.labels))
  }

  function ListedNodes(nodes: seq<Node>, entityType: Option<string>): seq<Node> {
    if nodes == [] then []
    else
      var last := nodes[|nodes| - 1];
      ListedNodes(nodes[..|nodes| - 1], entityType) + (if Listed(last, entityType) then [last] else [])
  }

  lemma ListedStep(nodes: seq<Node>, entityType: Option<string>, i: nat)
    requires i < |nodes|
    ensures ListedNodes(nodes[..i + 1], entityType)
         == ListedNodes(nodes[..i], entityType) + (if Listed(nodes[i], entityType) then [nodes[i]] else [])
  {
    assert nodes[..i + 1][..i] == nodes[..i];
  }

  /** A node is listed when it has a label besides the two plain ones and, if a type is asked for, that type
      is one of them. */
  ghost predicate Wanted(n: Node, entityType: Option<string>) {
    && (exists l :: l in n.labels && l != "Entity" && l != "Node")
    && (entityType.Some? ==> entityType.value in n.labels && entityType.value != "Entity" && entityType.value != "Node")
  }

  /** `listed` are exactly the wanted nodes, in order; `picks` are their positions. */
  ghost predicate PicksWanted(nodes: seq<Node>, entityType: Option<string>, picks: seq<nat>, listed: seq<Node>) {
    && Increasing(picks, |nodes|) && |picks| == |listed|
    && (forall k :: 0 <= k < |picks| ==> listed[k] == nodes[picks[k]])
    && (forall i :: 0 <= i < |nodes| ==> (i in picks <==> Wanted(nodes[i], entityType)))
  }

  lemma PicksStep(nodes: seq<Node>, entityType: Option<string>, before: seq<nat>, listed: seq<Node>)
    requires nodes != [] && PicksWanted(nodes[..|nodes| - 1], entityType, before, listed)
    ensures var n := |nodes| - 1;
      if Wanted(nodes[n], entityType) then PicksWanted(nodes, entityType, before + [n], listed + [nodes[n]])
      else PicksWanted(nodes, entityType, before, listed)
  {
    hide Wanted, Increasing;
    var n := |nodes| - 1;
    PickNext(before, n);
    forall k | 0 <= k < |before| ensures listed[k] == nodes[before[k]] { PickBelow(before, n, k); }
    forall i | 0 <= i < n ensures i in before <==> Wanted(nodes[i], entityType) {
      assert nodes[..n][i] == nodes[i];
    }
  }

  /** `list_entities` lists exactly the wanted nodes, in order. */
  lemma {:induction false} ListedExactly(nodes: seq<Node>, entityType: Option<string>) returns (picks: seq<nat>)
    ensures PicksWanted(nodes, entityType, picks, ListedNodes(nodes, entityType))
  {
    hide *;
    picks := [];
    NoneListed(nodes, entityType);
    if nodes == [] {
      NonePicked(entityType);
      assert nodes[..0] == nodes;
    } else {
      var n := |nodes| - 1;
      var before := ListedExactly(nodes[..n], entityType);
      ListedIffWanted(nodes[n], entityType);
      ListedStep(nodes, entityType, n);
      var listed := ListedNodes(nodes[..n], entityType);
      PicksStep(nodes, entityType, before, listed);
      assert nodes[..n + 1] == nodes && listed + [] == listed;
      picks := if Wanted(nodes[n], entityType) then before + [n] else before;
    }
  }

  lemma NonePicked(entityType: Option<string>)
    ensures PicksWanted([], entityType, [], [])
  {
  }

  lemma ListedIffWanted(n: Node, entityType: Option<string>)
    ensures Listed(n, entityType) <==> Wanted(n, entityType)
  {
    var custom := CustomLabels(n.labels);
    if custom != [] { assert custom[0] in custom; }
  }

  /** The custom labels of these nodes. */
  function LabelsOn(nodes: seq<Node>): (r: set<string>)
    ensures forall t :: t in r <==> exists n :: n in nodes && t in CustomLabels(n.labels)
  {
    set n, t | n in nodes && t in CustomLabels(n.labels) :: t
  }

  lemma LabelsStep(nodes: seq<Node>, n: Node)
    ensures LabelsOn(nodes + [n]) == LabelsOn(nodes) + set l | l in CustomLabels(n.labels)
  {
  }

  datatype Listing = Listing(entities: seq<EntityContext>, entityTypes: seq<string>,
                             totalCount: nat, filteredCount: nat)

  /** `list_entities`: the contexts of the nodes that carry a custom label, of the wanted type if one is
      asked for, and the labels seen on them, sorted. */
  method ListEntities(nodes: seq<Node>, edges: seq<Link>, entityType: Option<string>) returns (r: Listing)
    ensures var listed := ListedNodes(nodes, entityType);
      && |r.entities| == r.filteredCount == |listed| && r.totalCount == |nodes|
      && (forall i :: 0 <= i < |listed| ==> IsContextOf(listed[i], NodeMap(nodes), edges, r.entities[i]))
      && Sorted(r.entityTypes)
      && (forall t :: t in r.entityTypes <==> exists n :: n in listed && t in CustomLabels(n.labels))
  {
    hide IsContextOf, Sorted, ListedNodes, LabelsOn, CustomLabels;
    var entities: seq<EntityContext>, types: set<string> := [], {};
    var nodeMap := NodeMap(nodes);
    ghost var listed: seq<Node> := [];
    NoneListed(nodes, entityType);
    for i := 0 to |nodes|
      invariant listed == ListedNodes(nodes[..i], entityType)
      invariant |entities| == |listed|
      invariant forall k :: 0 <= k < |entities| ==> IsContextOf(listed[k], nodeMap, edges, entities[k])
      invariant types == LabelsOn(listed)
    {
      ListedStep(nodes, entityType, i);
      var custom := CustomLabels(nodes[i].labels);
      if custom == [] { continue; }
      if entityType.Some? && entityType.value !in custom { continue; }
      LabelsStep(listed, nodes[i]);
      types := types + set l | l in custom;
      var context := SerializeEntity(nodes[i], nodeMap, edges);
      entities := entities + [context];
      listed := listed + [nodes[i]];
    }
    assert nodes[..|nodes|] == nodes;
    var entityTypes := SortedIds(types);
    r := Listing(entities, entityTypes, |nodes|, |entities|);
  }

  lemma NoneListed(nodes: seq<Node>, entityType: Option<string>)
    ensures ListedNodes(nodes[..0], entityType) == [] && LabelsOn([]) == {}
  {
  }

  // ---- The handshake law ----

  function RelatedTotal(nodes: seq<Node>, edges: seq<Link>): nat {
    if nodes == [] then 0
    else RelatedTotal(nodes[..|nodes| - 1], edges) + |Related(nodes[|nodes| - 1].uuid, edges)|
  }

  function Count(p: Link -> bool, edges: seq<Link>): nat {
    if edges == [] then 0 else Count(p, edges[..|edges| - 1]) + if p(edges[|edges| - 1]) then 1 else 0
  }

  function Uuids(nodes: seq<Node>): (r: set<Uuid>)
    ensures forall u :: u in r <==> exists n :: n in nodes && n.uuid == u
  {
    set n | n in nodes :: n.uuid
  }

  ghost predicate UniqueUuids(nodes: seq<Node>) {
    forall i, j :: 0 <= i < j < |nodes| ==> nodes[i].uuid != nodes[j].uuid
  }

  lemma RelatedAppend(u: Uuid, edges: seq<Link>, e: Link)
    ensures |Related(u, edges + [e])|
         == |Related(u, edges)| + One(e.source == u) + One(e.source != u && e.target == u)
  {
    assert (edges + [e])[..|edges|] == edges;
  }

  lemma UuidsStep(nodes: seq<Node>)
    requires UniqueUuids(nodes) && nodes != []
    ensures var init, last := nodes[..|nodes| - 1], nodes[|nodes| - 1];
      UniqueUuids(init) && Uuids(nodes) == Uuids(init) + {last.uuid} && last.uuid !in Uuids(init)
  {
    assert nodes == nodes[..|nodes| - 1] + [nodes[|nodes| - 1]];
  }

  /** What one edge adds to the contexts of these nodes. */
  lemma {:induction false} EdgeShare(nodes: seq<Node>, edges: seq<Link>, e: Link)
    requires UniqueUuids(nodes)
    ensures RelatedTotal(nodes, edges + [e]) == RelatedTotal(nodes, edges)
      + One(e.source in Uuids(nodes)) + One(e.target != e.source && e.target in Uuids(nodes))
  {
    if nodes != [] {
      var init, last := nodes[..|nodes| - 1], nodes[|nodes| - 1];
      hide Related, RelatedAt, Uuids;
      UuidsStep(nodes);
      EdgeShare(init, edges, e);
      RelatedAppend(last.uuid, edges, e);
    }
  }

  lemma {:induction false} NoEdgesNoContext(nodes: seq<Node>)
    ensures RelatedTotal(nodes, []) == 0
  {
    if nodes != [] { NoEdgesNoContext(nodes[..|nodes| - 1]); }
  }

  function FromNode(nodes: seq<Node>): Link -> bool {
    (e: Link) => e.source in Uuids(nodes)
  }

  function IntoNode(nodes: seq<Node>): Link -> bool {
    (e: Link) => e.target != e.source && e.target in Uuids(nodes)
  }

  /** Related edges, summed over all nodes, are the edges whose source is a node plus the edges, loops
      aside, whose target is a node. */
  lemma {:induction false} Handshake(nodes: seq<Node>, edges: seq<Link>)
    requires UniqueUuids(nodes)
    ensures RelatedTotal(nodes, edges) == Count(FromNode(nodes), edges) + Count(IntoNode(nodes), edges)
  {
    if edges == [] {
      NoEdgesNoContext(nodes);
    } else {
      var init, last := edges[..|edges| - 1], edges[|edges| - 1];
      Handshake(nodes, init);
      EdgeShare(nodes, init, last);
      assert edges == init + [last];
    }
  }

  /** A non-loop edge is outgoing at its source exactly when it is incoming at its target, with each end
      naming the other. */
  lemma BothEndsAgree(edges: seq<Link>, e: Link)
    requires e in edges && e.source != e.target
    ensures RelatedEdge(Outgoing, e.name, e.fact, e.target) in Related(e.source, edges)
    ensures RelatedEdge(Incoming, e.name, e.fact, e.source) in Related(e.target, edges)
  {
    RelatedExactly(e.source, edges, RelatedEdge(Outgoing, e.name, e.fact, e.target));
    RelatedExactly(e.target, edges, RelatedEdge(Incoming, e.name, e.fact, e.source));
    assert RelatedAt(e.source, e) == [RelatedEdge(Outgoing, e.name, e.fact, e.target)];
    assert RelatedAt(e.target, e) == [RelatedEdge(Incoming, e.name, e.fact, e.source)];
  }

  lemma {:induction false} RelatedExactly(u: Uuid, edges: seq<Link>, x: RelatedEdge)
    ensures x in Related(u, edges) <==> exists e :: e in edges && x in RelatedAt(u, e)
  {
    if edges != [] {
      var init, last := edges[..|edges| - 1], edges[|edges| - 1];
      RelatedExactly(u, init, x);
      assert edges == init + [last];
    }
  }

  /** The entries of an edge come after those of the edges before it. */
  lemma {:induction false} RelatedInOrder(u: Uuid, edges: seq<Link>, i: nat)
    requires i < |edges|
    ensures Related(u, edges) == Related(u, edges[..i]) + RelatedAt(u, edges[i]) + Related(u, edges[i + 1..])
    decreases |edges|
  {
    hide RelatedAt;
    var n := |edges| - 1;
    if i < n {
      RelatedInOrder(u, edges[..n], i);
      assert edges[..n][..i] == edges[..i];
      assert edges[i + 1..][..n - i - 1] == edges[..n][i + 1..];
    }
  }

  /** A loop is listed once, as outgoing. */
  lemma {:induction false} LoopsOutgoing(edges: seq<Link>, u: Uuid, name: string, fact: string)
    ensures multiset(Related(u, edges))[RelatedEdge(Outgoing, name, fact, u)] == multiset(edges)[Link(u, u, name, fact)]
    ensures RelatedEdge(Incoming, name, fact, u) !in Related(u, edges)
  {
    hide RelatedAt;
    if edges != [] {
      var init, last := edges[..|edges| - 1], edges[|edges| - 1];
      LoopsOutgoing(init, u, name, fact);
      LoopAt(last, u, name, fact);
      assert edges == init + [last];
    }
  }

  lemma LoopAt(e: Link, u: Uuid, name: string, fact: string)
    ensures multiset(RelatedAt(u, e))[RelatedEdge(Outgoing, name, fact, u)] == One(e == Link(u, u, name, fact))
    ensures RelatedEdge(Incoming, name, fact, u) !in RelatedAt(u, e)
  {
  }

  /** Between two nodes, the outgoing entries at one are matched one for one by incoming entries at the
      other, and both count the edges from the one to the other. */
  lemma {:induction false} DirectionsMatch(edges: seq<Link>, u: Uuid, v: Uuid, name: string, fact: string)
    requires u != v
    ensures multiset(Related(u, edges))[RelatedEdge(Outgoing, name, fact, v)] == multiset(edges)[Link(u, v, name, fact)]
    ensures multiset(Related(v, edges))[RelatedEdge(Incoming, name, fact, u)] == multiset(edges)[Link(u, v, name, fact)]
  {
    hide RelatedAt;
    if edges != [] {
      var init, last := edges[..|edges| - 1], edges[|edges| - 1];
      DirectionsMatch(init, u, v, name, fact);
      DirectionsAt(last, u, v, name, fact);
      assert edges == init + [last];
    }
  }

  lemma DirectionsAt(e: Link, u: Uuid, v: Uuid, name: string, fact: string)
    requires u != v
    ensures multiset(RelatedAt(u, e))[RelatedEdge(Outgoing, name, fact, v)] == One(e == Link(u, v, name, fact))
    ensures multiset(RelatedAt(v, e))[RelatedEdge(Incoming, name, fact, u)] == One(e == Link(u, v, name, fact))
  {
  }

  // ---- Deduplication ----

  function Deduped(values: seq<string>): seq<string> {
    if values == [] then []
    else
      var earlier, last := Deduped(values[..|values| - 1]), values[|values| - 1];
      if last == "" || last in earlier then earlier else earlier + [last]
  }

  method DedupeStrings(values: seq<string>) returns (deduped: seq<string>)
    ensures deduped == Deduped(values)
  {
    var seen: set<string> := {};
    deduped := [];
    for i := 0 to |values|
      invariant deduped == Deduped(values[..i])
      invariant forall v :: v in seen <==> v in deduped
    {
      assert values[..i + 1][..i] == values[..i];
      if values[i] == "" || values[i] in seen { continue; }
      seen := seen + {values[i]};
      deduped := deduped + [values[i]];
    }
    assert values[..|values|] == values;
  }

  /** The same non-empty values, each once, in order of first occurrence: what is kept from a prefix is a
      prefix of what is kept. */
  lemma {:induction false} DedupedFacts(values: seq<string>, k: nat)
    requires k <= |values|
    ensures forall v :: v in Deduped(values) <==> v in values && v != ""
    ensures forall i, j :: 0 <= i < j < |Deduped(values)| ==> Deduped(values)[i] != Deduped(values)[j]
    ensures Deduped(values[..k]) <= Deduped(values)
    decreases |values|
  {
    if values == [] {
    } else {
      var init, last := values[..|values| - 1], values[|values| - 1];
      assert values == init + [last];
      if k < |values| {
        DedupedFacts(init, k);
        assert init[..k] == values[..k];
      } else {
        DedupedFacts(init, 0);
        assert values[..k] == values;
      }
    }
  }
}
