/** `_add_episodes_with_fallback` and `_add_episodes_sequentially` of
    `graph_service/workers/build_worker.py`. The graph library is a set of answers given in advance. */
module BuildEpisodes {
  import opened Wrappers
  import opened EpisodeBuilder

  /** What one call into the graph library produced; a timeout is one of the ways to raise. */
  datatype Attempt = Raised(message: string) | Built(nodes: seq<string>, edges: seq<string>)

  /** The library's answers for one build: preparation, the bulk call, and the call for each episode. */
  datatype Graphiti = Graphiti(setup: Option<string>, bulk: Attempt, single: nat -> Attempt)

  /** Episodes `0..n`, one call each, stopping at the first that raises. */
  function Sequential(g: Graphiti, n: nat): Attempt {
    if n == 0 then Built([], [])
    else
      match Sequential(g, n - 1)
      case Raised(m) => Raised(m)
      case Built(nodes, edges) =>
        match g.single(n - 1)
        case Raised(m) => Raised(m)
        case Built(more, moreEdges) => Built(nodes + more, edges + moreEdges)
  }

  function WithFallback(g: Graphiti, n: nat): Attempt {
    if n <= 1 || g.bulk.Raised? then Sequential(g, n) else g.bulk
  }

  method AddEpisodesSequentially(g: Graphiti, episodes: seq<Episode>) returns (r: Attempt)
    ensures r == Sequential(g, |episodes|)
  {
    var nodes, edges := [], [];
    for i := 0 to |episodes|
      invariant Sequential(g, i) == Built(nodes, edges)
    {
      var single := g.single(i);
      if single.Raised? {
        SequentialStops(g, i + 1, |episodes|);
        return single;
      }
      nodes := nodes + single.nodes;
      edges := edges + single.edges;
    }
    r := Built(nodes, edges);
  }

  method AddEpisodesWithFallback(g: Graphiti, episodes: seq<Episode>) returns (r: Attempt)
    ensures r == WithFallback(g, |episodes|)
  {
    if |episodes| <= 1 {
      r := AddEpisodesSequentially(g, episodes);
      return;
    }
    r := g.bulk;
    if r.Raised? { r := AddEpisodesSequentially(g, episodes); }
  }

  lemma {:induction false} SequentialStops(g: Graphiti, i: nat, n: nat)
    requires i <= n && Sequential(g, i).Raised?
    ensures Sequential(g, n) == Sequential(g, i)
    decreases n
  {
    if i < n { SequentialStops(g, i, n - 1); }
  }

  /** One at a time succeeds exactly when every call does, and then counts every node and edge once. */
  lemma {:induction false} SequentialOutcome(g: Graphiti, n: nat)
    ensures Sequential(g, n).Built? <==> forall i :: 0 <= i < n ==> g.single(i).Built?
    ensures Sequential(g, n).Built? ==>
      |Sequential(g, n).nodes| == NodeSum(g, n) && |Sequential(g, n).edges| == EdgeSum(g, n)
  {
    if n > 0 { SequentialOutcome(g, n - 1); }
  }

  /** `message` is what the first single call to raise raised. */
  ghost predicate FirstRaise(g: Graphiti, n: nat, message: string) {
    exists i :: 0 <= i < n && g.single(i) == Raised(message) && forall j :: 0 <= j < i ==> g.single(j).Built?
  }

  lemma {:induction false} SequentialRaises(g: Graphiti, n: nat)
    ensures Sequential(g, n).Raised? ==> FirstRaise(g, n, Sequential(g, n).message)
  {
    if n > 0 {
      SequentialRaises(g, n - 1);
      SequentialOutcome(g, n - 1);
    }
  }

  /** What the stage gives: with more than one episode and a bulk result, its nodes and its edges; otherwise
      those of the single calls, or the first exception among them. */
  lemma FallbackExactly(g: Graphiti, n: nat)
    ensures var r := WithFallback(g, n);
      if n > 1 && g.bulk.Built? then r.Built? && r.nodes == g.bulk.nodes && r.edges == g.bulk.edges
      else if forall i :: 0 <= i < n ==> g.single(i).Built? then
        r.Built? && |r.nodes| == NodeSum(g, n) && |r.edges| == EdgeSum(g, n)
      else r.Raised? && FirstRaise(g, n, r.message)
  {
    SequentialOutcome(g, n);
    SequentialRaises(g, n);
  }

  function NodeSum(g: Graphiti, n: nat): nat {
    if n == 0 then 0 else NodeSum(g, n - 1) + if g.single(n - 1).Built? then |g.single(n - 1).nodes| else 0
  }

  function EdgeSum(g: Graphiti, n: nat): nat {
    if n == 0 then 0 else EdgeSum(g, n - 1) + if g.single(n - 1).Built? then |g.single(n - 1).edges| else 0
  }

  /** A build fails at this stage exactly when the bulk call was not available or raised, and some
      single call raised too. */
  lemma FallbackFailsIff(g: Graphiti, n: nat)
    ensures WithFallback(g, n).Raised? <==>
      (n <= 1 || g.bulk.Raised?) && exists i :: 0 <= i < n && g.single(i).Raised?
  {
    SequentialOutcome(g, n);
  }
}
