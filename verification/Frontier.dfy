/** The invariant behind both breadth-first searches.

    Ids are marked when they leave the queue, so the queue may hold an id many times and a marked id
    may still be queued. `seen` maps each marked id to the level it was marked at; ids at level
    `limit` or beyond are never expanded. */
module Frontier {
  import opened Wrappers
  import opened GraphModel
  import opened Walks

  datatype Hop = Hop(id: Id, level: nat)

  ghost predicate Queued(queue: seq<Hop>, w: Id, k: int) {
    exists i :: 0 <= i < |queue| && queue[i].id == w && queue[i].level <= k
  }

  ghost predicate Seen(seen: map<Id, nat>, w: Id, k: int) {
    w in seen && seen[w] <= k
  }

  /** Levels never decrease along the queue and differ by at most one. */
  ghost predicate Layered(queue: seq<Hop>) {
    forall i, j :: 0 <= i < j < |queue| ==> queue[i].level <= queue[j].level <= queue[i].level + 1
  }

  ghost predicate Sound(es: seq<Edge>, s: Id, limit: int, id: Id, level: nat) {
    level <= Max(0, limit) && Within(es, s, id, level) && id in Vertices(es, s)
  }

  /** Whatever is adjacent to an expanded id is marked or queued at most one level further out. */
  ghost predicate Closed(es: seq<Edge>, limit: int, queue: seq<Hop>, seen: map<Id, nat>) {
    forall u, w :: u in seen && seen[u] < limit && Adjacent(es, u, w) ==>
      Seen(seen, w, seen[u] + 1) || Queued(queue, w, seen[u] + 1)
  }

  ghost predicate Search(es: seq<Edge>, s: Id, limit: int, queue: seq<Hop>, seen: map<Id, nat>) {
    && Layered(queue)
    && (forall i :: 0 <= i < |queue| ==> Sound(es, s, limit, queue[i].id, queue[i].level))
    && (forall u :: u in seen ==> Sound(es, s, limit, u, seen[u]))
    && (forall u, i :: u in seen && 0 <= i < |queue| ==> seen[u] <= queue[i].level)
    && (Seen(seen, s, 0) || Queued(queue, s, 0))
    && Closed(es, limit, queue, seen)
  }

  lemma SearchStart(es: seq<Edge>, s: Id, limit: int)
    ensures Search(es, s, limit, [Hop(s, 0)], map[])
  {
    WalkToSelf(es, s);
    assert [Hop(s, 0)][0].id == s;
  }

  /** Removing the head keeps every queued fact that the head did not witness. */
  lemma QueuedAfterPop(queue: seq<Hop>, pushed: seq<Hop>, w: Id, k: int)
    requires queue != [] && Queued(queue, w, k)
    ensures (queue[0].id == w && queue[0].level <= k) || Queued(queue[1..] + pushed, w, k)
  {
    var i :| 0 <= i < |queue| && queue[i].id == w && queue[i].level <= k;
    if i > 0 {
      assert (queue[1..] + pushed)[i - 1] == queue[i];
    }
  }

  lemma ClosedAfterSkip(es: seq<Edge>, limit: int, queue: seq<Hop>, seen: map<Id, nat>, seen': map<Id, nat>)
    requires Closed(es, limit, queue, seen) && queue != []
    requires queue[0].id in seen || queue[0].level >= limit
    requires forall u :: u in seen ==> seen[u] <= queue[0].level
    requires seen' == if queue[0].id in seen then seen else seen[queue[0].id := queue[0].level]
    ensures Closed(es, limit, queue[1..], seen')
  {
    forall u, w | u in seen' && seen'[u] < limit && Adjacent(es, u, w)
      ensures Seen(seen', w, seen'[u] + 1) || Queued(queue[1..], w, seen'[u] + 1)
    {
      assert u in seen && seen[u] == seen'[u];
      if Queued(queue, w, seen[u] + 1) {
        QueuedAfterPop(queue, [], w, seen[u] + 1);
        assert queue[1..] + [] == queue[1..];
      } else {
        assert Seen(seen, w, seen[u] + 1);
      }
    }
  }

  /** Popping an id that is not expanded: marked already, or at the depth limit. */
  lemma SearchSkip(es: seq<Edge>, s: Id, limit: int, queue: seq<Hop>, seen: map<Id, nat>, seen': map<Id, nat>)
    requires Search(es, s, limit, queue, seen) && queue != []
    requires queue[0].id in seen || queue[0].level >= limit
    requires seen' == if queue[0].id in seen then seen else seen[queue[0].id := queue[0].level]
    ensures Search(es, s, limit, queue[1..], seen')
  {
    ClosedAfterSkip(es, limit, queue, seen, seen');
    if Queued(queue, s, 0) {
      QueuedAfterPop(queue, [], s, 0);
      assert queue[1..] + [] == queue[1..];
    }
    assert forall i :: 0 <= i < |queue| - 1 ==> queue[1..][i] == queue[i + 1];
  }

  lemma HopSound(es: seq<Edge>, s: Id, limit: int, head: Hop, hop: Hop)
    requires Sound(es, s, limit, head.id, head.level) && head.level < limit
    requires hop.level == head.level + 1 && Adjacent(es, head.id, hop.id)
    ensures Sound(es, s, limit, hop.id, hop.level)
  {
    WithinStep(es, s, head.id, hop.id, head.level);
    var e :| e in es && Joins(e, head.id, hop.id);
    assert hop.id == e.source || hop.id == e.target;
  }

  lemma ClosedAfterExpand(es: seq<Edge>, limit: int, queue: seq<Hop>, seen: map<Id, nat>, pushed: seq<Hop>)
    requires Closed(es, limit, queue, seen) && queue != [] && queue[0].id !in seen
    requires forall u :: u in seen ==> seen[u] <= queue[0].level
    requires forall w :: Adjacent(es, queue[0].id, w) ==>
      w in seen || w == queue[0].id || Queued(pushed, w, queue[0].level + 1)
    ensures Closed(es, limit, queue[1..] + pushed, seen[queue[0].id := queue[0].level])
  {
    var head, seen', queue' := queue[0], seen[queue[0].id := queue[0].level], queue[1..] + pushed;
    forall u, w | u in seen' && seen'[u] < limit && Adjacent(es, u, w)
      ensures Seen(seen', w, seen'[u] + 1) || Queued(queue', w, seen'[u] + 1)
    {
      if u == head.id {
        if Queued(pushed, w, head.level + 1) {
          var i :| 0 <= i < |pushed| && pushed[i].id == w && pushed[i].level <= head.level + 1;
          assert queue'[|queue| - 1 + i] == pushed[i];
        }
      } else if Queued(queue, w, seen[u] + 1) {
        QueuedAfterPop(queue, pushed, w, seen[u] + 1);
      } else {
        assert Seen(seen, w, seen[u] + 1);
      }
    }
  }

  /** Popping an unmarked id below the limit, marking it and queueing its unmarked neighbours. */
  lemma SearchExpand(es: seq<Edge>, s: Id, limit: int, queue: seq<Hop>, seen: map<Id, nat>, pushed: seq<Hop>)
    requires Search(es, s, limit, queue, seen) && queue != []
    requires queue[0].id !in seen && queue[0].level < limit
    requires forall i :: 0 <= i < |pushed| ==>
      pushed[i].level == queue[0].level + 1 && Adjacent(es, queue[0].id, pushed[i].id)
    requires forall w :: Adjacent(es, queue[0].id, w) ==>
      w in seen || w == queue[0].id || Queued(pushed, w, queue[0].level + 1)
    ensures Search(es, s, limit, queue[1..] + pushed, seen[queue[0].id := queue[0].level])
  {
    var head, rest := queue[0], queue[1..];
    var queue', seen' := rest + pushed, seen[head.id := head.level];
    forall i | 0 <= i < |queue'|
      ensures Sound(es, s, limit, queue'[i].id, queue'[i].level)
      ensures head.level <= queue'[i].level <= head.level + 1
    {
      if i < |rest| {
        assert queue'[i] == queue[i + 1];
      } else {
        HopSound(es, s, limit, head, pushed[i - |rest|]);
      }
    }
    assert Layered(queue') by {
      forall i, j | 0 <= i < j < |queue'| ensures queue'[i].level <= queue'[j].level <= queue'[i].level + 1 {
        if j < |rest| { assert queue'[i] == queue[i + 1] && queue'[j] == queue[j + 1]; }
      }
    }
    assert Seen(seen', s, 0) || Queued(queue', s, 0) by {
      if Queued(queue, s, 0) { QueuedAfterPop(queue, pushed, s, 0); }
    }
    ClosedAfterExpand(es, limit, queue, seen, pushed);
  }

  /** A walk within the limit either ends at an id marked no later than the walk is long,
      or something at most that far out is still queued. */
  lemma {:induction false} SearchReach(es: seq<Edge>, s: Id, limit: int, queue: seq<Hop>, seen: map<Id, nat>,
                                       t: Id, p: seq<Id>)
    requires Search(es, s, limit, queue, seen)
    requires Walk(es, s, t, p) && |p| - 1 <= Max(0, limit)
    ensures Seen(seen, t, |p| - 1) || exists i :: 0 <= i < |queue| && queue[i].level <= |p| - 1
    decreases |p|
  {
    if |p| > 1 {
      var u, init := p[|p| - 2], p[..|p| - 1];
      assert Walk(es, s, u, init);
      SearchReach(es, s, limit, queue, seen, u, init);
      assert Adjacent(es, p[|p| - 1 - 1], p[|p| - 1]);
    }
  }
}
