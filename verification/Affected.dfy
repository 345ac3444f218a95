/** Impact analysis: bounded breadth-first search over incoming edges. */
module Affected {

  datatype Edge<N, R> = Edge(source: N, target: N, relation: R)

  datatype Hit<N, R> = Hit(node: N, depth: nat, via: R)

  /** `a` is affected by `b` through one edge of an allowed relation. */
  ghost predicate Hop<N, R>(edges: seq<Edge<N, R>>, allowed: set<R>, a: N, b: N) {
    exists e :: e in edges && e.source == a && e.target == b && e.relation in allowed
  }

  /** There is a backward walk of `k` hops from the seed to `n`. */
  ghost predicate Walk<N(!new), R>(edges: seq<Edge<N, R>>, allowed: set<R>, seed: N, n: N, k: nat) {
    if k == 0 then n == seed
    else exists m :: Walk(edges, allowed, seed, m, k - 1) && Hop(edges, allowed, n, m)
  }

  /** The shortest backward walk to `n` has `d` hops. */
  ghost predicate Distance<N(!new), R>(edges: seq<Edge<N, R>>, allowed: set<R>, seed: N, n: N, d: nat) {
    Walk(edges, allowed, seed, n, d) && forall k: nat :: k < d ==> !Walk(edges, allowed, seed, n, k)
  }

  /** The hit's relation is that of a real edge into a node one step closer to the seed. */
  ghost predicate Justified<N(!new), R>(edges: seq<Edge<N, R>>, allowed: set<R>, seed: N, h: Hit<N, R>) {
    h.depth > 0 && exists e :: e in edges && e.source == h.node && e.relation == h.via && e.relation in allowed
                               && Distance(edges, allowed, seed, e.target, h.depth - 1)
  }

  /** Some walk of 1 to `depth` hops leads back to another node than the seed. */
  ghost predicate Reached<N(!new), R>(edges: seq<Edge<N, R>>, allowed: set<R>, seed: N, depth: int, n: N) {
    n != seed && exists k: nat :: k <= depth && Walk(edges, allowed, seed, n, k)
  }

  ghost predicate IsHit<N, R>(hits: seq<Hit<N, R>>, n: N) {
    exists h :: h in hits && h.node == n
  }

  /** Visited nodes in order of discovery, the seed first. */
  ghost function Visits<N, R>(seed: N, hits: seq<Hit<N, R>>): seq<(N, nat)> {
    [(seed, 0)] + seq(|hits|, i requires 0 <= i < |hits| => (hits[i].node, hits[i].depth))
  }

  ghost predicate Seen<N>(visits: seq<(N, nat)>, n: N, within: nat) {
    exists r :: 0 <= r < |visits| && visits[r].0 == n && visits[r].1 <= within
  }

  /** Everything one hop from an expanded visit has been visited, at most one step deeper. */
  ghost predicate Expanded<N(!new), R>(edges: seq<Edge<N, R>>, allowed: set<R>, visits: seq<(N, nat)>, q: nat)
    requires q < |visits|
  {
    forall n :: Hop(edges, allowed, n, visits[q].0) ==> Seen(visits, n, visits[q].1 + 1)
  }

  ghost predicate Ordered<N>(visits: seq<(N, nat)>, depth: int) {
    && visits != [] && visits[0].1 == 0
    && (forall i, j :: 0 <= i < j < |visits| ==> visits[i].1 <= visits[j].1)
    && (forall i :: 0 < i < |visits| ==> visits[i].1 <= depth)
    && (forall i, j :: 0 <= i < j < |visits| ==> visits[i].0 != visits[j].0)
  }

  /** What holds when the first `p` visits have been expanded. */
  ghost predicate Invariant<N(!new), R>(edges: seq<Edge<N, R>>, allowed: set<R>, seed: N, depth: int,
                                        visits: seq<(N, nat)>, p: nat)
  {
    && p <= |visits| && Ordered(visits, depth) && visits[0].0 == seed
    && (forall q {:trigger Expanded(edges, allowed, visits, q)} :: 0 <= q < p && visits[q].1 < depth ==>
          Expanded(edges, allowed, visits, q))
    && (p < |visits| ==> visits[|visits| - 1].1 <= visits[p].1 + 1)
  }

  /** Walks no longer than the depth being expanded lead to visited nodes. */
  lemma {:induction false} WalkSeen<N(!new), R>(edges: seq<Edge<N, R>>, allowed: set<R>, seed: N, depth: int,
                                                visits: seq<(N, nat)>, p: nat, n: N, k: nat)
    requires Invariant(edges, allowed, seed, depth, visits, p) && Walk(edges, allowed, seed, n, k)
    requires k <= depth && (p < |visits| ==> k <= visits[p].1)
    ensures Seen(visits, n, k)
  {
    if k == 0 {
      assert visits[0] == (n, 0);
    } else {
      var m :| Walk(edges, allowed, seed, m, k - 1) && Hop(edges, allowed, n, m);
      WalkSeen(edges, allowed, seed, depth, visits, p, m, k - 1);
      var q :| 0 <= q < |visits| && visits[q].0 == m && visits[q].1 <= k - 1;
      assert q < p;
      assert Expanded(edges, allowed, visits, q);
      var r :| 0 <= r < |visits| && visits[r].0 == n && visits[r].1 <= visits[q].1 + 1;
      assert visits[r].1 <= k;
    }
  }

  lemma SeenGrows<N>(visits: seq<(N, nat)>, more: seq<(N, nat)>, n: N, within: nat)
    requires Seen(visits, n, within)
    ensures Seen(visits + more, n, within)
  {
    var r :| 0 <= r < |visits| && visits[r].0 == n && visits[r].1 <= within;
    assert (visits + more)[r] == visits[r];
  }

  lemma VisitKeepsInvariant<N(!new), R>(edges: seq<Edge<N, R>>, allowed: set<R>, seed: N, depth: int,
                                        visits: seq<(N, nat)>, p: nat, n: N)
    requires Invariant(edges, allowed, seed, depth, visits, p) && p < |visits| && visits[p].1 < depth
    requires forall r :: 0 <= r < |visits| ==> visits[r].0 != n
    ensures Invariant(edges, allowed, seed, depth, visits + [(n, visits[p].1 + 1)], p)
  {
    var next := visits + [(n, visits[p].1 + 1)];
    forall q | 0 <= q < p && next[q].1 < depth
      ensures Expanded(edges, allowed, next, q)
    {
      assert Expanded(edges, allowed, visits, q);
      forall m | Hop(edges, allowed, m, next[q].0)
        ensures Seen(next, m, next[q].1 + 1)
      {
        SeenGrows(visits, [(n, visits[p].1 + 1)], m, visits[q].1 + 1);
      }
    }
  }

  /** A node discovered while expanding visit `p` lies exactly one step beyond it. */
  lemma DiscoveredAtDistance<N(!new), R>(edges: seq<Edge<N, R>>, allowed: set<R>, seed: N, depth: int,
                                         visits: seq<(N, nat)>, p: nat, e: Edge<N, R>)
    requires Invariant(edges, allowed, seed, depth, visits, p) && p < |visits| && visits[p].1 < depth
    requires Distance(edges, allowed, seed, visits[p].0, visits[p].1)
    requires e in edges && e.target == visits[p].0 && e.relation in allowed
    requires forall r :: 0 <= r < |visits| ==> visits[r].0 != e.source
    ensures Distance(edges, allowed, seed, e.source, visits[p].1 + 1)
    ensures Justified(edges, allowed, seed, Hit(e.source, visits[p].1 + 1, e.relation))
  {
    assert Hop(edges, allowed, e.source, visits[p].0);
    forall k: nat | k < visits[p].1 + 1
      ensures !Walk(edges, allowed, seed, e.source, k)
    {
      if Walk(edges, allowed, seed, e.source, k) {
        WalkSeen(edges, allowed, seed, depth, visits, p, e.source, k);
      }
    }
  }

  /** Every hit is a real one. */
  ghost predicate Genuine<N(!new), R>(edges: seq<Edge<N, R>>, allowed: set<R>, seed: N, hits: seq<Hit<N, R>>) {
    forall h :: h in hits ==> Distance(edges, allowed, seed, h.node, h.depth) && Justified(edges, allowed, seed, h)
  }

  ghost predicate IsSeen<N(!new), R>(seen: set<N>, seed: N, hits: seq<Hit<N, R>>) {
    forall n :: n in seen <==> n == seed || IsHit(hits, n)
  }

  /** The state of the search between two edges of the node being expanded. */
  ghost predicate Searching<N(!new), R>(edges: seq<Edge<N, R>>, allowed: set<R>, seed: N, depth: int, p: nat,
                                        seen: set<N>, queue: seq<(N, nat)>, hits: seq<Hit<N, R>>)
  {
    && Invariant(edges, allowed, seed, depth, Visits(seed, hits), p)
    && queue == Visits(seed, hits)[p..]
    && Genuine(edges, allowed, seed, hits)
    && IsSeen(seen, seed, hits)
  }

  /** The neighbours of visit `p` along `edges[..j]` have all been visited. */
  ghost predicate ExpandedUpTo<N(!new), R>(edges: seq<Edge<N, R>>, allowed: set<R>, visits: seq<(N, nat)>, p: nat, j: nat)
    requires p < |visits| && j <= |edges|
  {
    forall i :: 0 <= i < j && edges[i].target == visits[p].0 && edges[i].relation in allowed ==>
      Seen(visits, edges[i].source, visits[p].1 + 1)
  }

  lemma SeenIsVisited<N(!new), R>(seed: N, hits: seq<Hit<N, R>>, seen: set<N>, n: N)
    requires IsSeen(seen, seed, hits)
    ensures n in seen <==> exists r :: 0 <= r < |Visits(seed, hits)| && Visits(seed, hits)[r].0 == n
  {
    var visits := Visits(seed, hits);
    if n in seen {
      if n == seed {
        assert visits[0].0 == n;
      } else {
        var h :| h in hits && h.node == n;
        var i :| 0 <= i < |hits| && hits[i] == h;
        assert visits[i + 1].0 == n;
      }
    }
    if r :| 0 <= r < |visits| && visits[r].0 == n {
      assert r > 0 ==> hits[r - 1] in hits && hits[r - 1].node == n;
    }
  }

  /** Taking a new edge source as a hit keeps the search state. */
  lemma DiscoverKeepsSearching<N(!new), R>(edges: seq<Edge<N, R>>, allowed: set<R>, seed: N, depth: int, p: nat,
                                           seen: set<N>, queue: seq<(N, nat)>, hits: seq<Hit<N, R>>, e: Edge<N, R>)
    requires Searching(edges, allowed, seed, depth, p, seen, queue, hits)
    requires var visits := Visits(seed, hits);
             && p < |visits| && visits[p].1 < depth && Distance(edges, allowed, seed, visits[p].0, visits[p].1)
             && e in edges && e.target == visits[p].0 && e.relation in allowed && e.source !in seen
    ensures var d := Visits(seed, hits)[p].1 + 1;
            && Visits(seed, hits + [Hit(e.source, d, e.relation)]) == Visits(seed, hits) + [(e.source, d)]
            && Searching(edges, allowed, seed, depth, p, seen + {e.source}, queue + [(e.source, d)],
                         hits + [Hit(e.source, d, e.relation)])
  {
    var visits := Visits(seed, hits);
    var d := visits[p].1 + 1;
    var hit := Hit(e.source, d, e.relation);
    SeenIsVisited(seed, hits, seen, e.source);
    VisitKeepsInvariant(edges, allowed, seed, depth, visits, p, e.source);
    DiscoveredAtDistance(edges, allowed, seed, depth, visits, p, e);
    assert Visits(seed, hits + [hit]) == visits + [(e.source, d)];
    forall n
      ensures n in seen + {e.source} <==> n == seed || IsHit(hits + [hit], n)
    {
      if n == e.source { assert hit in hits + [hit]; }
      if h :| h in hits && h.node == n { assert h in hits + [hit]; }
    }
  }

  lemma VisitAtDistance<N(!new), R>(edges: seq<Edge<N, R>>, allowed: set<R>, seed: N, hits: seq<Hit<N, R>>, p: nat)
    requires Genuine(edges, allowed, seed, hits) && p < |Visits(seed, hits)|
    ensures Distance(edges, allowed, seed, Visits(seed, hits)[p].0, Visits(seed, hits)[p].1)
  {
    if p > 0 { assert hits[p - 1] in hits; }
  }

  lemma ExpandedGrows<N(!new), R>(edges: seq<Edge<N, R>>, allowed: set<R>, visits: seq<(N, nat)>, p: nat, j: nat, v: (N, nat))
    requires p < |visits| && j < |edges| && ExpandedUpTo(edges, allowed, visits, p, j)
    requires edges[j].target == visits[p].0 && v == (edges[j].source, visits[p].1 + 1)
    ensures ExpandedUpTo(edges, allowed, visits + [v], p, j + 1)
  {
    forall i | 0 <= i < j + 1 && edges[i].target == visits[p].0 && edges[i].relation in allowed
      ensures Seen(visits + [v], edges[i].source, visits[p].1 + 1)
    {
      if i < j {
        SeenGrows(visits, [v], edges[i].source, visits[p].1 + 1);
      } else {
        assert (visits + [v])[|visits|] == v;
      }
    }
  }

  /** Once every incoming edge has been looked at, the next visit can be expanded. */
  lemma ExpandKeepsInvariant<N(!new), R>(edges: seq<Edge<N, R>>, allowed: set<R>, seed: N, depth: int,
                                         visits: seq<(N, nat)>, p: nat)
    requires Invariant(edges, allowed, seed, depth, visits, p) && p < |visits|
    requires visits[p].1 < depth ==> ExpandedUpTo(edges, allowed, visits, p, |edges|)
    ensures Invariant(edges, allowed, seed, depth, visits, p + 1)
  {
    if visits[p].1 < depth {
      forall n | Hop(edges, allowed, n, visits[p].0)
        ensures Seen(visits, n, visits[p].1 + 1)
      {
        var e :| e in edges && e.source == n && e.target == visits[p].0 && e.relation in allowed;
        var i :| 0 <= i < |edges| && edges[i] == e;
      }
      assert Expanded(edges, allowed, visits, p);
    }
  }

  /** The state while visit `p` is being expanded: edges below `j` are done, and visits are only added. */
  ghost predicate Expanding<N(!new), R>(edges: seq<Edge<N, R>>, allowed: set<R>, seed: N, depth: int, p: nat, j: nat,
                                        start: seq<(N, nat)>, seen: set<N>, queue: seq<(N, nat)>, hits: seq<Hit<N, R>>)
  {
    && Searching(edges, allowed, seed, depth, p, seen, queue, hits)
    && p < |start| && start <= Visits(seed, hits) && j <= |edges|
    && ExpandedUpTo(edges, allowed, Visits(seed, hits), p, j)
  }

  lemma TakeEdge<N(!new), R>(edges: seq<Edge<N, R>>, allowed: set<R>, seed: N, depth: int, p: nat, j: nat,
                             start: seq<(N, nat)>, seen: set<N>, queue: seq<(N, nat)>, hits: seq<Hit<N, R>>,
                             visit: (N, nat))
    requires Expanding(edges, allowed, seed, depth, p, j, start, seen, queue, hits) && start[p].1 < depth
    requires j < |edges| && edges[j].target == start[p].0 && edges[j].relation in allowed && edges[j].source !in seen
    requires visit == (edges[j].source, start[p].1 + 1)
    ensures Expanding(edges, allowed, seed, depth, p, j + 1, start, seen + {edges[j].source}, queue + [visit],
                      hits + [Hit(edges[j].source, visit.1, edges[j].relation)])
  {
    assert Visits(seed, hits)[p] == start[p];
    VisitAtDistance(edges, allowed, seed, hits, p);
    DiscoverKeepsSearching(edges, allowed, seed, depth, p, seen, queue, hits, edges[j]);
    ExpandedGrows(edges, allowed, Visits(seed, hits), p, j, (edges[j].source, start[p].1 + 1));
  }

  lemma SkipEdge<N(!new), R>(edges: seq<Edge<N, R>>, allowed: set<R>, seed: N, depth: int, p: nat, j: nat,
                             start: seq<(N, nat)>, seen: set<N>, queue: seq<(N, nat)>, hits: seq<Hit<N, R>>)
    requires Expanding(edges, allowed, seed, depth, p, j, start, seen, queue, hits) && j < |edges|
    requires edges[j].target != start[p].0 || edges[j].relation !in allowed || edges[j].source in seen
    ensures Expanding(edges, allowed, seed, depth, p, j + 1, start, seen, queue, hits)
  {
    assert Visits(seed, hits)[p] == start[p];
    if edges[j].source in seen {
      SeenIsVisited(seed, hits, seen, edges[j].source);
      SeenSoon(edges, allowed, seed, depth, Visits(seed, hits), p, edges[j].source);
    }
  }

  /** Look at every edge into the node at the front of the queue, recording the new sources. */
  method Expand<N(==,!new), R(==)>(edges: seq<Edge<N, R>>, seed: N, allowed: set<R>, ghost depth: int, current: N, d: nat,
                                   ghost p: nat, seen0: set<N>, queue0: seq<(N, nat)>, hits0: seq<Hit<N, R>>)
    returns (seen: set<N>, queue: seq<(N, nat)>, hits: seq<Hit<N, R>>)
    requires Searching(edges, allowed, seed, depth, p, seen0, queue0, hits0)
    requires p < |Visits(seed, hits0)| && Visits(seed, hits0)[p] == (current, d) && d < depth
    ensures Expanding(edges, allowed, seed, depth, p, |edges|, Visits(seed, hits0), seen, queue, hits)
    ensures seen0 <= seen <= seen0 + Sources(edges) && (seen == seen0 ==> queue == queue0)
  {
    seen, queue, hits := seen0, queue0, hits0;
    ghost var start := Visits(seed, hits0);
    for j := 0 to |edges|
      invariant Expanding(edges, allowed, seed, depth, p, j, start, seen, queue, hits)
      invariant seen0 <= seen <= seen0 + Sources(edges) && (seen == seen0 ==> queue == queue0)
    {
      var e := edges[j];
      if e.target == current && e.relation in allowed && e.source !in seen {
        var visit: (N, nat) := (e.source, d + 1);
        TakeEdge(edges, allowed, seed, depth, p, j, start, seen, queue, hits, visit);
        seen := seen + {e.source};
        hits := hits + [Hit(e.source, visit.1, e.relation)];
        queue := queue + [visit];
      } else {
        SkipEdge(edges, allowed, seed, depth, p, j, start, seen, queue, hits);
      }
    }
  }

  ghost function Sources<N, R>(edges: seq<Edge<N, R>>): set<N> {
    set e | e in edges :: e.source
  }

  lemma FewerLeft<N>(all: set<N>, before: set<N>, after: set<N>)
    requires before <= after <= before + all && before != after
    ensures all - after < all - before
  {
    var n :| n in after && n !in before;
    assert n in all - before && n !in all - after;
  }

  lemma StartSearching<N(!new), R>(edges: seq<Edge<N, R>>, allowed: set<R>, seed: N, depth: int)
    ensures Searching<N, R>(edges, allowed, seed, depth, 0, {seed}, [(seed, 0)], [])
  {
    assert Visits<N, R>(seed, []) == [(seed, 0)];
  }

  /** The front of the queue is done. */
  lemma NextVisit<N(!new), R>(edges: seq<Edge<N, R>>, allowed: set<R>, seed: N, depth: int, p: nat,
                              seen: set<N>, queue: seq<(N, nat)>, hits: seq<Hit<N, R>>)
    requires Searching(edges, allowed, seed, depth, p, seen, queue, hits) && queue != []
    requires p < |Visits(seed, hits)|
    requires Visits(seed, hits)[p].1 < depth ==> ExpandedUpTo(edges, allowed, Visits(seed, hits), p, |edges|)
    ensures Searching(edges, allowed, seed, depth, p + 1, seen, queue[1..], hits)
  {
    ExpandKeepsInvariant(edges, allowed, seed, depth, Visits(seed, hits), p);
  }

  /** The nodes affected by a change in the seed, with their distance and a relation. */
  method AffectedNodes<N(==,!new), R(==)>(edges: seq<Edge<N, R>>, seed: N, allowed: set<R>, depth: int)
    returns (hits: seq<Hit<N, R>>)
    // exactly the nodes other than the seed that a walk of at most `depth` hops reaches ...
    ensures forall n :: IsHit(hits, n) <==> Reached(edges, allowed, seed, depth, n)
    // ... each once, at its shortest distance, via a real edge into the previous layer, nearest first
    ensures Genuine(edges, allowed, seed, hits)
    ensures forall i, j :: 0 <= i < j < |hits| ==> hits[i].node != hits[j].node && hits[i].depth <= hits[j].depth
  {
    var seen, queue := {seed}, [(seed, 0 as nat)];
    hits := [];
    ghost var p := 0;
    StartSearching(edges, allowed, seed, depth);
    while queue != []
      invariant Searching(edges, allowed, seed, depth, p, seen, queue, hits)
      decreases Sources(edges) - seen, |queue|
    {
      var (current, d) := queue[0];
      if d < depth {
        ghost var seen0 := seen;
        seen, queue, hits := Expand(edges, seed, allowed, depth, current, d, p, seen, queue, hits);
        if seen != seen0 { FewerLeft(Sources(edges), seen0, seen); }
      }
      NextVisit(edges, allowed, seed, depth, p, seen, queue, hits);
      queue := queue[1..];
      p := p + 1;
    }
    AllFound(edges, allowed, seed, depth, hits);
  }

  /** A visited node was visited at most one step beyond the visit being expanded. */
  lemma SeenSoon<N(!new), R>(edges: seq<Edge<N, R>>, allowed: set<R>, seed: N, depth: int, visits: seq<(N, nat)>, p: nat, n: N)
    requires Invariant(edges, allowed, seed, depth, visits, p) && p < |visits|
    requires exists r :: 0 <= r < |visits| && visits[r].0 == n
    ensures Seen(visits, n, visits[p].1 + 1)
  {
    var r :| 0 <= r < |visits| && visits[r].0 == n;
    assert visits[r].1 <= visits[|visits| - 1].1;
  }

  lemma AllFound<N(!new), R>(edges: seq<Edge<N, R>>, allowed: set<R>, seed: N, depth: int, hits: seq<Hit<N, R>>)
    requires var visits := Visits(seed, hits); Invariant(edges, allowed, seed, depth, visits, |visits|)
    requires Genuine(edges, allowed, seed, hits)
    ensures forall n :: IsHit(hits, n) <==> Reached(edges, allowed, seed, depth, n)
    ensures forall i, j :: 0 <= i < j < |hits| ==> hits[i].node != hits[j].node && hits[i].depth <= hits[j].depth
  {
    var visits := Visits(seed, hits);
    assert forall i :: 0 <= i < |hits| ==> visits[i + 1] == (hits[i].node, hits[i].depth);
    forall n | Reached(edges, allowed, seed, depth, n)
      ensures IsHit(hits, n)
    {
      var k: nat :| k <= depth && Walk(edges, allowed, seed, n, k);
      WalkSeen(edges, allowed, seed, depth, visits, |visits|, n, k);
      var r :| 0 <= r < |visits| && visits[r].0 == n;
      assert hits[r - 1] in hits && hits[r - 1].node == n;
    }
    forall h | h in hits
      ensures h.node != seed && h.depth <= depth && Walk(edges, allowed, seed, h.node, h.depth)
    {
      var i :| 0 <= i < |hits| && hits[i] == h;
      assert visits[i + 1].0 != visits[0].0;
    }
  }
}
