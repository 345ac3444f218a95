/** Turning a partitioner's raw answer into numbered communities. */
module Clustering {
  import opened Common
  import opened Sorting

  /** An undirected graph: every node with its distinct neighbours. */
  datatype Graph<!N(==)> = Graph(nodes: seq<N>, adjacent: map<N, seq<N>>) {
    function Neighbours(n: N): seq<N> {
      if n in adjacent then adjacent[n] else []
    }

    /** A self-loop counts twice. */
    function Degree(n: N): nat {
      |Neighbours(n)| + if n in Neighbours(n) then 1 else 0
    }

    predicate HasEdges() {
      exists n :: n in nodes && Neighbours(n) != []
    }

    /** The number of edge ends inside `c`, twice the number of edges. */
    function InnerEnds(c: seq<N>, rest: seq<N>): nat {
      if rest == [] then 0
      else
        |Filter(m => m in c, Neighbours(rest[0]))| + (if rest[0] in Neighbours(rest[0]) then 1 else 0) +
        InnerEnds(c, rest[1..])
    }
  }

  /** The partitioner: an assignment of the given nodes to group numbers, or a failure. */
  type Partitioner<!N> = seq<N> -> Option<seq<(N, int)>>

  function Firsts<N>(items: seq<(N, int)>): seq<N> {
    if items == [] then [] else Firsts(items[..|items| - 1]) + [items[|items| - 1].0]
  }

  /** The partitioner assigns exactly the nodes it is given. */
  ghost predicate Total<N(!new)>(partition: Partitioner<N>) {
    forall nodes :: partition(nodes).Some? ==> multiset(Firsts(partition(nodes).value)) == multiset(nodes)
  }

  const MIN_SPLIT_SIZE: nat := 10
  const COHESION_SPLIT_MIN_SIZE: nat := 50

  // ---- dictionaries of communities ----

  type Groups<N> = seq<(int, seq<N>)>

  function Flatten<N>(lists: seq<seq<N>>): seq<N> {
    if lists == [] then [] else Flatten(lists[..|lists| - 1]) + lists[|lists| - 1]
  }

  function Members<N>(groups: Groups<N>): (lists: seq<seq<N>>)
    ensures |lists| == |groups| && forall i :: 0 <= i < |groups| ==> lists[i] == groups[i].1
  {
    seq(|groups|, i requires 0 <= i < |groups| => groups[i].1)
  }

  /** `groups.setdefault(cid, []).append(n)` on an insertion-ordered dictionary. */
  function AddTo<N>(groups: Groups<N>, cid: int, n: N): (r: Groups<N>) {
    if groups == [] then [(cid, [n])]
    else if groups[0].0 == cid then [(cid, groups[0].1 + [n])] + groups[1..]
    else [groups[0]] + AddTo(groups[1..], cid, n)
  }

  /** All nodes of a dictionary of communities, with multiplicity. */
  function Content<N>(groups: Groups<N>): multiset<N> {
    if groups == [] then multiset{} else multiset(groups[0].1) + Content(groups[1..])
  }

  ghost predicate NoEmpty<N>(lists: seq<seq<N>>) {
    forall i :: 0 <= i < |lists| ==> lists[i] != []
  }

  ghost predicate Full<N>(groups: Groups<N>) {
    forall i :: 0 <= i < |groups| ==> groups[i].1 != []
  }

  lemma {:induction false} AddToContent<N>(groups: Groups<N>, cid: int, n: N)
    ensures Content(AddTo(groups, cid, n)) == Content(groups) + multiset{n}
    ensures Full(groups) ==> Full(AddTo(groups, cid, n))
  {
    if groups != [] && groups[0].0 != cid {
      AddToContent(groups[1..], cid, n);
      assert ([groups[0]] + AddTo(groups[1..], cid, n))[1..] == AddTo(groups[1..], cid, n);
    } else if groups != [] {
      assert ([(cid, groups[0].1 + [n])] + groups[1..])[1..] == groups[1..];
    }
  }

  lemma {:induction false} ContentIsFlatten<N>(groups: Groups<N>)
    ensures Content(groups) == multiset(Flatten(Members(groups)))
    ensures Full(groups) ==> NoEmpty(Members(groups))
  {
    if groups != [] {
      ContentIsFlatten(groups[1..]);
      assert Members(groups) == [groups[0].1] + Members(groups[1..]);
      FlattenAppend([groups[0].1], Members(groups[1..]));
      assert Flatten([groups[0].1]) == groups[0].1 by { assert Flatten<N>([groups[0].1][..0]) == []; }
    }
  }

  lemma {:induction false} FlattenAppend<N>(a: seq<seq<N>>, b: seq<seq<N>>)
    ensures Flatten(a + b) == Flatten(a) + Flatten(b)
  {
    if b == [] {
      assert a + b == a;
    } else {
      var front, last := b[..|b| - 1], b[|b| - 1];
      assert (a + b)[..|a + b| - 1] == a + front;
      FlattenAppend(a, front);
    }
  }

  /** The nodes with a given number, in order. */
  function Numbered<N>(items: seq<(N, int)>, cid: int): seq<N> {
    if items == [] then []
    else Numbered(items[..|items| - 1], cid) + if items[|items| - 1].1 == cid then [items[|items| - 1].0] else []
  }

  /** They are the nodes that the partitioner gives that number, each as often. */
  lemma {:induction false} NumberedCounts<N>(items: seq<(N, int)>, cid: int, x: N)
    ensures multiset(Numbered(items, cid))[x] == multiset(items)[(x, cid)]
    ensures x in Numbered(items, cid) <==> (x, cid) in items
  {
    if items != [] {
      var front, last := items[..|items| - 1], items[|items| - 1];
      NumberedCounts(front, cid, x);
      assert items == front + [last];
      assert multiset(items) == multiset(front) + multiset{last};
    }
    assert x in Numbered(items, cid) <==> multiset(Numbered(items, cid))[x] > 0;
    assert (x, cid) in items <==> multiset(items)[(x, cid)] > 0;
  }

  /** The group with a given number. */
  function At<N>(groups: Groups<N>, cid: int): seq<N> {
    if groups == [] then [] else if groups[0].0 == cid then groups[0].1 else At(groups[1..], cid)
  }

  /** One group per number, holding exactly the nodes with that number. */
  ghost predicate Collected<N>(items: seq<(N, int)>, groups: Groups<N>) {
    Distinct(Keys(groups)) && Full(groups) && forall c :: At(groups, c) == Numbered(items, c)
  }

  lemma {:induction false} AddToAt<N>(groups: Groups<N>, cid: int, n: N)
    ensures forall c :: At(AddTo(groups, cid, n), c) == At(groups, c) + if c == cid then [n] else []
    ensures forall c :: c in Keys(AddTo(groups, cid, n)) <==> c in Keys(groups) || c == cid
    ensures Distinct(Keys(groups)) ==> Distinct(Keys(AddTo(groups, cid, n)))
  {
    if groups != [] {
      var r, first, rest := AddTo(groups, cid, n), groups[0], groups[1..];
      KeysCons(first, rest);
      assert [first] + rest == groups;
      if first.0 != cid {
        AddToAt(rest, cid, n);
        KeysCons(first, AddTo(rest, cid, n));
        DistinctCons(first.0, Keys(rest));
        DistinctCons(first.0, Keys(AddTo(rest, cid, n)));
      } else {
        KeysCons((cid, first.1 + [n]), rest);
      }
    }
  }

  lemma KeysCons<N>(g: (int, seq<N>), rest: Groups<N>)
    ensures Keys([g] + rest) == [g.0] + Keys(rest)
    ensures forall c :: At([g] + rest, c) == if g.0 == c then g.1 else At(rest, c)
  {
    var groups, keys := [g] + rest, [g.0] + Keys(rest);
    assert groups[1..] == rest;
    forall i | 0 <= i < |groups|
      ensures Keys(groups)[i] == keys[i]
    {
      assert i > 0 ==> groups[i] == rest[i - 1];
    }
  }

  lemma DistinctCons<T>(x: T, s: seq<T>)
    ensures Distinct([x] + s) <==> Distinct(s) && x !in s
  {
    var whole := [x] + s;
    assert forall i :: 0 <= i < |s| ==> whole[i + 1] == s[i];
    if Distinct(whole) {
      forall i, j | 0 <= i < j < |s|
        ensures s[i] != s[j]
      {
        assert whole[i + 1] != whole[j + 1];
      }
      forall i | 0 <= i < |s|
        ensures s[i] != x
      {
        assert whole[0] != whole[i + 1];
      }
    }
  }

  /** Collect a partitioner's answer into groups. */
  method Collect<N(==)>(items: seq<(N, int)>) returns (groups: Groups<N>)
    ensures Content(groups) == multiset(Firsts(items)) && Full(groups) && Collected(items, groups)
  {
    groups := [];
    for i := 0 to |items|
      invariant Content(groups) == multiset(Firsts(items[..i])) && Collected(items[..i], groups)
    {
      assert items[..i + 1][..i] == items[..i];
      AddToContent(groups, items[i].1, items[i].0);
      AddToAt(groups, items[i].1, items[i].0);
      groups := AddTo(groups, items[i].1, items[i].0);
    }
    assert items[..|items|] == items;
  }

  function Keys<N>(groups: Groups<N>): (keys: seq<int>)
    ensures |keys| == |groups| && forall i :: 0 <= i < |groups| ==> keys[i] == groups[i].0
  {
    seq(|groups|, i requires 0 <= i < |groups| => groups[i].0)
  }

  /** `groups[cid] = list`: replaces a group that is already there. */
  function Put<N>(groups: Groups<N>, cid: int, list: seq<N>): Groups<N> {
    if groups == [] then [(cid, list)]
    else if groups[0].0 == cid then [(cid, list)] + groups[1..]
    else [groups[0]] + Put(groups[1..], cid, list)
  }

  ghost predicate Below<N>(groups: Groups<N>, bound: int) {
    forall i :: 0 <= i < |groups| ==> groups[i].0 < bound
  }

  /** A number above all keys is a fresh key, so nothing is replaced. */
  lemma {:induction false} PutFresh<N>(groups: Groups<N>, cid: int, list: seq<N>)
    requires Below(groups, cid)
    ensures Put(groups, cid, list) == groups + [(cid, list)]
  {
    if groups != [] {
      PutFresh(groups[1..], cid, list);
      assert groups == [groups[0]] + groups[1..];
    }
  }

  lemma {:induction false} ContentAppend<N>(groups: Groups<N>, g: (int, seq<N>))
    ensures Content(groups + [g]) == Content(groups) + multiset(g.1)
  {
    if groups == [] {
      assert groups + [g] == [g];
    } else {
      assert (groups + [g])[1..] == groups[1..] + [g];
      ContentAppend(groups[1..], g);
    }
  }

  /** Entering a nonempty list under a fresh key only adds its nodes. */
  lemma PutKeeps<N>(groups: Groups<N>, next: int, list: seq<N>)
    requires Below(groups, next) && Full(groups) && list != []
    ensures var r := Put(groups, next, list);
            Below(r, next + 1) && Full(r) && Content(r) == Content(groups) + multiset(list)
  {
    PutFresh(groups, next, list);
    ContentAppend(groups, (next, list));
    assert forall j :: 0 <= j < |groups| ==> (groups + [(next, list)])[j] == groups[j];
  }

  lemma {:induction false} AddToBelow<N>(groups: Groups<N>, cid: int, n: N, bound: int)
    requires Below(groups, bound) && cid < bound
    ensures Below(AddTo(groups, cid, n), bound)
  {
    if groups != [] && groups[0].0 != cid {
      AddToBelow(groups[1..], cid, n, bound);
    }
  }

  /** The number after the largest key; 0 when there is none. */
  ghost predicate IsNext<N>(groups: Groups<N>, next: int) {
    Below(groups, next) && if groups == [] then next == 0 else next - 1 in Keys(groups)
  }

  method NextCid<N>(groups: Groups<N>) returns (next: int)
    ensures IsNext(groups, next)
  {
    next := 0;
    for i := 0 to |groups|
      invariant i == 0 ==> next == 0
      invariant i > 0 ==> Below(groups[..i], next) && next - 1 in Keys(groups)
    {
      assert Keys(groups)[i] == groups[i].0;
      if i == 0 || groups[i].0 >= next { next := groups[i].0 + 1; }
    }
    assert groups[..|groups|] == groups;
  }

  // ---- hubs ----

  /** How many of `around` belong to community `c`. */
  function Votes<N(==)>(around: seq<N>, community: map<N, int>, c: int): nat {
    |Filter(m => m in community && community[m] == c, around)|
  }

  /** The votes for a community are the neighbours in it. */
  lemma VotesCountNeighbours<N>(around: seq<N>, community: map<N, int>, c: int)
    requires Distinct(around)
    ensures Votes(around, community, c) == |set m | m in around && m in community && community[m] == c|
  {
    KeptSize(m => m in community && community[m] == c, around, set m | m in around && m in community && community[m] == c);
  }

  /** `best` has the most votes, and is the smallest number on a tie. */
  ghost predicate Wins<N>(around: seq<N>, community: map<N, int>, best: int) {
    && (exists m :: m in around && m in community && community[m] == best)
    && forall m :: m in around && m in community ==>
         var c := community[m];
         Votes(around, community, c) < Votes(around, community, best)
         || (Votes(around, community, c) == Votes(around, community, best) && best <= c)
  }

  /** The community with the most votes, if any neighbour has one. */
  method MajorityVote<N(==)>(around: seq<N>, community: map<N, int>) returns (best: Option<int>)
    ensures best.None? <==> forall m :: m in around ==> m !in community
    ensures best.Some? ==> Wins(around, community, best.value)
  {
    var voted: seq<int> := [];
    var votes: map<int, nat> := map[];
    for i := 0 to |around|
      invariant forall c :: c in voted <==> c in votes
      invariant forall c :: c in votes <==> exists m :: m in around[..i] && m in community && community[m] == c
      invariant forall c :: Votes(around[..i], community, c) == if c in votes then votes[c] else 0
    {
      var m := around[i];
      assert around[..i + 1] == around[..i] + [m];
      forall c
        ensures Votes(around[..i + 1], community, c) ==
                Votes(around[..i], community, c) + if m in community && community[m] == c then 1 else 0
      {
        FilterStep(x => x in community && community[x] == c, around, i);
      }
      if m in community {
        var c := community[m];
        if c !in votes { voted := voted + [c]; }
        votes := votes[c := (if c in votes then votes[c] else 0) + 1];
      }
    }
    assert around[..|around|] == around;
    assert forall m :: m in around && m in community ==> community[m] in votes;
    if voted == [] { return None; }
    var cost: int -> (int, int) := c => (if c in votes then -(votes[c] as int) else 0, c);
    var choice := Cheapest(voted, cost);
    assert choice in votes;
    forall m | m in around && m in community
      ensures var c := community[m];
              Votes(around, community, c) < Votes(around, community, choice)
              || (Votes(around, community, c) == Votes(around, community, choice) && choice <= c)
    {
      var i := IndexOf(voted, community[m]);
    }
    best := Some(choice);
  }

  function Degrees<N(==)>(g: Graph<N>): (degrees: seq<int>)
    ensures |degrees| == |g.nodes|
  {
    seq(|g.nodes|, i requires 0 <= i < |g.nodes| => g.Degree(g.nodes[i]))
  }

  predicate IsHub<N(==)>(g: Graph<N>, t: Option<int>, n: N) {
    t.Some? && g.Degree(n) > t.value
  }

  /** `max(0, int(n * p / 100) - 1)`. */
  function Clamp(n: nat, p: real): (idx: nat)
    requires n > 0 && 0.0 <= p <= 100.0
    ensures idx < n
  {
    assert n as real * p / 100.0 <= n as real by {
      assert n as real * p <= n as real * 100.0;
    }
    var k := (n as real * p / 100.0).Floor - 1;
    if k < 0 then 0 else k
  }

  /** The rank of a percentile is the number of whole nodes below it, less one; the first node's at least. */
  lemma RankOfPercentile(n: nat, p: real)
    requires n > 0 && 0.0 <= p <= 100.0
    ensures var below := n as real * p / 100.0;
            if below < 2.0 then Clamp(n, p) == 0 else (Clamp(n, p) + 1) as real <= below < (Clamp(n, p) + 2) as real
    ensures Clamp(n, 100.0) == n - 1 && Clamp(n, 0.0) == 0
  {
    assert n as real * 100.0 / 100.0 == n as real;
  }

  /** Some node has the threshold as its degree; at most `rank` nodes have a smaller one, and the hubs are at most the
      nodes after that rank. */
  ghost predicate IsThreshold<N(!new)>(g: Graph<N>, percentile: Option<real>, t: Option<int>)
    requires percentile.Some? ==> 0.0 <= percentile.value <= 100.0
  {
    if percentile.None? || g.nodes == [] then t.None?
    else
      var rank := Clamp(|g.nodes|, percentile.value);
      && t.Some?
      && (exists n :: n in g.nodes && g.Degree(n) == t.value)
      && |Filter(n => g.Degree(n) < t.value, g.nodes)| <= rank
      && |Filter(n => IsHub(g, t, n), g.nodes)| <= |g.nodes| - 1 - rank
  }

  lemma {:induction false} FilterSplit<N>(keep: N -> bool, drop: N -> bool, s: seq<N>)
    requires forall i :: 0 <= i < |s| ==> drop(s[i]) == !keep(s[i])
    ensures multiset(s) == multiset(Filter(keep, s)) + multiset(Filter(drop, s))
  {
    if s != [] {
      var front, last := s[..|s| - 1], s[|s| - 1];
      FilterSplit(keep, drop, front);
      assert drop(last) == !keep(last);
      assert multiset(s) == multiset(front) + multiset{last} by { assert s == front + [last]; }
      if keep(last) {
        assert Filter(keep, s) == Filter(keep, front) + [last] && Filter(drop, s) == Filter(drop, front);
      } else {
        assert Filter(drop, s) == Filter(drop, front) + [last] && Filter(keep, s) == Filter(keep, front);
      }
    }
  }

  lemma {:induction false} FilterCounts<T>(keep: T -> bool, s: seq<T>, x: T)
    ensures multiset(Filter(keep, s))[x] == if keep(x) then multiset(s)[x] else 0
  {
    if s != [] {
      FilterCounts(keep, s[..|s| - 1], x);
      assert s == s[..|s| - 1] + [s[|s| - 1]];
    }
  }

  lemma FilterPermutation<T>(keep: T -> bool, a: seq<T>, b: seq<T>)
    requires multiset(a) == multiset(b)
    ensures |Filter(keep, a)| == |Filter(keep, b)|
  {
    forall x
      ensures multiset(Filter(keep, a))[x] == multiset(Filter(keep, b))[x]
    {
      FilterCounts(keep, a, x);
      FilterCounts(keep, b, x);
    }
    SameCounts(multiset(Filter(keep, a)), multiset(Filter(keep, b)));
  }

  lemma SameCounts<T>(p: multiset<T>, q: multiset<T>)
    requires forall x :: p[x] == q[x]
    ensures |p| == |q|
  {
    assert p == q;
  }

  /** Nothing is kept of a stretch in which nothing qualifies. */
  lemma {:induction false} FilterWithin<T>(keep: T -> bool, s: seq<T>, lo: nat, hi: nat)
    requires lo <= hi <= |s| && forall i :: 0 <= i < |s| && keep(s[i]) ==> lo <= i < hi
    ensures |Filter(keep, s)| <= hi - lo
  {
    if s != [] {
      var n := |s| - 1;
      var front := s[..n];
      assert forall i :: 0 <= i < n ==> front[i] == s[i];
      if keep(s[n]) {
        FilterWithin(keep, front, lo, hi - 1);
      } else {
        FilterWithin(keep, front, if lo <= n then lo else n, if hi <= n then hi else n);
      }
    }
  }

  lemma RankCounts(s: seq<int>, rank: nat, less: int -> bool, more: int -> bool)
    requires rank < |s| && Sorted(s, (a: int, b: int) => a <= b)
    requires forall d :: less(d) == (d < s[rank]) && more(d) == (d > s[rank])
    ensures |Filter(less, s)| <= rank && |Filter(more, s)| <= |s| - 1 - rank
  {
    forall i, j | 0 <= i < j < |s|
      ensures s[i] <= s[j]
    {
      assert ((a: int, b: int) => a <= b)(s[i], s[j]);
    }
    FilterWithin(less, s, 0, rank);
    FilterWithin(more, s, rank + 1, |s|);
  }

  /** Counting degrees is counting nodes by degree. */
  lemma {:induction false} CountDegrees<N>(g: Graph<N>, some: int -> bool, nodes: seq<N>, degrees: seq<int>)
    requires |degrees| == |nodes| && forall i :: 0 <= i < |nodes| ==> degrees[i] == g.Degree(nodes[i])
    ensures |Filter(n => some(g.Degree(n)), nodes)| == |Filter(some, degrees)|
  {
    if nodes != [] {
      CountDegrees(g, some, nodes[..|nodes| - 1], degrees[..|nodes| - 1]);
    }
  }

  /** What holds of the sorted degrees at a rank is what a threshold is. */
  lemma RankIsThreshold<N(!new)>(g: Graph<N>, percentile: real, ordered: seq<int>)
    requires g.nodes != [] && 0.0 <= percentile <= 100.0
    requires ordered == Sort(Degrees(g), (a: int, b: int) => a <= b)
    ensures IsThreshold(g, Some(percentile), Some(ordered[Clamp(|g.nodes|, percentile)]))
  {
    var rank := Clamp(|g.nodes|, percentile);
    var t := ordered[rank];
    SortSorted(Degrees(g), (a: int, b: int) => a <= b);
    SortMembers(Degrees(g), (a: int, b: int) => a <= b, t);
    var i := IndexOf(Degrees(g), t);
    assert g.Degree(g.nodes[i]) == t;
    var less, more := (d: int) => d < t, (d: int) => d > t;
    RankCounts(ordered, rank, less, more);
    FilterPermutation(less, ordered, Degrees(g));
    FilterPermutation(more, ordered, Degrees(g));
    CountDegrees(g, less, g.nodes, Degrees(g));
    CountDegrees(g, more, g.nodes, Degrees(g));
    FilterAgree(n => less(g.Degree(n)), n => g.Degree(n) < t, g.nodes);
    FilterAgree(n => more(g.Degree(n)), n => IsHub(g, Some(t), n), g.nodes);
  }

  lemma {:induction false} FilterAgree<T>(p: T -> bool, q: T -> bool, s: seq<T>)
    requires forall x :: x in s ==> p(x) == q(x)
    ensures Filter(p, s) == Filter(q, s)
  {
    if s != [] {
      FilterAgree(p, q, s[..|s| - 1]);
      assert s[|s| - 1] in s;
    }
  }

  /** A percentile has one threshold. */
  lemma ThresholdIsUnique<N(!new)>(g: Graph<N>, percentile: real, t: int, u: int)
    requires 0.0 <= percentile <= 100.0 && g.nodes != []
    requires IsThreshold(g, Some(percentile), Some(t)) && IsThreshold(g, Some(percentile), Some(u))
    ensures t == u
  {
    if t < u { NotBothRanks(g, Clamp(|g.nodes|, percentile), t, u); }
    if u < t { NotBothRanks(g, Clamp(|g.nodes|, percentile), u, t); }
  }

  lemma NotBothRanks<N>(g: Graph<N>, rank: nat, t: int, u: int)
    requires t < u
    requires |Filter(n => IsHub(g, Some(t), n), g.nodes)| <= |g.nodes| - 1 - rank
    ensures |Filter(n => g.Degree(n) < u, g.nodes)| > rank
  {
    FilterSplit(n => IsHub(g, Some(t), n), n => !IsHub(g, Some(t), n), g.nodes);
    assert |multiset(g.nodes)| == |g.nodes|;
    FilterGrows(n => !IsHub(g, Some(t), n), n => g.Degree(n) < u, g.nodes);
  }

  lemma {:induction false} FilterGrows<T>(p: T -> bool, q: T -> bool, s: seq<T>)
    requires forall x :: p(x) ==> q(x)
    ensures |Filter(p, s)| <= |Filter(q, s)|
  {
    if s != [] { FilterGrows(p, q, s[..|s| - 1]); }
  }

  /** The degree above which a node is a hub. */
  method HubThreshold<N(==,!new)>(g: Graph<N>, percentile: Option<real>) returns (t: Option<int>)
    requires percentile.Some? ==> 0.0 <= percentile.value <= 100.0
    ensures IsThreshold(g, percentile, t)
  {
    if percentile.None? || g.nodes == [] { return None; }
    var ordered := Sort(Degrees(g), (a: int, b: int) => a <= b);
    RankIsThreshold(g, percentile.value, ordered);
    t := Some(ordered[Clamp(|g.nodes|, percentile.value)]);
  }

  // ---- splitting ----

  ghost predicate AllAlone<N>(lists: seq<seq<N>>) {
    forall i :: 0 <= i < |lists| ==> |lists[i]| == 1
  }

  function Singles<N>(s: seq<N>): (lists: seq<seq<N>>)
    ensures |lists| == |s| && NoEmpty(lists) && AllAlone(lists)
  {
    seq(|s|, i requires 0 <= i < |s| => [s[i]])
  }

  lemma {:induction false} SinglesFlatten<N>(s: seq<N>)
    ensures Flatten(Singles(s)) == s
  {
    if s != [] {
      var front := s[..|s| - 1];
      SinglesFlatten(front);
      assert Singles(s)[..|s| - 1] == Singles(front);
      assert s == front + [s[|s| - 1]];
    }
  }

  function SortEach<N>(lists: seq<seq<N>>, le: (N, N) -> bool): (r: seq<seq<N>>)
    ensures |r| == |lists| && forall i :: 0 <= i < |lists| ==> r[i] == Sort(lists[i], le)
  {
    seq(|lists|, i requires 0 <= i < |lists| => Sort(lists[i], le))
  }

  lemma {:induction false} SortEachFlatten<N>(lists: seq<seq<N>>, le: (N, N) -> bool)
    ensures multiset(Flatten(SortEach(lists, le))) == multiset(Flatten(lists))
    ensures NoEmpty(lists) ==> NoEmpty(SortEach(lists, le))
  {
    if lists != [] {
      SortEachFlatten(lists[..|lists| - 1], le);
      assert SortEach(lists, le)[..|lists| - 1] == SortEach(lists[..|lists| - 1], le);
    }
    forall i | NoEmpty(lists) && 0 <= i < |lists|
      ensures Sort(lists[i], le) != []
    {
      assert |Sort(lists[i], le)| == |lists[i]|;
    }
  }

  /** Some edge has both ends in the list. */
  predicate Touching<N(==)>(g: Graph<N>, nodes: seq<N>) {
    exists n :: n in nodes && exists m :: m in g.Neighbours(n) && m in nodes
  }

  /** What a second partition makes of a community: single nodes when no edge is inside, the community itself when the
      partitioner fails or finds one group, and otherwise one sorted list per group. */
  ghost predicate SplitsAs<N(!new)>(g: Graph<N>, partition: Partitioner<N>, le: (N, N) -> bool, nodes: seq<N>, lists: seq<seq<N>>) {
    if !Touching(g, nodes) then lists == Singles(Sort(nodes, le))
    else
      match partition(nodes)
      case None => lists == [Sort(nodes, le)]
      case Some(items) =>
        exists groups :: Collected(items, groups)
                         && lists == if |groups| <= 1 then [Sort(nodes, le)] else SortEach(Members(groups), le)
  }

  /** Each list of `before` is replaced by its part of `after`, in order: split when it is too large, else kept. */
  ghost predicate CutWhenLarge<N(!new)>(g: Graph<N>, partition: Partitioner<N>, le: (N, N) -> bool, maxSize: nat,
                                        before: seq<seq<N>>, after: seq<seq<N>>) {
    if before == [] then after == []
    else
      var c := before[|before| - 1];
      exists front, parts :: after == front + parts && CutWhenLarge(g, partition, le, maxSize, before[..|before| - 1], front)
                             && if |c| > maxSize then SplitsAs(g, partition, le, c, parts) else parts == [c]
  }

  /** The same for large communities with few inner edges; a split into one part is no split. */
  ghost predicate CutWhenLoose<N(!new)>(g: Graph<N>, partition: Partitioner<N>, le: (N, N) -> bool,
                                        before: seq<seq<N>>, after: seq<seq<N>>) {
    if before == [] then after == []
    else
      var c := before[|before| - 1];
      exists front, parts :: after == front + parts && CutWhenLoose(g, partition, le, before[..|before| - 1], front)
                             && LoosePart(g, partition, le, c, parts)
  }

  ghost predicate LoosePart<N(!new)>(g: Graph<N>, partition: Partitioner<N>, le: (N, N) -> bool, c: seq<N>, parts: seq<seq<N>>) {
    if |c| >= COHESION_SPLIT_MIN_SIZE && Loose(g, c)
    then exists splits :: SplitsAs(g, partition, le, c, splits) && parts == if |splits| > 1 then splits else [c]
    else parts == [c]
  }

  /** Cut one community along a second partition, or leave it whole. */
  method SplitCommunity<N(==,!new)>(g: Graph<N>, nodes: seq<N>, partition: Partitioner<N>, le: (N, N) -> bool)
    returns (lists: seq<seq<N>>)
    requires Total(partition) && nodes != []
    ensures multiset(Flatten(lists)) == multiset(nodes) && NoEmpty(lists)
    ensures SplitsAs(g, partition, le, nodes, lists)
  {
    var whole := [Sort(nodes, le)];
    assert Flatten(whole) == Sort(nodes, le) by { assert Flatten<N>(whole[..0]) == []; }
    assert |Sort(nodes, le)| == |nodes|;
    if !Touching(g, nodes) {
      SinglesFlatten(Sort(nodes, le));
      return Singles(Sort(nodes, le));
    }
    var items := partition(nodes);
    if items.None? { return whole; }
    var groups := Collect(items.value);
    if |groups| <= 1 { return whole; }
    ContentIsFlatten(groups);
    SortEachFlatten(Members(groups), le);
    lists := SortEach(Members(groups), le);
  }

  /** Edges per possible edge below one twentieth, stated without division: edges are `ends / 2`
      and possible edges `n * (n - 1) / 2`. */
  predicate Loose<N(==)>(g: Graph<N>, nodes: seq<N>) {
    20 * g.InnerEnds(nodes, nodes) < |nodes| * (|nodes| - 1)
  }

  // ---- what looseness means ----

  /** The adjacent pairs, in both directions, from `rest` into `c`. */
  ghost function Adjacent<N>(g: Graph<N>, c: seq<N>, rest: seq<N>): set<(N, N)> {
    set n, m | n in rest && m in g.Neighbours(n) && m in c :: (n, m)
  }

  ghost function Loops<N>(g: Graph<N>, rest: seq<N>): set<N> {
    set n | n in rest && n in g.Neighbours(n)
  }

  ghost function Row<N>(g: Graph<N>, c: seq<N>, n: N): set<N> {
    set m | m in g.Neighbours(n) && m in c
  }

  lemma {:induction false} KeptSize<N>(keep: N -> bool, s: seq<N>, kept: set<N>)
    requires Distinct(s) && kept == set x | x in s && keep(x)
    ensures |Filter(keep, s)| == |kept|
  {
    if s != [] {
      var front, last := s[..|s| - 1], s[|s| - 1];
      var rest := set x | x in front && keep(x);
      KeptSize(keep, front, rest);
      KeptMore(keep, s, kept, rest);
    }
  }

  lemma KeptMore<N>(keep: N -> bool, s: seq<N>, kept: set<N>, rest: set<N>)
    requires s != [] && Distinct(s) && kept == set x | x in s && keep(x)
    requires rest == set x | x in s[..|s| - 1] && keep(x)
    ensures |kept| == |rest| + if keep(s[|s| - 1]) then 1 else 0
  {
    var front, last := s[..|s| - 1], s[|s| - 1];
    assert s == front + [last] && last !in front;
    assert kept == rest + if keep(last) then {last} else {};
  }

  lemma {:induction false} RowSize<N>(n: N, row: set<N>, pairs: set<(N, N)>)
    requires pairs == set m | m in row :: (n, m)
    ensures |pairs| == |row|
  {
    if row != {} {
      var x := Pick(row);
      var fewer := set m | m in row - {x} :: (n, m);
      RowSize(n, row - {x}, fewer);
      assert pairs == fewer + {(n, x)};
    }
  }

  /** The ends inside are the adjacent pairs inside, each in both directions, and a loop once more. */
  lemma {:induction false} EndsCountPairs<N>(g: Graph<N>, c: seq<N>, rest: seq<N>)
    requires Distinct(rest) && (forall n :: n in rest ==> Distinct(g.Neighbours(n)))
    ensures g.InnerEnds(c, rest) == |Adjacent(g, c, rest)| + |Loops(g, rest)|
  {
    if rest != [] {
      var x, tail := rest[0], rest[1..];
      assert rest == [x] + tail;
      DistinctCons(x, tail);
      EndsCountPairs(g, c, tail);
      KeptSize(m => m in c, g.Neighbours(x), Row(g, c, x));
      AdjacentCons(g, c, x, tail);
      LoopsCons(g, x, tail);
    }
  }

  lemma AdjacentCons<N>(g: Graph<N>, c: seq<N>, x: N, tail: seq<N>)
    requires x !in tail
    ensures |Adjacent(g, c, [x] + tail)| == |Row(g, c, x)| + |Adjacent(g, c, tail)|
  {
    var row := Row(g, c, x);
    var pairs := set m | m in row :: (x, m);
    RowSize(x, row, pairs);
    assert Adjacent(g, c, [x] + tail) == pairs + Adjacent(g, c, tail);
    assert pairs !! Adjacent(g, c, tail);
  }

  lemma LoopsCons<N>(g: Graph<N>, x: N, tail: seq<N>)
    requires x !in tail
    ensures |Loops(g, [x] + tail)| == |Loops(g, tail)| + if x in g.Neighbours(x) then 1 else 0
  {
    assert Loops(g, [x] + tail) == (if x in g.Neighbours(x) then {x} else {}) + Loops(g, tail);
  }

  /** A community is loose exactly when fewer than one in twenty of its possible edges is there. */
  lemma LooseIsSparse<N>(g: Graph<N>, c: seq<N>)
    requires |c| >= 2
    ensures var edges, possible := g.InnerEnds(c, c) as real / 2.0, (|c| * (|c| - 1)) as real / 2.0;
            possible > 0.0 && (Loose(g, c) <==> edges / possible < 0.05)
  {
    assert |c| * (|c| - 1) >= |c| - 1;
    Ratio(g.InnerEnds(c, c) as real / 2.0, (|c| * (|c| - 1)) as real / 2.0);
  }

  lemma Ratio(a: real, b: real)
    requires b > 0.0
    ensures a / b < 0.05 <==> 20.0 * a < b
  {
    assert a / b * b == a;
  }

  lemma {:induction false} FullRows<N>(g: Graph<N>, c: seq<N>, rest: seq<N>)
    requires Distinct(c) && (forall n :: n in rest ==> n in c && Distinct(g.Neighbours(n)))
    requires forall n, m :: n in c && m in c && n != m ==> m in g.Neighbours(n)
    ensures g.InnerEnds(c, rest) >= |rest| * (|c| - 1)
  {
    if rest != [] {
      FullRows(g, c, rest[1..]);
      FullRow(g, c, rest[0]);
      OneMoreTime(|rest| - 1, |c| - 1);
    }
  }

  lemma OneMoreTime(n: nat, k: int)
    ensures (n + 1) * k == n * k + k
  {
  }

  lemma FullRow<N>(g: Graph<N>, c: seq<N>, x: N)
    requires Distinct(c) && x in c && Distinct(g.Neighbours(x)) && forall m :: m in c && m != x ==> m in g.Neighbours(x)
    ensures |Filter(m => m in c, g.Neighbours(x))| >= |c| - 1
  {
    KeptSize(m => m in c, g.Neighbours(x), Row(g, c, x));
    KeptSize(m => true, c, set m | m in c);
    KeepAll(c);
    assert (set m | m in c) - {x} <= Row(g, c, x);
    SubsetSize((set m | m in c) - {x}, Row(g, c, x));
  }

  lemma {:induction false} KeepAll<N>(s: seq<N>)
    ensures Filter(m => true, s) == s
  {
    if s != [] {
      KeepAll(s[..|s| - 1]);
      assert s == s[..|s| - 1] + [s[|s| - 1]];
    }
  }

  lemma {:induction false} SubsetSize<T>(a: set<T>, b: set<T>)
    requires a <= b
    ensures |a| <= |b|
  {
    if a != {} {
      var x := Pick(a);
      SubsetSize(a - {x}, b - {x});
    }
  }

  /** Nodes that are all adjacent to each other are never loose. */
  lemma CliqueIsNotLoose<N>(g: Graph<N>, c: seq<N>)
    requires Distinct(c) && forall n :: n in c ==> Distinct(g.Neighbours(n))
    requires forall n, m :: n in c && m in c && n != m ==> m in g.Neighbours(n)
    ensures !Loose(g, c)
  {
    FullRows(g, c, c);
    if c != [] { assert |c| * (|c| - 1) >= 0; }
  }

  ghost function DegreeSum<N>(g: Graph<N>, nodes: seq<N>): nat {
    if nodes == [] then 0 else g.Degree(nodes[0]) + DegreeSum(g, nodes[1..])
  }

  /** Handshaking: when every neighbour is there, the ends inside are the degrees together. */
  lemma {:induction false} EndsAreDegrees<N>(g: Graph<N>, c: seq<N>, rest: seq<N>)
    requires forall n, m :: n in rest && m in g.Neighbours(n) ==> m in c
    ensures g.InnerEnds(c, rest) == DegreeSum(g, rest)
  {
    if rest != [] {
      EndsAreDegrees(g, c, rest[1..]);
      FilterAgree(m => m in c, m => true, g.Neighbours(rest[0]));
      KeepAll(g.Neighbours(rest[0]));
    }
  }

  // ---- numbering ----

  /** Larger communities first; ties by their sorted members. */
  predicate SizeLe<N(==)>(le: (N, N) -> bool, a: seq<N>, b: seq<N>) {
    |a| > |b| || (|a| == |b| && LexLe(le, Sort(a, le), Sort(b, le)))
  }

  /** The same order on lists that are already sorted. */
  predicate CanonLe<N(==)>(le: (N, N) -> bool, a: seq<N>, b: seq<N>) {
    |a| > |b| || (|a| == |b| && LexLe(le, a, b))
  }

  /** Position i holds community i. */
  function Number<N(==)>(lists: seq<seq<N>>, le: (N, N) -> bool): seq<seq<N>> {
    SortEach(Sort(lists, (a, b) => SizeLe(le, a, b)), le)
  }

  lemma SizeOrders<N(!new)>(le: (N, N) -> bool)
    requires TotalOrder(le)
    ensures TotalPreorder((a, b) => SizeLe(le, a, b)) && TotalOrder((a, b) => CanonLe(le, a, b))
  {
    forall a, b
      ensures SizeLe(le, a, b) || SizeLe(le, b, a)
      ensures CanonLe(le, a, b) || CanonLe(le, b, a)
      ensures CanonLe(le, a, b) && CanonLe(le, b, a) ==> a == b
    {
      LexTotal(le, Sort(a, le), Sort(b, le));
      LexTotal(le, a, b);
    }
    forall a, b, c | SizeLe(le, a, b) && SizeLe(le, b, c)
      ensures SizeLe(le, a, c)
    {
      if |a| == |c| { LexTransitive(le, Sort(a, le), Sort(b, le), Sort(c, le)); }
    }
    forall a, b, c | CanonLe(le, a, b) && CanonLe(le, b, c)
      ensures CanonLe(le, a, c)
    {
      if |a| == |c| { LexTransitive(le, a, b, c); }
    }
  }

  lemma RemoveAt<T>(s: seq<T>, i: nat)
    requires i < |s|
    ensures multiset(s) == multiset(s[..i] + s[i + 1..]) + multiset{s[i]}
  {
    assert s == s[..i] + ([s[i]] + s[i + 1..]);
  }

  lemma SortEachPlus<N>(a: seq<seq<N>>, b: seq<seq<N>>, le: (N, N) -> bool)
    ensures SortEach(a + b, le) == SortEach(a, le) + SortEach(b, le)
  {
  }

  lemma SortEachRemove<N>(s: seq<seq<N>>, i: nat, le: (N, N) -> bool)
    requires i < |s|
    ensures multiset(SortEach(s, le)) == multiset(SortEach(s[..i] + s[i + 1..], le)) + multiset{Sort(s[i], le)}
  {
    RemoveAt(SortEach(s, le), i);
    SortEachPlus(s[..i], s[i + 1..], le);
    assert SortEach(s, le)[..i] == SortEach(s[..i], le);
    assert SortEach(s, le)[i + 1..] == SortEach(s[i + 1..], le);
  }

  lemma {:induction false} SortEachMultiset<N>(a: seq<seq<N>>, b: seq<seq<N>>, le: (N, N) -> bool)
    requires multiset(a) == multiset(b)
    ensures multiset(SortEach(a, le)) == multiset(SortEach(b, le))
  {
    assert |a| == |multiset(a)| == |multiset(b)| == |b|;
    if a != [] {
      var n := |a| - 1;
      var x := a[n];
      assert x in multiset(b);
      var i := IndexOf(b, x);
      RemoveAt(a, n);
      RemoveAt(b, i);
      assert multiset(a[..n] + a[n + 1..]) == multiset(a) - multiset{x};
      assert multiset(b[..i] + b[i + 1..]) == multiset(b) - multiset{x};
      SortEachMultiset(a[..n] + a[n + 1..], b[..i] + b[i + 1..], le);
      SortEachRemove(a, n, le);
      SortEachRemove(b, i, le);
    }
  }

  /** Numbering by the code's key is sorting the sorted communities by a total order. */
  lemma NumberIsCanonical<N(!new)>(lists: seq<seq<N>>, le: (N, N) -> bool)
    requires TotalOrder(le)
    ensures Number(lists, le) == Sort(SortEach(lists, le), (a, b) => CanonLe(le, a, b))
  {
    SizeOrders(le);
    var bySize := Sort(lists, (a, b) => SizeLe(le, a, b));
    SortSorted(lists, (a, b) => SizeLe(le, a, b));
    SortEachMultiset(bySize, lists, le);
    SortSorted(SortEach(lists, le), (a, b) => CanonLe(le, a, b));
    forall i, j | 0 <= i < j < |bySize|
      ensures CanonLe(le, Number(lists, le)[i], Number(lists, le)[j])
    {
      assert ((a, b) => SizeLe(le, a, b))(bySize[i], bySize[j]);
    }
    assert Sorted(Number(lists, le), (a, b) => CanonLe(le, a, b));
    SortedUnique(Number(lists, le), Sort(SortEach(lists, le), (a, b) => CanonLe(le, a, b)), (a, b) => CanonLe(le, a, b));
  }

  // ---- the numbering depends only on the grouping ----

  ghost function Block<N>(c: seq<N>): set<N> {
    set x | x in c
  }

  /** The grouping as a set of sets. */
  ghost function Blocks<N>(lists: seq<seq<N>>): set<set<N>> {
    set c | c in lists :: Block(c)
  }

  lemma {:induction false} InFlatten<N>(lists: seq<seq<N>>, i: nat, x: N)
    requires i < |lists| && x in lists[i]
    ensures x in Flatten(lists)
  {
    if i < |lists| - 1 { InFlatten(lists[..|lists| - 1], i, x); }
  }

  /** In a partition, every block lists its nodes once, and no node is in two blocks. */
  lemma {:induction false} PartitionParts<N>(lists: seq<seq<N>>, i: nat)
    requires Distinct(Flatten(lists)) && i < |lists|
    ensures Distinct(lists[i])
    ensures forall j, x :: 0 <= j < |lists| && j != i && x in lists[i] ==> x !in lists[j]
  {
    var front, last := lists[..|lists| - 1], lists[|lists| - 1];
    var head := Flatten(front);
    assert Flatten(lists) == head + last;
    assert Distinct(head) by {
      assert forall k :: 0 <= k < |head| ==> head[k] == Flatten(lists)[k];
    }
    assert Distinct(last) by {
      assert forall k :: 0 <= k < |last| ==> last[k] == Flatten(lists)[|head| + k];
    }
    if i < |front| { PartitionParts(front, i); }
    forall p, q | 0 <= p < |head| && 0 <= q < |last|
      ensures head[p] != last[q]
    {
      assert Flatten(lists)[p] != Flatten(lists)[|head| + q];
    }
    forall k, x | 0 <= k < |front| && x in front[k]
      ensures x !in last
    {
      InFlatten(front, k, x);
    }
    assert forall j :: 0 <= j < |front| ==> front[j] == lists[j];
  }

  lemma SameBlockSameSort<N(!new)>(c: seq<N>, d: seq<N>, le: (N, N) -> bool)
    requires TotalOrder(le) && Distinct(c) && Distinct(d) && Block(c) == Block(d)
    ensures Sort(c, le) == Sort(d, le)
  {
    forall x
      ensures x in c <==> x in d
    {
      assert x in c <==> x in Block(c);
      assert x in d <==> x in Block(d);
    }
    SameMembersSameMultiset(c, d);
    SortDependsOnContents(c, d, le);
  }

  lemma SameMembersSameMultiset<T>(a: seq<T>, b: seq<T>)
    requires Distinct(a) && Distinct(b) && forall x :: x in a <==> x in b
    ensures multiset(a) == multiset(b)
  {
    DistinctCounts(a);
    DistinctCounts(b);
    forall x
      ensures multiset(a)[x] == multiset(b)[x]
    {
      assert x in a <==> x in multiset(a);
      assert x in b <==> x in multiset(b);
    }
  }

  lemma SortedBlocksDistinct<N(!new)>(a: seq<seq<N>>, le: (N, N) -> bool)
    requires Distinct(Flatten(a)) && NoEmpty(a)
    ensures Distinct(SortEach(a, le))
  {
    forall i, j | 0 <= i < j < |a|
      ensures Sort(a[i], le) != Sort(a[j], le)
    {
      PartitionParts(a, i);
      var x := a[i][0];
      SortMembers(a[i], le, x);
      SortMembers(a[j], le, x);
    }
  }

  lemma SortedBlocksIncluded<N(!new)>(a: seq<seq<N>>, b: seq<seq<N>>, le: (N, N) -> bool, s: seq<N>)
    requires TotalOrder(le) && Distinct(Flatten(a)) && Distinct(Flatten(b)) && Blocks(a) <= Blocks(b)
    requires s in SortEach(a, le)
    ensures s in SortEach(b, le)
  {
    var i := IndexOf(SortEach(a, le), s);
    assert Block(a[i]) in Blocks(b);
    var d :| d in b && Block(d) == Block(a[i]);
    var j := IndexOf(b, d);
    PartitionParts(a, i);
    PartitionParts(b, j);
    SameBlockSameSort(a[i], b[j], le);
    assert SortEach(b, le)[j] == s;
  }

  /** Two runs that end in the same grouping number it identically, however it was enumerated. */
  lemma NumberDependsOnGrouping<N(!new)>(a: seq<seq<N>>, b: seq<seq<N>>, le: (N, N) -> bool)
    requires TotalOrder(le) && Distinct(Flatten(a)) && Distinct(Flatten(b)) && NoEmpty(a) && NoEmpty(b)
    requires Blocks(a) == Blocks(b)
    ensures Number(a, le) == Number(b, le)
  {
    SortedBlocksDistinct(a, le);
    SortedBlocksDistinct(b, le);
    forall s
      ensures s in SortEach(a, le) <==> s in SortEach(b, le)
    {
      if s in SortEach(a, le) { SortedBlocksIncluded(a, b, le, s); }
      if s in SortEach(b, le) { SortedBlocksIncluded(b, a, le, s); }
    }
    SameMembersSameMultiset(SortEach(a, le), SortEach(b, le));
    NumberIsCanonical(a, le);
    NumberIsCanonical(b, le);
    SizeOrders(le);
    SortDependsOnContents(SortEach(a, le), SortEach(b, le), (x, y) => CanonLe(le, x, y));
  }

  // ---- the whole procedure ----

  lemma NextCounts<T>(s: seq<T>, i: nat)
    requires i < |s|
    ensures multiset(s[..i + 1]) == multiset(s[..i]) + multiset([s[i]])
  {
    assert s[..i + 1] == s[..i] + [s[i]];
  }

  /** One community for each node, numbered from `next`. */
  function SinglesFrom<N>(nodes: seq<N>, next: int): (groups: Groups<N>)
    ensures |groups| == |nodes|
  {
    seq(|nodes|, i requires 0 <= i < |nodes| => (next + i, [nodes[i]]))
  }

  lemma OneMoreSingle<N>(nodes: seq<N>, next: int, i: nat)
    requires i < |nodes|
    ensures SinglesFrom(nodes[..i + 1], next) == SinglesFrom(nodes[..i], next) + [(next + i, [nodes[i]])]
  {
  }

  /** Every isolate becomes its own community. */
  method AddIsolates<N>(isolates: seq<N>, groups0: Groups<N>, next0: int) returns (groups: Groups<N>, next: int)
    requires Below(groups0, next0) && Full(groups0)
    ensures Below(groups, next) && Full(groups) && Content(groups) == Content(groups0) + multiset(isolates)
    ensures groups == groups0 + SinglesFrom(isolates, next0) && next == next0 + |isolates|
  {
    groups, next := groups0, next0;
    for i := 0 to |isolates|
      invariant groups == groups0 + SinglesFrom(isolates[..i], next0) && next == next0 + i
    {
      SinglesFit(groups0, isolates[..i], next0);
      PutFresh(groups, next, [isolates[i]]);
      OneMoreSingle(isolates, next0, i);
      groups := Put(groups, next, [isolates[i]]);
      next := next + 1;
    }
    assert isolates[..|isolates|] == isolates;
    SinglesFit(groups0, isolates, next0);
    SinglesContent(groups0, isolates, next0);
  }

  lemma SinglesFit<N>(groups: Groups<N>, nodes: seq<N>, next: int)
    requires Below(groups, next) && Full(groups)
    ensures Below(groups + SinglesFrom(nodes, next), next + |nodes|) && Full(groups + SinglesFrom(nodes, next))
  {
  }

  lemma {:induction false} SinglesContent<N>(groups: Groups<N>, nodes: seq<N>, next: int)
    ensures Content(groups + SinglesFrom(nodes, next)) == Content(groups) + multiset(nodes)
  {
    if nodes == [] {
      assert groups + SinglesFrom(nodes, next) == groups;
    } else {
      var n := |nodes| - 1;
      var before := groups + SinglesFrom(nodes[..n], next);
      SinglesContent(groups, nodes[..n], next);
      OneMoreSingle(nodes, next, n);
      NextCounts(nodes, n);
      WholeAgain(nodes);
      ContentAppend(before, (next + n, [nodes[n]]));
      Associate(groups, SinglesFrom(nodes[..n], next), [(next + n, [nodes[n]])]);
    }
  }

  lemma Associate<T>(a: seq<T>, b: seq<T>, c: seq<T>)
    ensures a + b + c == a + (b + c)
  {
  }

  lemma WholeAgain<T>(s: seq<T>)
    requires s != []
    ensures s[..|s| - 1 + 1] == s
  {
  }

  ghost predicate LivesIn<N>(groups: Groups<N>, n: N, cid: int) {
    exists i :: 0 <= i < |groups| && groups[i].0 == cid && n in groups[i].1
  }

  /** Every listed node, with the number of a group that lists it. */
  ghost predicate Located<N(!new)>(groups: Groups<N>, community: map<N, int>) {
    && (forall n :: n in community ==> LivesIn(groups, n, community[n]))
    && (forall n, c {:trigger LivesIn(groups, n, c)} :: LivesIn(groups, n, c) ==> n in community)
  }

  lemma LivesInMore<N>(groups: Groups<N>, g: (int, seq<N>), n: N, c: int)
    ensures LivesIn(groups + [g], n, c) <==> LivesIn(groups, n, c) || (g.0 == c && n in g.1)
  {
    var more := groups + [g];
    if LivesIn(groups, n, c) {
      var i :| 0 <= i < |groups| && groups[i].0 == c && n in groups[i].1;
      assert more[i] == groups[i];
    }
    if g.0 == c && n in g.1 { assert more[|groups|] == g; }
  }

  method Assign<N(==)>(community0: map<N, int>, g: (int, seq<N>)) returns (community: map<N, int>)
    ensures forall n :: n in community <==> n in community0 || n in g.1
    ensures forall n :: n in community ==> community[n] == if n in g.1 then g.0 else community0[n]
  {
    community := community0;
    for j := 0 to |g.1|
      invariant forall n :: n in community <==> n in community0 || n in g.1[..j]
      invariant forall n :: n in community ==> community[n] == if n in g.1[..j] then g.0 else community0[n]
    {
      OneMore(g.1, j);
      community := community[g.1[j] := g.0];
    }
    assert g.1[..|g.1|] == g.1;
  }

  /** The community of every node, from the groups. */
  method CommunityOf<N(==,!new)>(groups: Groups<N>) returns (community: map<N, int>)
    ensures Located(groups, community)
  {
    community := map[];
    for i := 0 to |groups|
      invariant Located(groups[..i], community)
    {
      ghost var before := community;
      community := Assign(community, groups[i]);
      OneMore(groups, i);
      LocatedStep(groups[..i], groups[i], before, community);
    }
    assert groups[..|groups|] == groups;
  }

  lemma LocatedStep<N(!new)>(groups: Groups<N>, g: (int, seq<N>), before: map<N, int>, after: map<N, int>)
    requires Located(groups, before)
    requires forall n :: n in after <==> n in before || n in g.1
    requires forall n :: n in after ==> after[n] == if n in g.1 then g.0 else before[n]
    ensures Located(groups + [g], after)
  {
    forall n, c
      ensures LivesIn(groups + [g], n, c) <==> LivesIn(groups, n, c) || (g.0 == c && n in g.1)
    {
      LivesInMore(groups, g, n, c);
    }
  }

  lemma LocatedBelow<N(!new)>(groups: Groups<N>, community: map<N, int>, bound: int)
    requires Below(groups, bound) && Located(groups, community)
    ensures forall n :: n in community ==> community[n] < bound
  {
    forall n | n in community
      ensures community[n] < bound
    {
      assert LivesIn(groups, n, community[n]);
    }
  }

  /** The dictionary while hubs are put back: groups, the number of every placed node, the next fresh number. */
  datatype Placing<!N(==)> = Placing(groups: Groups<N>, community: map<N, int>, next: int)

  /** The hub joins a community that wins the vote of its neighbours; with no neighbour placed, it gets its own. */
  ghost predicate HubPlaced<N>(g: Graph<N>, hub: N, p: Placing<N>, q: Placing<N>) {
    if forall m :: m in g.Neighbours(hub) ==> m !in p.community
    then q == Placing(p.groups + [(p.next, [hub])], p.community[hub := p.next], p.next + 1)
    else
      && hub in q.community && Wins(g.Neighbours(hub), p.community, q.community[hub])
      && q == Placing(AddTo(p.groups, q.community[hub], hub), p.community[hub := q.community[hub]], p.next)
  }

  /** The hubs are placed one after the other, each voting with those before it. */
  ghost predicate HubsPlaced<N(!new)>(g: Graph<N>, hubs: seq<N>, p: Placing<N>, q: Placing<N>) {
    if hubs == [] then q == p
    else
      var n := |hubs| - 1;
      exists mid :: HubsPlaced(g, hubs[..n], p, mid) && HubPlaced(g, hubs[n], mid, q)
  }

  lemma OneMoreHub<N(!new)>(g: Graph<N>, hubs: seq<N>, i: nat, p: Placing<N>, mid: Placing<N>, q: Placing<N>)
    requires i < |hubs| && HubsPlaced(g, hubs[..i], p, mid) && HubPlaced(g, hubs[i], mid, q)
    ensures HubsPlaced(g, hubs[..i + 1], p, q)
  {
    assert hubs[..i + 1][..i] == hubs[..i];
  }

  /** One hub joins the community of most of its neighbours, or becomes its own. */
  method ReattachHub<N(==)>(g: Graph<N>, hub: N, community0: map<N, int>, groups0: Groups<N>, next0: int)
    returns (groups: Groups<N>, community: map<N, int>, next: int)
    requires Below(groups0, next0) && Full(groups0) && forall n :: n in community0 ==> community0[n] < next0
    ensures Below(groups, next) && Full(groups) && forall n :: n in community ==> community[n] < next
    ensures Content(groups) == Content(groups0) + multiset{hub}
    ensures HubPlaced(g, hub, Placing(groups0, community0, next0), Placing(groups, community, next))
  {
    var best := MajorityVote(g.Neighbours(hub), community0);
    if best.Some? {
      AddToContent(groups0, best.value, hub);
      AddToBelow(groups0, best.value, hub, next0);
      return AddTo(groups0, best.value, hub), community0[hub := best.value], next0;
    }
    PutKeeps(groups0, next0, [hub]);
    PutFresh(groups0, next0, [hub]);
    return Put(groups0, next0, [hub]), community0[hub := next0], next0 + 1;
  }

  /** All hubs find their place, starting from where the groups put every other node. */
  ghost predicate Reattached<N(!new)>(g: Graph<N>, hubs: seq<N>, groups0: Groups<N>, next0: int, groups: Groups<N>) {
    exists p: Placing<N>, q: Placing<N> ::
      && p.groups == groups0 && p.next == next0 && Located(groups0, p.community)
      && HubsPlaced(g, hubs, p, q) && q.groups == groups
  }

  method ReattachHubs<N(==,!new)>(g: Graph<N>, hubs: seq<N>, groups0: Groups<N>, next0: int) returns (groups: Groups<N>)
    requires Below(groups0, next0) && Full(groups0)
    ensures Content(groups) == Content(groups0) + multiset(hubs) && Full(groups)
    ensures Reattached(g, hubs, groups0, next0, groups)
  {
    groups := groups0;
    var next := next0;
    var community := CommunityOf(groups);
    LocatedBelow(groups, community, next);
    ghost var start := Placing(groups0, community, next0);
    for i := 0 to |hubs|
      invariant Below(groups, next) && Full(groups)
      invariant forall n :: n in community ==> community[n] < next
      invariant Content(groups) == Content(groups0) + multiset(hubs[..i])
      invariant HubsPlaced(g, hubs[..i], start, Placing(groups, community, next))
    {
      NextCounts(hubs, i);
      ghost var mid := Placing(groups, community, next);
      groups, community, next := ReattachHub(g, hubs[i], community, groups, next);
      OneMoreHub(g, hubs, i, start, mid, Placing(groups, community, next));
    }
    assert hubs[..|hubs|] == hubs;
  }

  lemma FlattenOne<N>(c: seq<N>)
    ensures Flatten([c]) == c
  {
    assert Flatten<N>([c][..0]) == [];
  }

  /** One more list has been replaced by its parts. */
  lemma GrowParts<N>(before: seq<seq<N>>, c: seq<N>, front: seq<seq<N>>, parts: seq<seq<N>>)
    requires multiset(Flatten(front)) == multiset(Flatten(before)) && NoEmpty(front)
    requires multiset(Flatten(parts)) == multiset(c) && NoEmpty(parts)
    ensures multiset(Flatten(front + parts)) == multiset(Flatten(before + [c])) && NoEmpty(front + parts)
  {
    FlattenAppend(front, parts);
    FlattenAppend(before, [c]);
    FlattenOne(c);
  }

  lemma LargeStep<N(!new)>(g: Graph<N>, partition: Partitioner<N>, le: (N, N) -> bool, maxSize: nat,
                           before: seq<seq<N>>, c: seq<N>, front: seq<seq<N>>, parts: seq<seq<N>>)
    requires CutWhenLarge(g, partition, le, maxSize, before, front)
    requires if |c| > maxSize then SplitsAs(g, partition, le, c, parts) else parts == [c]
    ensures CutWhenLarge(g, partition, le, maxSize, before + [c], front + parts)
  {
    assert (before + [c])[..|before|] == before;
  }

  lemma LooseStep<N(!new)>(g: Graph<N>, partition: Partitioner<N>, le: (N, N) -> bool,
                           before: seq<seq<N>>, c: seq<N>, front: seq<seq<N>>, parts: seq<seq<N>>)
    requires CutWhenLoose(g, partition, le, before, front) && LoosePart(g, partition, le, c, parts)
    ensures CutWhenLoose(g, partition, le, before + [c], front + parts)
  {
    assert (before + [c])[..|before|] == before;
  }

  lemma OneMore<T>(s: seq<T>, i: nat)
    requires i < |s|
    ensures s[..i] + [s[i]] == s[..i + 1]
  {
  }

  method SplitIfLarge<N(==,!new)>(g: Graph<N>, c: seq<N>, maxSize: nat, partition: Partitioner<N>, le: (N, N) -> bool)
    returns (parts: seq<seq<N>>)
    requires Total(partition) && c != []
    ensures multiset(Flatten(parts)) == multiset(c) && NoEmpty(parts)
    ensures if |c| > maxSize then SplitsAs(g, partition, le, c, parts) else parts == [c]
  {
    parts := [c];
    FlattenOne(c);
    if |c| > maxSize {
      parts := SplitCommunity(g, c, partition, le);
    }
  }

  /** Split what is larger than `maxSize`. */
  method SplitOversized<N(==,!new)>(g: Graph<N>, lists0: seq<seq<N>>, maxSize: nat, partition: Partitioner<N>, le: (N, N) -> bool)
    returns (lists: seq<seq<N>>)
    requires Total(partition) && NoEmpty(lists0)
    ensures multiset(Flatten(lists)) == multiset(Flatten(lists0)) && NoEmpty(lists)
    ensures CutWhenLarge(g, partition, le, maxSize, lists0, lists)
  {
    lists := [];
    for i := 0 to |lists0|
      invariant multiset(Flatten(lists)) == multiset(Flatten(lists0[..i])) && NoEmpty(lists)
      invariant CutWhenLarge(g, partition, le, maxSize, lists0[..i], lists)
    {
      var parts := SplitIfLarge(g, lists0[i], maxSize, partition, le);
      GrowParts(lists0[..i], lists0[i], lists, parts);
      LargeStep(g, partition, le, maxSize, lists0[..i], lists0[i], lists, parts);
      OneMore(lists0, i);
      lists := lists + parts;
    }
    assert lists0[..|lists0|] == lists0;
  }

  method SplitIfLoose<N(==,!new)>(g: Graph<N>, c: seq<N>, partition: Partitioner<N>, le: (N, N) -> bool)
    returns (parts: seq<seq<N>>)
    requires Total(partition) && c != []
    ensures multiset(Flatten(parts)) == multiset(c) && NoEmpty(parts)
    ensures LoosePart(g, partition, le, c, parts)
  {
    parts := [c];
    FlattenOne(c);
    if |c| >= COHESION_SPLIT_MIN_SIZE && Loose(g, c) {
      var splits := SplitCommunity(g, c, partition, le);
      if |splits| > 1 { parts := splits; }
    }
  }

  /** Split large communities of low cohesion, keeping those a second partition cannot cut. */
  method SplitLoose<N(==,!new)>(g: Graph<N>, lists0: seq<seq<N>>, partition: Partitioner<N>, le: (N, N) -> bool)
    returns (lists: seq<seq<N>>)
    requires Total(partition) && NoEmpty(lists0)
    ensures multiset(Flatten(lists)) == multiset(Flatten(lists0)) && NoEmpty(lists)
    ensures CutWhenLoose(g, partition, le, lists0, lists)
  {
    lists := [];
    for i := 0 to |lists0|
      invariant multiset(Flatten(lists)) == multiset(Flatten(lists0[..i])) && NoEmpty(lists)
      invariant CutWhenLoose(g, partition, le, lists0[..i], lists)
    {
      var parts := SplitIfLoose(g, lists0[i], partition, le);
      GrowParts(lists0[..i], lists0[i], lists, parts);
      LooseStep(g, partition, le, lists0[..i], lists0[i], lists, parts);
      OneMore(lists0, i);
      lists := lists + parts;
    }
    assert lists0[..|lists0|] == lists0;
  }

  lemma {:induction false} FilterTwice<N>(first: N -> bool, second: N -> bool, both: N -> bool, s: seq<N>)
    requires forall x :: x in s ==> both(x) == (first(x) && second(x))
    ensures Filter(both, s) == Filter(second, Filter(first, s))
  {
    if s != [] {
      var front, last := s[..|s| - 1], s[|s| - 1];
      FilterTwice(first, second, both, front);
      if first(last) {
        assert (Filter(first, front) + [last])[..|Filter(first, front)|] == Filter(first, front);
      }
    }
  }

  lemma ThreeWay<N>(g: Graph<N>, t: Option<int>, nodes: seq<N>)
    ensures multiset(nodes) ==
            multiset(Filter(n => !IsHub(g, t, n) && g.Degree(n) > 0, nodes)) +
            multiset(Filter(n => !IsHub(g, t, n) && g.Degree(n) == 0, nodes)) +
            multiset(Filter(n => IsHub(g, t, n), nodes))
  {
    var plain := Filter(n => !IsHub(g, t, n), nodes);
    FilterSplit(n => !IsHub(g, t, n), n => IsHub(g, t, n), nodes);
    FilterSplit(n => g.Degree(n) > 0, n => g.Degree(n) == 0, plain);
    FilterTwice(n => !IsHub(g, t, n), n => g.Degree(n) > 0, n => !IsHub(g, t, n) && g.Degree(n) > 0, nodes);
    FilterTwice(n => !IsHub(g, t, n), n => g.Degree(n) == 0, n => !IsHub(g, t, n) && g.Degree(n) == 0, nodes);
  }

  function Connected<N(==)>(g: Graph<N>, t: Option<int>): seq<N> {
    Filter(n => !IsHub(g, t, n) && g.Degree(n) > 0, g.nodes)
  }

  function Isolates<N(==)>(g: Graph<N>, t: Option<int>): seq<N> {
    Filter(n => !IsHub(g, t, n) && g.Degree(n) == 0, g.nodes)
  }

  function Hubs<N(==)>(g: Graph<N>, t: Option<int>, le: (N, N) -> bool): seq<N> {
    Sort(Filter(n => IsHub(g, t, n), g.nodes), le)
  }

  /** The partitioner's answer for the connected nodes, as groups. */
  ghost predicate Partitioned<N(!new)>(g: Graph<N>, partition: Partitioner<N>, t: Option<int>, groups: Groups<N>) {
    var connected := Connected(g, t);
    if connected == [] then groups == []
    else partition(connected).Some? && Collected(partition(connected).value, groups)
  }

  /** The communities before any split: the partition, the isolates as single nodes, then the hubs in order. */
  ghost predicate Assembled<N(!new)>(g: Graph<N>, partition: Partitioner<N>, t: Option<int>, le: (N, N) -> bool,
                                     raw: Groups<N>)
  {
    exists groups, next :: Partitioned(g, partition, t, groups) && IsNext(groups, next)
                           && Completed(g, t, le, groups, next, raw)
  }

  ghost predicate Completed<N(!new)>(g: Graph<N>, t: Option<int>, le: (N, N) -> bool, groups: Groups<N>, next: int,
                                     raw: Groups<N>)
  {
    var all := groups + SinglesFrom(Isolates(g, t), next);
    if Hubs(g, t, le) == [] then raw == all
    else Reattached(g, Hubs(g, t, le), all, next + |Isolates(g, t)|, raw)
  }

  /** What both splitting passes make of the raw groups. */
  ghost predicate SplitTwice<N(!new)>(g: Graph<N>, partition: Partitioner<N>, le: (N, N) -> bool, raw: Groups<N>,
                                      lists: seq<seq<N>>)
  {
    exists first :: CutWhenLarge(g, partition, le, Max(MIN_SPLIT_SIZE, |g.nodes| / 4), Members(raw), first)
                    && CutWhenLoose(g, partition, le, first, lists)
  }

  /** The communities of a graph with edges, before they are numbered. */
  ghost predicate Grouped<N(!new)>(g: Graph<N>, partition: Partitioner<N>, percentile: Option<real>, le: (N, N) -> bool,
                                   lists: seq<seq<N>>)
    requires percentile.Some? ==> 0.0 <= percentile.value <= 100.0
  {
    exists t, raw :: IsThreshold(g, percentile, t) && Assembled(g, partition, t, le, raw)
                     && SplitTwice(g, partition, le, raw, lists)
  }

  /** The partitioner fails on the connected nodes. */
  ghost predicate Fails<N(!new)>(g: Graph<N>, partition: Partitioner<N>, percentile: Option<real>)
    requires percentile.Some? ==> 0.0 <= percentile.value <= 100.0
  {
    exists t :: IsThreshold(g, percentile, t) && Connected(g, t) != [] && partition(Connected(g, t)).None?
  }

  /** Both splitting passes over the raw groups. */
  method SplitAll<N(==,!new)>(g: Graph<N>, raw: Groups<N>, partition: Partitioner<N>, le: (N, N) -> bool)
    returns (lists: seq<seq<N>>)
    requires Total(partition) && Full(raw)
    ensures multiset(Flatten(lists)) == Content(raw) && NoEmpty(lists)
    ensures SplitTwice(g, partition, le, raw, lists)
  {
    ContentIsFlatten(raw);
    var first := SplitOversized(g, Members(raw), Max(MIN_SPLIT_SIZE, |g.nodes| / 4), partition, le);
    lists := SplitLoose(g, first, partition, le);
  }

  /** The communities before they are numbered: a partition of all nodes. */
  method Grouping<N(==,!new)>(g: Graph<N>, partition: Partitioner<N>, percentile: Option<real>, le: (N, N) -> bool)
    returns (r: Option<seq<seq<N>>>)
    requires Total(partition) && (percentile.Some? ==> 0.0 <= percentile.value <= 100.0)
    ensures r.Some? ==> multiset(Flatten(r.value)) == multiset(g.nodes) && NoEmpty(r.value)
    ensures r.Some? ==> Grouped(g, partition, percentile, le, r.value)
    ensures r.None? ==> Fails(g, partition, percentile)
  {
    var t := HubThreshold(g, percentile);
    var hubs, isolates, connected := Hubs(g, t, le), Isolates(g, t), Connected(g, t);
    ThreeWay(g, t, g.nodes);
    var raw: Groups<N> := [];
    if connected != [] {
      var items := partition(connected);
      if items.None? { return None; }
      raw := Collect(items.value);
    }
    ghost var groups := raw;
    var next := NextCid(raw);
    ghost var first := next;
    raw, next := AddIsolates(isolates, raw, next);
    if hubs != [] { raw := ReattachHubs(g, hubs, raw, next); }
    assert Partitioned(g, partition, t, groups) && Completed(g, t, le, groups, first, raw);
    assert Assembled(g, partition, t, le, raw);
    var lists := SplitAll(g, raw, partition, le);
    r := Some(lists);
  }

  // ---- when nothing is a hub and nothing is split ----

  lemma {:induction false} SmallAreNotCut<N(!new)>(g: Graph<N>, partition: Partitioner<N>, le: (N, N) -> bool, maxSize: nat,
                                                   before: seq<seq<N>>, after: seq<seq<N>>)
    requires CutWhenLarge(g, partition, le, maxSize, before, after) && forall i :: 0 <= i < |before| ==> |before[i]| <= maxSize
    ensures after == before
  {
    if before != [] {
      var rest, c := before[..|before| - 1], before[|before| - 1];
      var front, parts :| after == front + parts && CutWhenLarge(g, partition, le, maxSize, rest, front)
                          && if |c| > maxSize then SplitsAs(g, partition, le, c, parts) else parts == [c];
      SmallAreNotCut(g, partition, le, maxSize, rest, front);
      assert parts == [c] && before == rest + [c];
    }
  }

  lemma {:induction false} SmallAreNotLoose<N(!new)>(g: Graph<N>, partition: Partitioner<N>, le: (N, N) -> bool,
                                                     before: seq<seq<N>>, after: seq<seq<N>>)
    requires CutWhenLoose(g, partition, le, before, after)
    requires forall i :: 0 <= i < |before| ==> |before[i]| < COHESION_SPLIT_MIN_SIZE
    ensures after == before
  {
    if before != [] {
      var rest, c := before[..|before| - 1], before[|before| - 1];
      var front, parts :| after == front + parts && CutWhenLoose(g, partition, le, rest, front)
                          && LoosePart(g, partition, le, c, parts);
      SmallAreNotLoose(g, partition, le, rest, front);
      assert parts == [c] && before == rest + [c];
    }
  }

  lemma {:induction false} AtKey<N>(groups: Groups<N>, i: nat)
    requires Distinct(Keys(groups)) && i < |groups|
    ensures At(groups, groups[i].0) == groups[i].1
  {
    var keys := Keys(groups);
    assert keys[i] == groups[i].0;
    if i > 0 {
      assert keys[0] != keys[i] && keys == [groups[0].0] + Keys(groups[1..]);
      DistinctCons(groups[0].0, Keys(groups[1..]));
      AtKey(groups[1..], i - 1);
    }
  }

  lemma {:induction false} AtFound<N>(groups: Groups<N>, cid: int) returns (i: nat)
    requires At(groups, cid) != []
    ensures i < |groups| && groups[i].0 == cid && groups[i].1 == At(groups, cid)
  {
    if groups[0].0 == cid {
      i := 0;
    } else {
      var k := AtFound(groups[1..], cid);
      i := k + 1;
    }
  }

  lemma {:induction false} FirstsAre<N>(items: seq<(N, int)>)
    ensures |Firsts(items)| == |items| && forall i :: 0 <= i < |items| ==> Firsts(items)[i] == items[i].0
  {
    if items != [] { FirstsAre(items[..|items| - 1]); }
  }

  lemma OneNumberEach<N>(items: seq<(N, int)>, x: N, c: int, d: int)
    requires Distinct(Firsts(items)) && (x, c) in items && (x, d) in items
    ensures c == d
  {
    FirstsAre(items);
    var p, q := IndexOf(items, (x, c)), IndexOf(items, (x, d));
    assert Firsts(items)[p] == Firsts(items)[q];
  }

  /** Two nodes share a list. */
  ghost predicate Together<N>(lists: seq<seq<N>>, x: N, y: N) {
    exists i :: 0 <= i < |lists| && x in lists[i] && y in lists[i]
  }

  lemma NoHubs<N>(g: Graph<N>, le: (N, N) -> bool)
    ensures Hubs(g, None, le) == []
  {
    var none := Filter(n => IsHub(g, None, n), g.nodes);
    if none != [] { FilterMembers(n => IsHub(g, None, n), g.nodes, none[0]); }
  }

  /** The groups of a dictionary of nodes that are in the partition are the numbers of the partition. */
  lemma GroupsAreNumbers<N(!new)>(items: seq<(N, int)>, groups: Groups<N>, singles: Groups<N>, x: N, c: int, y: N, d: int)
    requires Collected(items, groups) && Distinct(Firsts(items)) && (x, c) in items && (y, d) in items
    requires forall i :: 0 <= i < |singles| ==> x !in singles[i].1
    ensures Together(Members(groups + singles), x, y) <==> c == d
  {
    var all := groups + singles;
    var lists := Members(all);
    NumberedCounts(items, c, x);
    NumberedCounts(items, d, y);
    if c == d {
      var i := AtFound(groups, c);
      assert all[i] == groups[i];
    }
    forall i | |groups| <= i < |lists|
      ensures x !in lists[i]
    {
      assert all[i] == singles[i - |groups|];
    }
    forall i | 0 <= i < |groups| && x in groups[i].1 && y in groups[i].1
      ensures c == d
    {
      AtKey(groups, i);
      NumberedCounts(items, groups[i].0, x);
      NumberedCounts(items, groups[i].0, y);
      OneNumberEach(items, x, c, groups[i].0);
      OneNumberEach(items, y, d, groups[i].0);
    }
    assert forall i :: 0 <= i < |groups| ==> lists[i] == groups[i].1;
  }

  /** Without hubs and large groups, two connected nodes end up together exactly when the partitioner puts them together. */
  lemma SmallGroupsStay<N(!new)>(g: Graph<N>, partition: Partitioner<N>, le: (N, N) -> bool, lists: seq<seq<N>>,
                                 items: seq<(N, int)>, x: N, c: int, y: N, d: int)
    requires Total(partition) && Distinct(g.nodes) && Grouped(g, partition, None, le, lists)
    requires partition(Connected(g, None)) == Some(items) && (x, c) in items && (y, d) in items
    requires forall k :: |Numbered(items, k)| <= Max(10, |g.nodes| / 4) && |Numbered(items, k)| < 50
    ensures Together(lists, x, y) <==> c == d
  {
    ConnectedNode(g, partition, items, x, c);
    var groups, next := Unsplit(g, partition, le, lists, items);
    NotAnIsolate(g, x, next);
    GroupsAreNumbers(items, groups, SinglesFrom(Isolates(g, None), next), x, c, y, d);
  }

  lemma Unsplit<N(!new)>(g: Graph<N>, partition: Partitioner<N>, le: (N, N) -> bool, lists: seq<seq<N>>, items: seq<(N, int)>)
    returns (groups: Groups<N>, next: int)
    requires Grouped(g, partition, None, le, lists) && Connected(g, None) != [] && partition(Connected(g, None)) == Some(items)
    requires forall k :: |Numbered(items, k)| <= Max(10, |g.nodes| / 4) && |Numbered(items, k)| < 50
    ensures Collected(items, groups) && lists == Members(groups + SinglesFrom(Isolates(g, None), next))
  {
    var raw;
    raw, groups, next := Unfold(g, partition, le, lists);
    SmallCollectedStays(g, partition, le, items, groups, SinglesFrom(Isolates(g, None), next), lists);
  }

  lemma SmallCollectedStays<N(!new)>(g: Graph<N>, partition: Partitioner<N>, le: (N, N) -> bool, items: seq<(N, int)>,
                                     groups: Groups<N>, singles: Groups<N>, lists: seq<seq<N>>)
    requires SplitTwice(g, partition, le, groups + singles, lists) && Collected(items, groups)
    requires forall k :: |Numbered(items, k)| <= Max(10, |g.nodes| / 4) && |Numbered(items, k)| < 50
    requires forall i :: 0 <= i < |singles| ==> |singles[i].1| == 1
    ensures lists == Members(groups + singles)
  {
    RawIsSmall(items, groups, singles, Max(10, |g.nodes| / 4), 50);
    SmallRawStays(g, partition, le, groups + singles, lists);
  }

  lemma RawIsSmall<N>(items: seq<(N, int)>, groups: Groups<N>, singles: Groups<N>, most: nat, bound: nat)
    requires Collected(items, groups) && most >= 1 && bound > 1
    requires forall k :: |Numbered(items, k)| <= most && |Numbered(items, k)| < bound
    requires forall i :: 0 <= i < |singles| ==> |singles[i].1| == 1
    ensures var raw := groups + singles; forall i :: 0 <= i < |raw| ==> |raw[i].1| <= most && |raw[i].1| < bound
  {
    forall i | 0 <= i < |groups|
      ensures |groups[i].1| <= most && |groups[i].1| < bound
    {
      AtKey(groups, i);
    }
  }

  lemma Unfold<N(!new)>(g: Graph<N>, partition: Partitioner<N>, le: (N, N) -> bool, lists: seq<seq<N>>)
    returns (raw: Groups<N>, groups: Groups<N>, next: int)
    requires Grouped(g, partition, None, le, lists)
    ensures SplitTwice(g, partition, le, raw, lists) && Partitioned(g, partition, None, groups)
    ensures raw == groups + SinglesFrom(Isolates(g, None), next)
  {
    NoHubs(g, le);
    var t: Option<int>;
    t, raw :| IsThreshold(g, None, t) && Assembled(g, partition, t, le, raw) && SplitTwice(g, partition, le, raw, lists);
    groups, next :| Partitioned(g, partition, t, groups) && IsNext(groups, next) && Completed(g, t, le, groups, next, raw);
  }

  lemma NotAnIsolate<N>(g: Graph<N>, x: N, next: int)
    requires g.Degree(x) > 0
    ensures var singles := SinglesFrom(Isolates(g, None), next); forall i :: 0 <= i < |singles| ==> x !in singles[i].1
  {
    var isolates := Isolates(g, None);
    forall i | 0 <= i < |isolates|
      ensures isolates[i] != x
    {
      FilterMembers(n => !IsHub(g, None, n) && g.Degree(n) == 0, g.nodes, isolates[i]);
    }
  }

  lemma SmallRawStays<N(!new)>(g: Graph<N>, partition: Partitioner<N>, le: (N, N) -> bool, raw: Groups<N>, lists: seq<seq<N>>)
    requires SplitTwice(g, partition, le, raw, lists)
    requires forall i :: 0 <= i < |raw| ==>
               |raw[i].1| <= Max(MIN_SPLIT_SIZE, |g.nodes| / 4) && |raw[i].1| < COHESION_SPLIT_MIN_SIZE
    ensures lists == Members(raw)
  {
    var first :| CutWhenLarge(g, partition, le, Max(MIN_SPLIT_SIZE, |g.nodes| / 4), Members(raw), first)
                 && CutWhenLoose(g, partition, le, first, lists);
    SmallAreNotCut(g, partition, le, Max(MIN_SPLIT_SIZE, |g.nodes| / 4), Members(raw), first);
    SmallAreNotLoose(g, partition, le, first, lists);
  }

  lemma ConnectedNode<N(!new)>(g: Graph<N>, partition: Partitioner<N>, items: seq<(N, int)>, x: N, c: int)
    requires Total(partition) && Distinct(g.nodes) && partition(Connected(g, None)) == Some(items) && (x, c) in items
    ensures Distinct(Firsts(items)) && Connected(g, None) != [] && g.Degree(x) > 0
  {
    var connected := Connected(g, None);
    FilterDistinct(n => !IsHub(g, None, n) && g.Degree(n) > 0, g.nodes);
    PermutationDistinct(connected, Firsts(items));
    FirstsAre(items);
    assert Firsts(items)[IndexOf(items, (x, c))] == x;
    assert x in multiset(Firsts(items)) && x in multiset(connected);
    FilterMembers(n => !IsHub(g, None, n) && g.Degree(n) > 0, g.nodes, x);
  }

  lemma HasEdgesIff<N(!new)>(g: Graph<N>)
    ensures g.HasEdges() <==> exists n :: n in g.nodes && g.Degree(n) > 0
  {
    if n :| n in g.nodes && g.Degree(n) > 0 { assert g.Neighbours(n) != []; }
    if n :| n in g.nodes && g.Neighbours(n) != [] { assert g.Degree(n) > 0; }
  }

  /** The communities of a graph, numbered by position; none when the partitioner fails at the start. */
  method Cluster<N(==,!new)>(g: Graph<N>, partition: Partitioner<N>, percentile: Option<real>, le: (N, N) -> bool)
    returns (r: Option<seq<seq<N>>>, ghost grouping: seq<seq<N>>)
    requires Total(partition) && TotalOrder(le) && (percentile.Some? ==> 0.0 <= percentile.value <= 100.0)
    // every node is in exactly one community, isolates, hubs and splits included; none is empty
    ensures r.Some? ==> multiset(Flatten(r.value)) == multiset(g.nodes) && NoEmpty(r.value)
    // larger communities have smaller numbers, equally large ones are numbered in order of their members
    ensures r.Some? ==> Ranked(r.value, le) && forall i :: 0 <= i < |r.value| ==> Sorted(r.value[i], le)
    // the numbering is that of the grouping alone, and the grouping is that of hubs, isolates and splits
    ensures r.Some? ==> r.value == Number(grouping, le) && NoEmpty(grouping) && multiset(Flatten(grouping)) == multiset(g.nodes)
    ensures r.Some? ==> if g.HasEdges() then Grouped(g, partition, percentile, le, grouping)
                        else grouping == Singles(Sort(g.nodes, le))
    // without edges every node is alone
    ensures !g.HasEdges() ==> r.Some? && AllAlone(r.value)
    ensures r.None? ==> g.HasEdges() && Fails(g, partition, percentile)
  {
    if g.nodes == [] {
      grouping := [];
      NumberKeepsPartition(grouping, le);
      return Some([]), grouping;
    }
    if !g.HasEdges() {
      var sorted := Sort(g.nodes, le);
      grouping := Singles(sorted);
      SinglesFlatten(sorted);
      NumberKeepsPartition(grouping, le);
      SinglesAreNumbered(g.nodes, le);
      return Some(Singles(sorted)), grouping;
    }
    var lists := Grouping(g, partition, percentile, le);
    grouping := [];
    if lists.None? { return None, grouping; }
    grouping := lists.value;
    NumberKeepsPartition(grouping, le);
    r := Some(Number(lists.value, le));
  }

  ghost predicate Ranked<N>(lists: seq<seq<N>>, le: (N, N) -> bool) {
    forall i, j :: 0 <= i < j < |lists| ==>
      |lists[i]| > |lists[j]| || (|lists[i]| == |lists[j]| && LexLe(le, lists[i], lists[j]))
  }

  lemma NumberKeepsPartition<N(!new)>(lists: seq<seq<N>>, le: (N, N) -> bool)
    requires TotalOrder(le) && NoEmpty(lists)
    ensures multiset(Flatten(Number(lists, le))) == multiset(Flatten(lists)) && NoEmpty(Number(lists, le))
    ensures Ranked(Number(lists, le), le) && forall i :: 0 <= i < |Number(lists, le)| ==> Sorted(Number(lists, le)[i], le)
  {
    var key := (a, b) => SizeLe(le, a, b);
    var bySize := Sort(lists, key);
    SizeOrders(le);
    SortSorted(lists, key);
    FlattenPermutation(bySize, lists);
    SortEachFlatten(bySize, le);
    forall i | 0 <= i < |bySize|
      ensures bySize[i] != []
    {
      SortMembers(lists, key, bySize[i]);
      var k := IndexOf(lists, bySize[i]);
    }
    forall i, j | 0 <= i < j < |bySize|
      ensures CanonLe(le, Number(lists, le)[i], Number(lists, le)[j])
    {
      assert key(bySize[i], bySize[j]);
    }
    forall i | 0 <= i < |bySize|
      ensures Sorted(Number(lists, le)[i], le)
    {
      SortSorted(bySize[i], le);
    }
  }

  lemma {:induction false} FlattenPermutation<N>(a: seq<seq<N>>, b: seq<seq<N>>)
    requires multiset(a) == multiset(b)
    ensures multiset(Flatten(a)) == multiset(Flatten(b))
  {
    assert |a| == |multiset(a)| == |multiset(b)| == |b|;
    if a != [] {
      var n := |a| - 1;
      var x := a[n];
      assert x in multiset(b);
      var i := IndexOf(b, x);
      RemoveAt(a, n);
      RemoveAt(b, i);
      assert multiset(a[..n] + a[n + 1..]) == multiset(a) - multiset{x};
      assert multiset(b[..i] + b[i + 1..]) == multiset(b) - multiset{x};
      FlattenPermutation(a[..n] + a[n + 1..], b[..i] + b[i + 1..]);
      FlattenRemove(a, n);
      FlattenRemove(b, i);
    }
  }

  lemma FlattenRemove<N>(s: seq<seq<N>>, i: nat)
    requires i < |s|
    ensures multiset(Flatten(s)) == multiset(Flatten(s[..i] + s[i + 1..])) + multiset(s[i])
  {
    CutAt(s, i);
    FlattenMiddle(s[..i], s[i], s[i + 1..]);
  }

  lemma CutAt<T>(s: seq<T>, i: nat)
    requires i < |s|
    ensures s[..i] + [s[i]] + s[i + 1..] == s
  {
  }

  lemma FlattenMiddle<N>(front: seq<seq<N>>, list: seq<N>, back: seq<seq<N>>)
    ensures multiset(Flatten(front + [list] + back)) == multiset(Flatten(front + back)) + multiset(list)
  {
    FlattenAppend(front + [list], back);
    FlattenAppend(front, [list]);
    FlattenAppend(front, back);
    FlattenOne(list);
    MiddleCounts(Flatten(front), list, Flatten(back));
  }

  lemma MiddleCounts<T>(a: seq<T>, b: seq<T>, c: seq<T>)
    ensures multiset(a + b + c) == multiset(a + c) + multiset(b)
  {
  }

  lemma SinglesSorted<N(!new)>(s: seq<N>, le: (N, N) -> bool)
    requires TotalOrder(le) && Sorted(s, le)
    ensures SortEach(Singles(s), le) == Singles(s) && Sorted(Singles(s), (a, b) => CanonLe(le, a, b))
  {
    forall x: N
      ensures Sort([x], le) == [x]
    {
      assert [x][..0] == [];
    }
    assert SortEach(Singles(s), le) == Singles(s);
    forall i, j | 0 <= i < j < |s|
      ensures LexLe(le, [s[i]], [s[j]])
    {
      assert [s[i]][1..] == [] && [s[j]][1..] == [];
    }
  }

  /** Without edges the code numbers single nodes in order directly; that is the same numbering. */
  lemma SinglesAreNumbered<N(!new)>(nodes: seq<N>, le: (N, N) -> bool)
    requires TotalOrder(le)
    ensures Number(Singles(Sort(nodes, le)), le) == Singles(Sort(nodes, le))
  {
    var lists, key := Singles(Sort(nodes, le)), (a, b) => CanonLe(le, a, b);
    SortSorted(nodes, le);
    SinglesSorted(Sort(nodes, le), le);
    NumberIsCanonical(lists, le);
    SizeOrders(le);
    SortSorted(lists, key);
    SortedUnique(lists, Sort(lists, key), key);
  }
}
