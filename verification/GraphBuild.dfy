/** Building the graph: ghost nodes merge into their twins, edges are re-pointed and keep a direction. */
module GraphBuild {
  import opened Common
  import opened Sorting

  /** What the merge looks at: file name and label (if both are there), who made the node, and whether it has a place. */
  datatype Attrs<K> = Attrs(key: Option<K>, ast: bool, located: bool)

  type Table<N(==), K> = map<N, Attrs<K>>

  /** A ghost and the node that stands in for it. */
  datatype Pair<N> = Pair(lost: N, twin: N)

  predicate HasKey<N(==), K(==)>(t: Table<N, K>, n: N, k: K) {
    n in t && t[n].key == Some(k)
  }

  predicate IsAst<N(==), K(==)>(t: Table<N, K>, n: N, k: K) {
    HasKey(t, n, k) && t[n].ast
  }

  /** Two syntax-tree nodes share the key. */
  ghost predicate Ambiguous<N(!new), K>(t: Table<N, K>, seen: seq<N>, k: K) {
    exists a, b :: a in seen && b in seen && a != b && IsAst(t, a, k) && IsAst(t, b, k)
  }

  /** The node that stands for a key: a syntax-tree node if there is one, else some located node. */
  ghost predicate Canonical<N(!new), K(!new)>(t: Table<N, K>, seen: seq<N>, loc: map<K, N>) {
    && (forall k :: k in loc ==> loc[k] in seen && HasKey(t, loc[k], k) && (t[loc[k]].ast || t[loc[k]].located))
    && (forall n, k :: n in seen && IsAst(t, n, k) ==> k in loc && t[loc[k]].ast)
    && (forall n, k :: n in seen && HasKey(t, n, k) && t[n].located ==> k in loc)
  }

  /** The keys that two syntax-tree nodes share are the collisions. */
  ghost predicate Collides<N(!new), K(!new)>(t: Table<N, K>, seen: seq<N>, collisions: set<K>) {
    forall k :: k in collisions <==> Ambiguous(t, seen, k)
  }

  /** Pass 1. */
  method CollectCanonical<N(==,!new), K(==,!new)>(t: Table<N, K>, order: seq<N>)
    returns (loc: map<K, N>, collisions: set<K>)
    requires Distinct(order) && forall n :: n in order ==> n in t
    ensures Canonical(t, order, loc) && Collides(t, order, collisions)
  {
    loc, collisions := map[], {};
    for i := 0 to |order|
      invariant Canonical(t, order[..i], loc) && Collides(t, order[..i], collisions)
    {
      var n := order[i];
      assert order[..i + 1] == order[..i] + [n] && n !in order[..i];
      ghost var loc0, collisions0 := loc, collisions;
      var attrs := t[n];
      if attrs.key.Some? && (attrs.located || attrs.ast) {
        var k := attrs.key.value;
        if attrs.ast {
          if k in loc && t[loc[k]].ast {
            collisions := collisions + {k};
          }
          loc := loc[k := n];
        } else if k !in loc {
          loc := loc[k := n];
        }
      }
      CanonicalStep(t, order[..i], n, loc0, loc);
      CollidesStep(t, order[..i], n, loc0, collisions0, collisions);
    }
    assert order[..|order|] == order;
  }

  lemma CanonicalStep<N(!new), K(!new)>(t: Table<N, K>, seen: seq<N>, n: N, loc: map<K, N>, loc': map<K, N>)
    requires Canonical(t, seen, loc) && n in t
    requires loc' == match t[n].key
                     case Some(k) => if t[n].ast || (t[n].located && k !in loc) then loc[k := n] else loc
                     case None => loc
    ensures Canonical(t, seen + [n], loc')
  {
  }

  lemma CollidesStep<N(!new), K(!new)>(t: Table<N, K>, seen: seq<N>, n: N, loc: map<K, N>,
                                       collisions: set<K>, collisions': set<K>)
    requires Canonical(t, seen, loc) && Collides(t, seen, collisions) && n in t && n !in seen
    requires collisions' == match t[n].key
                            case Some(k) => if t[n].ast && k in loc && t[loc[k]].ast then collisions + {k} else collisions
                            case None => collisions
    ensures Collides(t, seen + [n], collisions')
  {
    forall k
      ensures k in collisions' <==> Ambiguous(t, seen + [n], k)
    {
      if Ambiguous(t, seen, k) {
        var a, b :| a in seen && b in seen && a != b && IsAst(t, a, k) && IsAst(t, b, k);
        assert a in seen + [n] && b in seen + [n];
      } else if IsAst(t, n, k) && k in loc && t[loc[k]].ast {
        assert n in seen + [n] && loc[k] in seen + [n];
      }
    }
  }

  // ---- pass 2: ghosts ----

  /** A node that some other node stands for. */
  predicate IsCandidate<N(==), K(==)>(t: Table<N, K>, loc: map<K, N>, collisions: set<K>, n: N, k: K) {
    HasKey(t, n, k) && !t[n].ast && k !in collisions && k in loc && loc[k] != n
  }

  /** The last candidate of a key; only that one becomes a ghost. */
  function LastCandidate<N(==), K(==)>(t: Table<N, K>, loc: map<K, N>, collisions: set<K>, order: seq<N>, k: K): Option<N> {
    if order == [] then None
    else if IsCandidate(t, loc, collisions, order[|order| - 1], k) then Some(order[|order| - 1])
    else LastCandidate(t, loc, collisions, order[..|order| - 1], k)
  }

  /** `keys` lists the keys of the ghost table as they were first entered. */
  method FindGhosts<N(==), K(==,!new)>(t: Table<N, K>, loc: map<K, N>, collisions: set<K>, order: seq<N>)
    returns (keys: seq<K>, ghosts: map<K, N>)
    requires forall n :: n in order ==> n in t
    ensures forall k :: Lookup(ghosts, k) == LastCandidate(t, loc, collisions, order, k)
    ensures Distinct(keys) && forall k :: k in keys <==> k in ghosts
  {
    keys, ghosts := [], map[];
    for i := 0 to |order|
      invariant forall k :: Lookup(ghosts, k) == LastCandidate(t, loc, collisions, order[..i], k)
      invariant Distinct(keys) && forall k :: k in keys <==> k in ghosts
    {
      var n := order[i];
      assert order[..i + 1][..i] == order[..i];
      if !t[n].ast && t[n].key.Some? {
        var k := t[n].key.value;
        if k !in collisions && k in loc && loc[k] != n {
          if k !in ghosts { keys := keys + [k]; }
          ghosts := ghosts[k := n];
        }
      }
    }
    assert order[..|order|] == order;
  }

  lemma {:induction false} LastCandidateFound<N, K>(t: Table<N, K>, loc: map<K, N>, collisions: set<K>, order: seq<N>, k: K)
    ensures var c := LastCandidate(t, loc, collisions, order, k);
            c.Some? ==> c.value in order && IsCandidate(t, loc, collisions, c.value, k)
    ensures LastCandidate(t, loc, collisions, order, k).None? ==>
              forall n :: n in order ==> !IsCandidate(t, loc, collisions, n, k)
  {
    if order != [] && !IsCandidate(t, loc, collisions, order[|order| - 1], k) {
      LastCandidateFound(t, loc, collisions, order[..|order| - 1], k);
      assert order == order[..|order| - 1] + [order[|order| - 1]];
    }
  }

  function Lost<N(==)>(pairs: seq<Pair<N>>): set<N> {
    set p | p in pairs :: p.lost
  }

  /** A pair may be merged: the twin has the same unambiguous key and is the syntax-tree node of that key, if there is one. */
  ghost predicate Mergeable<N(!new), K(!new)>(t: Table<N, K>, order: seq<N>, p: Pair<N>) {
    && p.lost in order && p.twin in order && p.lost in t && p.twin in t
    && p.lost != p.twin && !t[p.lost].ast
    && t[p.lost].key.Some? && t[p.twin].key == t[p.lost].key
    && (t[p.twin].ast || t[p.twin].located)
    && !Ambiguous(t, order, t[p.lost].key.value)
    && forall n :: n in order && IsAst(t, n, t[p.lost].key.value) ==> n == p.twin
  }

  /** Which nodes disappear, whatever the order in which the nodes are visited. */
  ghost predicate IsMerge<N(!new), K(!new)>(t: Table<N, K>, order: seq<N>, pairs: seq<Pair<N>>) {
    && (forall p :: p in pairs ==> Mergeable(t, order, p) && p.twin !in Lost(pairs))
    // one ghost per key at most ...
    && (forall p, q :: p in pairs && q in pairs && t[p.lost].key == t[q.lost].key ==> p == q)
    // ... and one for every unambiguous key with a stand-in and some other node
    && (forall n, m :: n in order && m in order && ShouldMerge(t, order, n, m) ==>
          exists p :: p in pairs && t[p.lost].key == t[n].key)
  }

  ghost predicate ShouldMerge<N(!new), K(!new)>(t: Table<N, K>, order: seq<N>, n: N, m: N) {
    && n in t && m in t && n != m && !t[n].ast && t[n].key.Some? && t[m].key == t[n].key
    && !Ambiguous(t, order, t[n].key.value)
    && (t[m].ast || t[m].located)
  }

  /** Of the nodes with its key, a ghost is the last one visited that is not the stand-in. */
  ghost predicate Latest<N(!new), K(!new)>(t: Table<N, K>, order: seq<N>, p: Pair<N>) {
    && p.lost in t
    && forall i, j :: 0 <= i < j < |order| && order[i] == p.lost && order[j] in t && t[order[j]].key == t[p.lost].key ==>
         order[j] == p.twin
  }

  method PairGhosts<N(==), K(==)>(loc: map<K, N>, keys: seq<K>, ghosts: map<K, N>) returns (pairs: seq<Pair<N>>)
    requires forall k :: k in keys ==> k in ghosts && k in loc
    ensures |pairs| == |keys|
    ensures forall i :: 0 <= i < |keys| ==> pairs[i] == Pair(ghosts[keys[i]], loc[keys[i]])
  {
    pairs := [];
    for i := 0 to |keys|
      invariant |pairs| == i
      invariant forall j :: 0 <= j < i ==> pairs[j] == Pair(ghosts[keys[j]], loc[keys[j]])
    {
      pairs := pairs + [Pair(ghosts[keys[i]], loc[keys[i]])];
    }
  }

  /** Both passes together. */
  method MergeGhosts<N(==,!new), K(==,!new)>(t: Table<N, K>, order: seq<N>) returns (pairs: seq<Pair<N>>, alive: set<N>)
    requires Distinct(order) && forall n :: n in order <==> n in t
    ensures IsMerge(t, order, pairs) && forall p :: p in pairs ==> Latest(t, order, p)
    ensures alive == t.Keys - Lost(pairs)
    ensures forall n :: n in t && t[n].ast ==> n in alive
  {
    var loc, collisions := CollectCanonical(t, order);
    var keys, ghosts := FindGhosts(t, loc, collisions, order);
    forall k | k in keys
      ensures k in loc
    {
      LastCandidateFound(t, loc, collisions, order, k);
    }
    pairs := PairGhosts(loc, keys, ghosts);
    alive := t.Keys;
    for i := 0 to |pairs|
      invariant alive == t.Keys - Lost(pairs[..i])
    {
      assert pairs[..i + 1] == pairs[..i] + [pairs[i]];
      alive := alive - {pairs[i].lost};
    }
    assert pairs[..|pairs|] == pairs;
    PairsMerge(t, order, loc, collisions, keys, ghosts, pairs);
  }

  lemma PairsMerge<N(!new), K(!new)>(t: Table<N, K>, order: seq<N>, loc: map<K, N>, collisions: set<K>,
                                     keys: seq<K>, ghosts: map<K, N>, pairs: seq<Pair<N>>)
    requires forall n :: n in order <==> n in t
    requires Canonical(t, order, loc) && Collides(t, order, collisions)
    requires forall k :: Lookup(ghosts, k) == LastCandidate(t, loc, collisions, order, k)
    requires forall k :: k in keys <==> k in ghosts
    requires |pairs| == |keys| && forall k :: k in keys ==> k in loc
    requires forall i :: 0 <= i < |keys| ==> pairs[i] == Pair(ghosts[keys[i]], loc[keys[i]])
    requires Distinct(order)
    ensures IsMerge(t, order, pairs) && forall p :: p in pairs ==> Latest(t, order, p)
  {
    forall p | p in pairs
      ensures Mergeable(t, order, p) && t[p.lost].key.value in keys && Latest(t, order, p)
      ensures p == Pair(ghosts[t[p.lost].key.value], loc[t[p.lost].key.value])
    {
      var i := IndexOf(pairs, p);
      LastCandidateFound(t, loc, collisions, order, keys[i]);
      GhostIsMergeable(t, order, loc, collisions, p.lost, keys[i]);
      LastCandidateIsLast(t, loc, collisions, order, keys[i]);
      LatestGhost(t, order, loc, collisions, p, keys[i]);
    }
    forall n, m | n in order && m in order && ShouldMerge(t, order, n, m)
      ensures exists p :: p in pairs && t[p.lost].key == t[n].key
    {
      var k := t[n].key.value;
      StandInExists(t, order, loc, n, m);
      var c := if loc[k] != n then n else m;
      LastCandidateFound(t, loc, collisions, order, k);
      assert IsCandidate(t, loc, collisions, c, k);
      var i := IndexOf(keys, k);
      assert pairs[i] in pairs;
    }
  }

  lemma GhostIsMergeable<N(!new), K(!new)>(t: Table<N, K>, order: seq<N>, loc: map<K, N>, collisions: set<K>, n: N, k: K)
    requires Canonical(t, order, loc) && Collides(t, order, collisions)
    requires n in order && IsCandidate(t, loc, collisions, n, k)
    ensures Mergeable(t, order, Pair(n, loc[k]))
  {
    forall a | a in order && IsAst(t, a, k)
      ensures a == loc[k]
    {
      if a != loc[k] { assert Ambiguous(t, order, k); }
    }
  }

  lemma {:induction false} LastCandidateIsLast<N, K>(t: Table<N, K>, loc: map<K, N>, collisions: set<K>, order: seq<N>, k: K)
    requires Distinct(order)
    ensures var c := LastCandidate(t, loc, collisions, order, k);
            forall i, j :: c.Some? && 0 <= i < j < |order| && order[i] == c.value ==> !IsCandidate(t, loc, collisions, order[j], k)
  {
    if order != [] && !IsCandidate(t, loc, collisions, order[|order| - 1], k) {
      LastCandidateIsLast(t, loc, collisions, order[..|order| - 1], k);
    }
  }

  lemma LatestGhost<N(!new), K(!new)>(t: Table<N, K>, order: seq<N>, loc: map<K, N>, collisions: set<K>, p: Pair<N>, k: K)
    requires k in loc && p.twin == loc[k] && p.lost in t && t[p.lost].key == Some(k) && k !in collisions
    requires Mergeable(t, order, p)
    requires forall i, j :: 0 <= i < j < |order| && order[i] == p.lost ==> !IsCandidate(t, loc, collisions, order[j], k)
    ensures Latest(t, order, p)
  {
    forall i, j | 0 <= i < j < |order| && order[i] == p.lost && order[j] in t && t[order[j]].key == t[p.lost].key
      ensures order[j] == p.twin
    {
      assert !IsCandidate(t, loc, collisions, order[j], k);
      assert t[order[j]].ast ==> IsAst(t, order[j], k);
    }
  }

  lemma StandInExists<N(!new), K(!new)>(t: Table<N, K>, order: seq<N>, loc: map<K, N>, n: N, m: N)
    requires Canonical(t, order, loc) && n in order && m in order && ShouldMerge(t, order, n, m)
    ensures t[n].key.value in loc
    ensures loc[t[n].key.value] == n ==> !t[m].ast
  {
  }

  // ---- which of the described ghosts disappear ----

  /** The nodes described as ghosts of a syntax-tree node with this key. */
  ghost function Described<N, K>(t: Table<N, K>, k: K): set<N> {
    set n | n in t && HasKey(t, n, k) && !t[n].ast
  }

  /** With one syntax-tree node of that name, exactly one of them goes if there are any. */
  lemma OneGhostPerKey<N(!new), K(!new)>(t: Table<N, K>, order: seq<N>, pairs: seq<Pair<N>>, twin: N, k: K)
    requires (forall n :: n in order <==> n in t) && IsMerge(t, order, pairs)
    requires IsAst(t, twin, k) && !Ambiguous(t, order, k)
    ensures |Described(t, k) * Lost(pairs)| == if Described(t, k) == {} then 0 else 1
  {
    var gone := Described(t, k) * Lost(pairs);
    if Described(t, k) == {} {
      assert gone == {};
    } else {
      var n := Pick(Described(t, k));
      assert ShouldMerge(t, order, n, twin);
      var p :| p in pairs && t[p.lost].key == t[n].key;
      assert Mergeable(t, order, p) && p.lost in gone;
      forall m | m in gone
        ensures m == p.lost
      {
        var q :| q in pairs && q.lost == m;
      }
      assert gone == {p.lost};
    }
  }

  /** With two syntax-tree nodes of that name, none goes. */
  lemma AmbiguousKeepsAll<N(!new), K(!new)>(t: Table<N, K>, order: seq<N>, pairs: seq<Pair<N>>, k: K)
    requires IsMerge(t, order, pairs) && Ambiguous(t, order, k)
    ensures Described(t, k) * Lost(pairs) == {}
  {
    forall p | p in pairs
      ensures p.lost !in Described(t, k)
    {
      assert Mergeable(t, order, p);
    }
  }

  /** Every described ghost is removed exactly when there is none, or one and a single syntax-tree node to take its place. */
  lemma EveryGhostGoesIff<N(!new), K(!new)>(t: Table<N, K>, order: seq<N>, pairs: seq<Pair<N>>, twin: N, k: K)
    requires (forall n :: n in order <==> n in t) && IsMerge(t, order, pairs) && IsAst(t, twin, k)
    ensures Described(t, k) <= Lost(pairs) <==>
            Described(t, k) == {} || (|Described(t, k)| == 1 && !Ambiguous(t, order, k))
  {
    var all := Described(t, k);
    if Ambiguous(t, order, k) {
      AmbiguousKeepsAll(t, order, pairs, k);
      assert all <= Lost(pairs) ==> all * Lost(pairs) == all;
    } else {
      OneGhostPerKey(t, order, pairs, twin, k);
      assert all <= Lost(pairs) ==> all * Lost(pairs) == all;
      if |all| == 1 {
        var n := Pick(all * Lost(pairs));
        assert |all - {n}| == 0;
        assert all == {n};
      }
    }
  }

  /** One syntax-tree node and two other nodes of the same name. */
  const CROWD: Table<int, int> := map[0 := Attrs(Some(7), true, true), 1 := Attrs(Some(7), false, true),
                                      2 := Attrs(Some(7), false, false)]

  /** However they are visited, merging them leaves a described ghost alive: the one that is not visited last. */
  lemma SecondGhostStays(order: seq<int>, pairs: seq<Pair<int>>)
    requires (forall n :: n in order <==> n in CROWD) && IsMerge(CROWD, order, pairs)
    requires Distinct(order) && forall p :: p in pairs ==> Latest(CROWD, order, p)
    ensures Lost(pairs) == {if IndexOf(order, 1) < IndexOf(order, 2) then 2 else 1}
  {
    assert !Ambiguous(CROWD, order, 7) && ShouldMerge(CROWD, order, 1, 0);
    var p :| p in pairs && CROWD[p.lost].key == Some(7);
    forall q | q in pairs
      ensures q == p
    {
      assert Mergeable(CROWD, order, q);
    }
    assert Mergeable(CROWD, order, p) && IsAst(CROWD, 0, 7) && Latest(CROWD, order, p);
    var i, j := IndexOf(order, 1), IndexOf(order, 2);
  }

  // ---- where an edge end goes ----

  /** The node that a normalised id stands for: ghosts come last and override, later ones the earlier. */
  function NormTarget<N(==)>(survivors: seq<N>, pairs: seq<Pair<N>>, norm: N -> N, x: N): Option<N> {
    if pairs != [] then
      var p := pairs[|pairs| - 1];
      if p.lost == x || norm(p.lost) == x then Some(p.twin) else NormTarget(survivors, pairs[..|pairs| - 1], norm, x)
    else if survivors == [] then None
    else if norm(survivors[|survivors| - 1]) == x then Some(survivors[|survivors| - 1])
    else NormTarget(survivors[..|survivors| - 1], pairs, norm, x)
  }

  method NormIndex<N(==,!new)>(survivors: seq<N>, pairs: seq<Pair<N>>, norm: N -> N) returns (m: map<N, N>)
    ensures forall x :: Lookup(m, x) == NormTarget(survivors, pairs, norm, x)
  {
    m := map[];
    for i := 0 to |survivors|
      invariant forall x :: Lookup(m, x) == NormTarget(survivors[..i], [], norm, x)
    {
      assert survivors[..i + 1][..i] == survivors[..i];
      m := m[norm(survivors[i]) := survivors[i]];
    }
    assert survivors[..|survivors|] == survivors;
    for i := 0 to |pairs|
      invariant forall x :: Lookup(m, x) == NormTarget(survivors, pairs[..i], norm, x)
    {
      assert pairs[..i + 1][..i] == pairs[..i];
      m := m[norm(pairs[i].lost) := pairs[i].twin];
      m := m[pairs[i].lost := pairs[i].twin];
    }
    assert pairs[..|pairs|] == pairs;
  }

  /** Where an edge end goes: itself if alive, else through its normalised id. */
  function Resolve<N(==)>(alive: set<N>, survivors: seq<N>, pairs: seq<Pair<N>>, norm: N -> N, x: N): N {
    if x in alive then x else NormTarget(survivors, pairs, norm, norm(x)).GetOr(x)
  }

  lemma {:induction false} TargetIsAlive<N>(alive: set<N>, survivors: seq<N>, pairs: seq<Pair<N>>, norm: N -> N, x: N)
    requires forall n :: n in survivors ==> n in alive
    requires forall p :: p in pairs ==> p.twin in alive
    ensures var y := NormTarget(survivors, pairs, norm, x); y.Some? ==> y.value in alive
  {
    if pairs != [] {
      TargetIsAlive(alive, survivors, pairs[..|pairs| - 1], norm, x);
    } else if survivors != [] {
      TargetIsAlive(alive, survivors[..|survivors| - 1], pairs, norm, x);
    }
  }

  /** A ghost claims its id and its normalised id. */
  ghost predicate Claims<N>(p: Pair<N>, norm: N -> N, x: N) {
    p.lost == x || norm(p.lost) == x
  }

  ghost predicate Claimed<N(!new)>(pairs: seq<Pair<N>>, norm: N -> N, x: N) {
    exists p :: p in pairs && Claims(p, norm, x)
  }

  /** An id that no ghost claims stands for the last survivor that normalises to it, if there is one. */
  lemma {:induction false} UnclaimedFindsSurvivor<N(!new)>(survivors: seq<N>, pairs: seq<Pair<N>>, norm: N -> N, x: N)
    requires !Claimed(pairs, norm, x)
    ensures var y := NormTarget(survivors, pairs, norm, x);
            if exists s :: s in survivors && norm(s) == x
            then y.Some? && y.value in survivors && norm(y.value) == x
                 && exists i :: 0 <= i < |survivors| && survivors[i] == y.value
                                && forall j :: i < j < |survivors| ==> norm(survivors[j]) != x
            else y == None
    decreases |pairs| + |survivors|
  {
    if pairs != [] {
      var p := pairs[|pairs| - 1];
      assert p in pairs;
      UnclaimedFindsSurvivor(survivors, pairs[..|pairs| - 1], norm, x);
    } else if survivors != [] && norm(survivors[|survivors| - 1]) != x {
      var front := survivors[..|survivors| - 1];
      UnclaimedFindsSurvivor(front, pairs, norm, x);
      assert survivors == front + [survivors[|survivors| - 1]];
    }
  }

  /** An end that names no survivor, and whose normalised id no ghost claims, finds a survivor that normalises alike. */
  ghost predicate FindsAlike<N(!new)>(alive: set<N>, pairs: seq<Pair<N>>, norm: N -> N, x: N, y: N) {
    x !in alive && !Claimed(pairs, norm, norm(x)) ==>
      if exists s :: s in alive && norm(s) == norm(x) then y in alive && norm(y) == norm(x) else y == x
  }

  /** The last ghost that claims a normalised id. */
  function LastClaim<N(==)>(pairs: seq<Pair<N>>, norm: N -> N, x: N): Option<Pair<N>> {
    if pairs == [] then None
    else
      var p := pairs[|pairs| - 1];
      if p.lost == x || norm(p.lost) == x then Some(p) else LastClaim(pairs[..|pairs| - 1], norm, x)
  }

  lemma {:induction false} ClaimDecides<N(!new)>(survivors: seq<N>, pairs: seq<Pair<N>>, norm: N -> N, x: N)
    ensures var c := LastClaim(pairs, norm, x);
            c.Some? ==> NormTarget(survivors, pairs, norm, x) == Some(c.value.twin)
                        && exists i :: 0 <= i < |pairs| && pairs[i] == c.value && Claims(pairs[i], norm, x)
                                       && forall j :: i < j < |pairs| ==> !Claims(pairs[j], norm, x)
    ensures LastClaim(pairs, norm, x).None? <==> !Claimed(pairs, norm, x)
  {
    if pairs != [] {
      ClaimDecides(survivors, pairs[..|pairs| - 1], norm, x);
      assert pairs == pairs[..|pairs| - 1] + [pairs[|pairs| - 1]];
    }
  }

  /** An edge end never goes to a removed node; a ghost's end always finds a survivor, and finds the ghost's own
      twin exactly when the last ghost claiming its normalised id has the same twin. */
  lemma EndsLand<N(!new)>(alive: set<N>, survivors: seq<N>, pairs: seq<Pair<N>>, norm: N -> N, x: N)
    requires forall n :: n in survivors ==> n in alive
    requires forall p :: p in pairs ==> p.twin in alive && p.lost !in alive
    ensures var y := Resolve(alive, survivors, pairs, norm, x); y in alive || (y == x && x !in Lost(pairs))
    ensures forall p :: p in pairs && p.lost == x ==>
              var c := LastClaim(pairs, norm, norm(x));
              c.Some? && (Resolve(alive, survivors, pairs, norm, x) == p.twin <==> c.value.twin == p.twin)
  {
    TargetIsAlive(alive, survivors, pairs, norm, norm(x));
    ClaimDecides(survivors, pairs, norm, norm(x));
  }

  /** No other ghost claims the normalised id. */
  ghost predicate OwnsItsName<N(!new)>(pairs: seq<Pair<N>>, norm: N -> N, p: Pair<N>) {
    forall q :: q in pairs && (q.lost == norm(p.lost) || norm(q.lost) == norm(p.lost)) ==> q == p
  }

  lemma OwnTwin<N(!new)>(alive: set<N>, survivors: seq<N>, pairs: seq<Pair<N>>, norm: N -> N, p: Pair<N>)
    requires p in pairs && p.lost !in alive && OwnsItsName(pairs, norm, p)
    ensures Resolve(alive, survivors, pairs, norm, p.lost) == p.twin
  {
    ClaimDecides(survivors, pairs, norm, norm(p.lost));
  }

  /** Of two merged ghosts with one normalised id and different twins, one loses its edges to the other's twin: no merge
      can serve both. */
  lemma SharedNameMisroutes<N(!new), K(!new)>(t: Table<N, K>, order: seq<N>, pairs: seq<Pair<N>>, survivors: seq<N>,
                                              norm: N -> N, p: Pair<N>, q: Pair<N>)
    requires IsMerge(t, order, pairs) && p in pairs && q in pairs
    requires norm(p.lost) == norm(q.lost) && p.twin != q.twin
    ensures var alive := t.Keys - Lost(pairs);
            Resolve(alive, survivors, pairs, norm, p.lost) != p.twin || Resolve(alive, survivors, pairs, norm, q.lost) != q.twin
  {
    assert p.lost in Lost(pairs) && q.lost in Lost(pairs);
    ClaimDecides(survivors, pairs, norm, norm(p.lost));
  }

  /** Two syntax-tree nodes, each with a ghost. */
  const NAMESAKES: Table<int, int> := map[0 := Attrs(Some(7), true, true), 1 := Attrs(Some(8), true, true),
                                          2 := Attrs(Some(7), false, true), 3 := Attrs(Some(8), false, true)]

  /** When both ghosts have one normalised id, every merge of that table, in any visiting order, misroutes one of them. */
  lemma NamesakesAreMisrouted(order: seq<int>, pairs: seq<Pair<int>>, survivors: seq<int>, norm: int -> int)
    requires (forall n :: n in order <==> n in NAMESAKES) && IsMerge(NAMESAKES, order, pairs)
    requires norm(2) == norm(3)
    ensures var alive := NAMESAKES.Keys - Lost(pairs);
            Resolve(alive, survivors, pairs, norm, 2) != 0 || Resolve(alive, survivors, pairs, norm, 3) != 1
  {
    assert !Ambiguous(NAMESAKES, order, 7) && !Ambiguous(NAMESAKES, order, 8);
    assert ShouldMerge(NAMESAKES, order, 2, 0) && ShouldMerge(NAMESAKES, order, 3, 1);
    var p :| p in pairs && NAMESAKES[p.lost].key == Some(7);
    var q :| q in pairs && NAMESAKES[q.lost].key == Some(8);
    assert Mergeable(NAMESAKES, order, p) && Mergeable(NAMESAKES, order, q);
    assert IsAst(NAMESAKES, 0, 7) && IsAst(NAMESAKES, 1, 8);
    assert p == Pair(2, 0) && q == Pair(3, 1);
    SharedNameMisroutes(NAMESAKES, order, pairs, survivors, norm, p, q);
  }

  // ---- edges ----

  /** An input edge; the legacy keys `from` and `to` stand in for missing ends. */
  datatype Edge<N, R> = Edge(source: Option<N>, target: Option<N>, from_: Option<N>, to: Option<N>, relation: Option<R>)

  /** An edge between surviving nodes. */
  datatype Arrow<N, R> = Arrow(src: N, tgt: N, relation: Option<R>)

  /** Where the graph stores an edge: an undirected one has no first end. */
  datatype Slot<N(==)> = Arc(u: N, v: N) | Link(ends: set<N>)

  function SlotOf<N, R>(directed: bool, a: Arrow<N, R>): Slot<N> {
    if directed then Arc(a.src, a.tgt) else Link({a.src, a.tgt})
  }

  function Source<N, R>(e: Edge<N, R>): Option<N> {
    if e.source.Some? then e.source else e.from_
  }

  function Target<N, R>(e: Edge<N, R>): Option<N> {
    if e.target.Some? then e.target else e.to
  }

  /** The arrow an input edge becomes, if both of its ends land on survivors and it is not a cross-language guess. */
  function ArrowOf<N(==), R>(alive: set<N>, resolve: N -> N, phantom: (Edge<N, R>, N, N) -> bool, e: Edge<N, R>): Option<Arrow<N, R>> {
    if Source(e).None? || Target(e).None? then None
    else
      var src, tgt := resolve(Source(e).value), resolve(Target(e).value);
      if src !in alive || tgt !in alive || phantom(e, src, tgt) then None else Some(Arrow(src, tgt, e.relation))
  }

  /** The edge names `a` and `b` as its ends: a standard key goes before the legacy key of the same end. */
  ghost predicate Joins<N, R>(e: Edge<N, R>, a: N, b: N) {
    && (e.source == Some(a) || (e.source == None && e.from_ == Some(a)))
    && (e.target == Some(b) || (e.target == None && e.to == Some(b)))
  }

  /** An edge becomes an arrow exactly when it names two ends that land on survivors and is no guess; it keeps its relation. */
  lemma ArrowOfIff<N(!new), R>(alive: set<N>, resolve: N -> N, phantom: (Edge<N, R>, N, N) -> bool, e: Edge<N, R>, x: Arrow<N, R>)
    ensures ArrowOf(alive, resolve, phantom, e) == Some(x) <==>
            exists a, b :: Joins(e, a, b) && x == Arrow(resolve(a), resolve(b), e.relation)
                           && x.src in alive && x.tgt in alive && !phantom(e, x.src, x.tgt)
  {
    if Source(e).Some? && Target(e).Some? { assert Joins(e, Source(e).value, Target(e).value); }
  }

  function Arrows<N(==), R>(alive: set<N>, resolve: N -> N, phantom: (Edge<N, R>, N, N) -> bool, edges: seq<Edge<N, R>>)
    : seq<Arrow<N, R>>
  {
    if edges == [] then []
    else
      var front := Arrows(alive, resolve, phantom, edges[..|edges| - 1]);
      match ArrowOf(alive, resolve, phantom, edges[|edges| - 1])
      case Some(a) => front + [a]
      case None => front
  }

  /** A reverse-direction duplicate of what is stored. */
  predicate Mirrors<N(==), R(==)>(stored: Arrow<N, R>, a: Arrow<N, R>) {
    stored.relation == a.relation && stored.src == a.tgt && stored.tgt == a.src
  }

  /** The attributes left in a slot after one more arrow. */
  function Written<N(==), R(==)>(directed: bool, before: Option<Arrow<N, R>>, a: Arrow<N, R>): Arrow<N, R> {
    if before.None? then a
    else if !directed && Mirrors(before.value, a) then before.value
    else Arrow(a.src, a.tgt, if a.relation.Some? then a.relation else before.value.relation)
  }

  /** What a slot holds after a list of arrows. */
  function Final<N(==), R(==)>(directed: bool, arrows: seq<Arrow<N, R>>, slot: Slot<N>): Option<Arrow<N, R>> {
    if arrows == [] then None
    else
      var before, a := Final(directed, arrows[..|arrows| - 1], slot), arrows[|arrows| - 1];
      if SlotOf(directed, a) == slot then Some(Written(directed, before, a)) else before
  }

  /** The main loop over the sorted edges. */
  method AddEdges<N(==,!new), R(==,!new)>(directed: bool, alive: set<N>, resolve: N -> N,
                                          phantom: (Edge<N, R>, N, N) -> bool, edges: seq<Edge<N, R>>)
    returns (graph: map<Slot<N>, Arrow<N, R>>)
    ensures forall slot :: Lookup(graph, slot) == Final(directed, Arrows(alive, resolve, phantom, edges), slot)
  {
    graph := map[];
    for i := 0 to |edges|
      invariant forall slot :: Lookup(graph, slot) == Final(directed, Arrows(alive, resolve, phantom, edges[..i]), slot)
    {
      assert edges[..i + 1][..i] == edges[..i];
      var e := edges[i];
      if Source(e).Some? && Target(e).Some? {
        var src, tgt := resolve(Source(e).value), resolve(Target(e).value);
        if src in alive && tgt in alive && !phantom(e, src, tgt) {
          var a := Arrow(src, tgt, e.relation);
          var slot := SlotOf(directed, a);
          ghost var front := Arrows(alive, resolve, phantom, edges[..i]);
          assert (front + [a])[..|front|] == front;
          if slot !in graph {
            graph := graph[slot := a];
          } else if directed || !Mirrors(graph[slot], a) {
            var relation := if a.relation.Some? then a.relation else graph[slot].relation;
            graph := graph[slot := Arrow(src, tgt, relation)];
          }
        }
      }
    }
    assert edges[..|edges|] == edges;
  }

  lemma {:induction false} ArrowsComeFromEdges<N, R>(alive: set<N>, resolve: N -> N, phantom: (Edge<N, R>, N, N) -> bool,
                                                     edges: seq<Edge<N, R>>, a: Arrow<N, R>)
    ensures a in Arrows(alive, resolve, phantom, edges) <==>
            exists e :: e in edges && ArrowOf(alive, resolve, phantom, e) == Some(a)
  {
    if edges != [] {
      ArrowsComeFromEdges(alive, resolve, phantom, edges[..|edges| - 1], a);
      assert edges == edges[..|edges| - 1] + [edges[|edges| - 1]];
    }
  }

  /** A slot is filled exactly when some arrow goes there, and it keeps the direction and the slot of one of them. */
  lemma {:induction false} FinalIsAnArrow<N(!new), R(!new)>(directed: bool, arrows: seq<Arrow<N, R>>, slot: Slot<N>)
    ensures Final(directed, arrows, slot).Some? <==> exists a :: a in arrows && SlotOf(directed, a) == slot
    ensures var f := Final(directed, arrows, slot);
            f.Some? ==> SlotOf(directed, f.value) == slot
                        && exists a :: a in arrows && SlotOf(directed, a) == slot && a.src == f.value.src && a.tgt == f.value.tgt
  {
    if arrows != [] {
      var front, last := arrows[..|arrows| - 1], arrows[|arrows| - 1];
      FinalIsAnArrow(directed, front, slot);
      assert arrows == front + [last];
      var f := Final(directed, front, slot);
      if f.Some? {
        var a :| a in front && SlotOf(directed, a) == slot && a.src == f.value.src && a.tgt == f.value.tgt;
        assert a in arrows;
      }
      if a :| a in front && SlotOf(directed, a) == slot { assert a in arrows; }
    }
  }

  /** The first arrow of a slot. */
  function First<N(==), R>(directed: bool, arrows: seq<Arrow<N, R>>, slot: Slot<N>): Option<Arrow<N, R>> {
    if arrows == [] then None
    else if SlotOf(directed, arrows[0]) == slot then Some(arrows[0])
    else First(directed, arrows[1..], slot)
  }

  lemma {:induction false} FirstOfMore<N, R>(directed: bool, arrows: seq<Arrow<N, R>>, a: Arrow<N, R>, slot: Slot<N>)
    ensures First(directed, arrows + [a], slot) ==
            if First(directed, arrows, slot).Some? then First(directed, arrows, slot)
            else if SlotOf(directed, a) == slot then Some(a) else None
  {
    if arrows != [] {
      assert (arrows + [a])[1..] == arrows[1..] + [a];
      FirstOfMore(directed, arrows[1..], a, slot);
    } else {
      assert (arrows + [a])[1..] == [];
    }
  }

  /** In an undirected graph the first direction wins between arrows of the same relation. */
  lemma {:induction false} FirstDirectionWins<N(!new), R(!new)>(arrows: seq<Arrow<N, R>>, slot: Slot<N>, relation: Option<R>)
    requires forall a :: a in arrows && SlotOf(false, a) == slot ==> a.relation == relation
    ensures Final(false, arrows, slot) == First(false, arrows, slot)
  {
    if arrows != [] {
      var front, last := arrows[..|arrows| - 1], arrows[|arrows| - 1];
      assert arrows == front + [last];
      FirstDirectionWins(front, slot, relation);
      FirstOfMore(false, front, last, slot);
      FirstOfFits(front, slot);
      if SlotOf(false, last) == slot && First(false, front, slot).Some? {
        var f := First(false, front, slot).value;
        SameEnds(f.src, f.tgt, last.src, last.tgt);
      }
    }
  }

  lemma {:induction false} FirstOfFits<N, R>(arrows: seq<Arrow<N, R>>, slot: Slot<N>)
    ensures var f := First(false, arrows, slot); f.Some? ==> f.value in arrows && SlotOf(false, f.value) == slot
  {
    if arrows != [] && SlotOf(false, arrows[0]) != slot {
      FirstOfFits(arrows[1..], slot);
    }
  }

  lemma SameEnds<N>(a: N, b: N, c: N, d: N)
    requires {a, b} == {c, d}
    ensures (a == c && b == d) || (a == d && b == c)
  {
    assert a in {c, d} && b in {c, d} && c in {a, b} && d in {a, b};
  }

  /** In a directed graph a slot keeps the last relation that its arrows name. */
  lemma {:induction false} DirectedKeepsLastRelation<N, R>(arrows: seq<Arrow<N, R>>, u: N, v: N)
    ensures Final(true, arrows, Arc(u, v)) ==
            if exists i :: 0 <= i < |arrows| && Goes(arrows[i], u, v)
            then Some(Arrow(u, v, RelationOf(arrows, u, v))) else None
    ensures Final(true, arrows, Arc(u, v)) == None ==> RelationOf(arrows, u, v) == None
  {
    if arrows != [] {
      var n := |arrows| - 1;
      DirectedKeepsLastRelation(arrows[..n], u, v);
      assert forall i :: 0 <= i < n ==> arrows[..n][i] == arrows[i];
      assert Goes(arrows[n], u, v) <==> SlotOf(true, arrows[n]) == Arc(u, v);
    }
  }

  // ---- which direction an undirected slot keeps ----

  /** The last relation that some arrow of the slot names. */
  function LastRelation<N(==), R>(arrows: seq<Arrow<N, R>>, slot: Slot<N>): Option<R> {
    if arrows == [] then None
    else
      var n := |arrows| - 1;
      if SlotOf(false, arrows[n]) == slot && arrows[n].relation.Some? then arrows[n].relation
      else LastRelation(arrows[..n], slot)
  }

  /** The arrow at `i` sets the direction: it is the first of its slot, or names another relation than the last one named. */
  predicate Decides<N(==), R(==)>(arrows: seq<Arrow<N, R>>, slot: Slot<N>, i: nat)
    requires i < |arrows|
  {
    && SlotOf(false, arrows[i]) == slot
    && (arrows[i].relation != LastRelation(arrows[..i], slot) || forall j :: 0 <= j < i ==> SlotOf(false, arrows[j]) != slot)
  }

  /** The last arrow that sets the direction. */
  function Decider<N(==), R(==)>(arrows: seq<Arrow<N, R>>, slot: Slot<N>): Option<Arrow<N, R>> {
    if arrows == [] then None
    else
      var n := |arrows| - 1;
      if Decides(arrows, slot, n) then Some(arrows[n]) else Decider(arrows[..n], slot)
  }

  lemma {:induction false} DeciderExists<N, R>(arrows: seq<Arrow<N, R>>, slot: Slot<N>)
    ensures Decider(arrows, slot).None? <==> forall i :: 0 <= i < |arrows| ==> SlotOf(false, arrows[i]) != slot
    ensures Decider(arrows, slot).Some? ==> SlotOf(false, Decider(arrows, slot).value) == slot
    ensures Decider(arrows, slot).None? ==> LastRelation(arrows, slot).None?
  {
    if arrows != [] {
      DeciderExists(arrows[..|arrows| - 1], slot);
    }
  }

  /** An undirected slot keeps the direction of the last arrow that sets it, with the last relation named. */
  lemma {:induction false} FinalIsDecided<N, R>(arrows: seq<Arrow<N, R>>, slot: Slot<N>)
    ensures Final(false, arrows, slot) ==
            match Decider(arrows, slot)
            case Some(d) => Some(Arrow(d.src, d.tgt, LastRelation(arrows, slot)))
            case None => None
  {
    if arrows != [] {
      var n := |arrows| - 1;
      var front, last := arrows[..n], arrows[n];
      FinalIsDecided(front, slot);
      DeciderExists(front, slot);
      assert forall j :: 0 <= j < n ==> front[j] == arrows[j];
      if SlotOf(false, last) == slot && Decider(front, slot).Some? {
        var d := Decider(front, slot).value;
        SameEnds(d.src, d.tgt, last.src, last.tgt);
      }
    }
  }

  /** The first direction of a slot stays exactly when every later arrow that sets the opposite direction is followed by one
      that sets the first direction again. */
  lemma FirstDirectionStaysIff<N(!new), R(!new)>(arrows: seq<Arrow<N, R>>, a: N, b: N, first: nat)
    requires a != b && first < |arrows| && arrows[first].src == a && arrows[first].tgt == b
    requires forall i :: 0 <= i < first ==> SlotOf(false, arrows[i]) != Link({a, b})
    ensures var f := Final(false, arrows, Link({a, b}));
            f.Some? && (f.value.src == a <==> forall i :: 0 <= i < |arrows| && SetsBack(arrows, a, b, i) ==>
                                              exists j :: i < j < |arrows| && SetsBack(arrows, b, a, j))
  {
    var slot := Link({a, b});
    assert {a, b} == {b, a};
    FinalIsDecided(arrows, slot);
    DeciderExists(arrows, slot);
    var i := DeciderAt(arrows, slot);
    SameEnds(a, b, arrows[i].src, arrows[i].tgt);
    assert Decides(arrows, slot, first);
    if arrows[i].src == a && i != first {
      assert SetsBack(arrows, b, a, i);
    } else if arrows[i].src == b {
      assert SetsBack(arrows, a, b, i);
    }
  }

  /** The arrow at `i` goes from `b` to `a` and sets that direction. */
  predicate SetsBack<N(==), R(==)>(arrows: seq<Arrow<N, R>>, a: N, b: N, i: nat)
    requires i < |arrows|
  {
    Decides(arrows, Link({a, b}), i) && arrows[i].src == b
  }

  lemma {:induction false} DeciderAt<N, R>(arrows: seq<Arrow<N, R>>, slot: Slot<N>) returns (i: nat)
    requires Decider(arrows, slot).Some?
    ensures i < |arrows| && Decides(arrows, slot, i) && Decider(arrows, slot) == Some(arrows[i])
    ensures forall j :: i < j < |arrows| ==> !Decides(arrows, slot, j)
  {
    var n := |arrows| - 1;
    if Decides(arrows, slot, n) {
      i := n;
    } else {
      i := DeciderAt(arrows[..n], slot);
      forall j | 0 <= j < n
        ensures Decides(arrows, slot, j) == Decides(arrows[..n], slot, j)
      {
        assert arrows[..n][..j] == arrows[..j];
      }
    }
  }

  /** No arrow from `b` to `a` comes before one from `a` to `b`. */
  ghost predicate InTurn<N, R>(arrows: seq<Arrow<N, R>>, a: N, b: N) {
    forall i, j :: 0 <= i < j < |arrows| && Goes(arrows[i], b, a) ==> !Goes(arrows[j], a, b)
  }

  predicate Goes<N(==), R>(x: Arrow<N, R>, a: N, b: N) {
    x.src == a && x.tgt == b
  }

  /** The last relation that some arrow from `a` to `b` names. */
  function RelationOf<N(==), R>(arrows: seq<Arrow<N, R>>, a: N, b: N): Option<R> {
    if arrows == [] then None
    else
      var n := |arrows| - 1;
      if Goes(arrows[n], a, b) && arrows[n].relation.Some? then arrows[n].relation else RelationOf(arrows[..n], a, b)
  }

  /** Every arrow back repeats the relation that the arrows forth ended with. */
  ghost predicate RepeatsBack<N, R>(arrows: seq<Arrow<N, R>>, a: N, b: N, relation: Option<R>) {
    forall i :: 0 <= i < |arrows| && Goes(arrows[i], b, a) ==> arrows[i].relation == relation
  }

  /** When all arrows of one direction come first, that direction stays exactly when every arrow back repeats the last
      relation of the arrows forth. */
  lemma {:induction false} InTurnStaysIff<N, R>(arrows: seq<Arrow<N, R>>, a: N, b: N)
    requires a != b && InTurn(arrows, a, b)
    requires exists i :: 0 <= i < |arrows| && Goes(arrows[i], a, b)
    ensures var f, r := Final(false, arrows, Link({a, b})), RelationOf(arrows, a, b);
            if RepeatsBack(arrows, a, b, r) then f == Some(Arrow(a, b, r)) else f.Some? && f.value.src == b && f.value.tgt == a
  {
    var n := |arrows| - 1;
    var front, last := arrows[..n], arrows[n];
    assert arrows == front + [last];
    SlotOfLink(last, a, b);
    if exists i :: 0 <= i < |front| && Goes(front[i], a, b) {
      InTurnStaysIff(front, a, b);
    } else {
      NothingYet(front, a, b);
    }
  }

  lemma SlotOfLink<N, R>(x: Arrow<N, R>, a: N, b: N)
    ensures SlotOf(false, x) == Link({a, b}) <==> Goes(x, a, b) || Goes(x, b, a)
  {
    if {x.src, x.tgt} == {a, b} { SameEnds(x.src, x.tgt, a, b); }
    assert {a, b} == {b, a};
  }

  lemma {:induction false} NothingYet<N, R>(arrows: seq<Arrow<N, R>>, a: N, b: N)
    requires forall i :: 0 <= i < |arrows| ==> !Goes(arrows[i], a, b) && !Goes(arrows[i], b, a)
    ensures Final(false, arrows, Link({a, b})) == None && RelationOf(arrows, a, b) == None
  {
    if arrows != [] {
      SlotOfLink(arrows[|arrows| - 1], a, b);
      NothingYet(arrows[..|arrows| - 1], a, b);
    }
  }

  // ---- the whole build ----

  /** A stored edge joins two survivors, sits in the slot of its own ends, and goes the way of some input edge. */
  ghost predicate IsFaithful<N(!new), R(!new)>(directed: bool, alive: set<N>, resolve: N -> N, phantom: (Edge<N, R>, N, N) -> bool,
                                               edges: seq<Edge<N, R>>, slot: Slot<N>, a: Arrow<N, R>)
  {
    && a.src in alive && a.tgt in alive && SlotOf(directed, a) == slot
    && exists e, x, y :: e in edges && Joins(e, x, y) && a.src == resolve(x) && a.tgt == resolve(y)
                         && !phantom(e, a.src, a.tgt)
  }

  /** Every slot holds what the sorted edges leave in it. */
  ghost predicate Stored<N(!new), R(!new)>(directed: bool, alive: set<N>, resolve: N -> N, phantom: (Edge<N, R>, N, N) -> bool,
                                           edges: seq<Edge<N, R>>, le: (Edge<N, R>, Edge<N, R>) -> bool,
                                           graph: map<Slot<N>, Arrow<N, R>>)
  {
    forall slot :: Lookup(graph, slot) == Final(directed, Arrows(alive, resolve, phantom, Sort(edges, le)), slot)
  }

  method BuildFromJson<N(==,!new), K(==,!new), R(==,!new)>(
      directed: bool, t: Table<N, K>, order: seq<N>, norm: N -> N, phantom: (Edge<N, R>, N, N) -> bool,
      edges: seq<Edge<N, R>>, le: (Edge<N, R>, Edge<N, R>) -> bool)
    returns (alive: set<N>, graph: map<Slot<N>, Arrow<N, R>>, ghost pairs: seq<Pair<N>>, ghost resolve: N -> N)
    requires Distinct(order) && forall n :: n in order <==> n in t
    ensures IsMerge(t, order, pairs) && alive == t.Keys - Lost(pairs) && forall p :: p in pairs ==> Latest(t, order, p)
    ensures forall n :: n in t && t[n].ast ==> n in alive
    ensures forall x :: resolve(x) == Resolve(alive, Filter(n => n in alive, order), pairs, norm, x)
    ensures forall p :: p in pairs ==> resolve(p.lost) in alive && (OwnsItsName(pairs, norm, p) ==> resolve(p.lost) == p.twin)
    ensures forall x :: x in alive ==> resolve(x) == x
    ensures forall x :: FindsAlike(alive, pairs, norm, x, resolve(x))
    ensures forall slot :: slot in graph ==> IsFaithful(directed, alive, resolve, phantom, edges, slot, graph[slot])
    ensures forall e, a, b :: e in edges && Joins(e, a, b) && resolve(a) in alive && resolve(b) in alive
                              && !phantom(e, resolve(a), resolve(b)) ==>
              (if directed then Arc(resolve(a), resolve(b)) else Link({resolve(a), resolve(b)})) in graph
    ensures Stored(directed, alive, resolve, phantom, edges, le, graph)
  {
    var merged;
    merged, alive := MergeGhosts(t, order);
    pairs := merged;
    var survivors := Filter(n => n in alive, order);
    var index := NormIndex(survivors, merged, norm);
    var follow := x => if x in alive then x else if norm(x) in index then index[norm(x)] else x;
    resolve := follow;
    AllEndsLand(t, order, alive, survivors, pairs, norm, index, resolve);
    var sorted := Sort(edges, le);
    graph := AddEdges(directed, alive, follow, phantom, sorted);
    forall e
      ensures e in sorted <==> e in edges
    {
      SortMembers(edges, le, e);
    }
    forall slot | slot in graph
      ensures IsFaithful(directed, alive, resolve, phantom, edges, slot, graph[slot])
    {
      StoredIsFaithful(directed, alive, resolve, phantom, edges, sorted, slot);
    }
    forall e, a, b | e in edges && Joins(e, a, b) && resolve(a) in alive && resolve(b) in alive
                     && !phantom(e, resolve(a), resolve(b))
      ensures SlotOf(directed, Arrow(resolve(a), resolve(b), e.relation)) in graph
    {
      ArrowOfIff(alive, resolve, phantom, e, Arrow(resolve(a), resolve(b), e.relation));
      EdgeIsStored(directed, alive, resolve, phantom, sorted, e);
    }
  }

  lemma AllEndsLand<N(!new), K(!new)>(t: Table<N, K>, order: seq<N>, alive: set<N>, survivors: seq<N>, pairs: seq<Pair<N>>,
                                      norm: N -> N, index: map<N, N>, resolve: N -> N)
    requires forall n :: n in order <==> n in t
    requires IsMerge(t, order, pairs) && alive == t.Keys - Lost(pairs) && survivors == Filter(n => n in alive, order)
    requires forall x :: Lookup(index, x) == NormTarget(survivors, pairs, norm, x)
    requires forall x :: resolve(x) == if x in alive then x else if norm(x) in index then index[norm(x)] else x
    ensures forall x :: resolve(x) == Resolve(alive, survivors, pairs, norm, x)
    ensures forall p :: p in pairs ==> resolve(p.lost) in alive && (OwnsItsName(pairs, norm, p) ==> resolve(p.lost) == p.twin)
    ensures forall x :: FindsAlike(alive, pairs, norm, x, resolve(x))
  {
    forall x
      ensures resolve(x) == Resolve(alive, survivors, pairs, norm, x)
    {
      assert Lookup(index, norm(x)) == NormTarget(survivors, pairs, norm, norm(x));
    }
    forall n | n in survivors
      ensures n in alive
    {
      FilterMembers(n => n in alive, order, n);
    }
    forall n | n in alive
      ensures n in survivors
    {
      FilterMembers(n => n in alive, order, n);
    }
    forall x
      ensures FindsAlike(alive, pairs, norm, x, resolve(x))
    {
      if !Claimed(pairs, norm, norm(x)) { UnclaimedFindsSurvivor(survivors, pairs, norm, norm(x)); }
    }
    forall p | p in pairs
      ensures resolve(p.lost) in alive && (OwnsItsName(pairs, norm, p) ==> resolve(p.lost) == p.twin)
    {
      assert Mergeable(t, order, p) && p.lost in Lost(pairs);
      EndsLand(alive, survivors, pairs, norm, p.lost);
      if OwnsItsName(pairs, norm, p) { OwnTwin(alive, survivors, pairs, norm, p); }
    }
  }

  lemma StoredIsFaithful<N(!new), R(!new)>(directed: bool, alive: set<N>, resolve: N -> N, phantom: (Edge<N, R>, N, N) -> bool,
                                           edges: seq<Edge<N, R>>, sorted: seq<Edge<N, R>>, slot: Slot<N>)
    requires forall e :: e in sorted <==> e in edges
    requires Final(directed, Arrows(alive, resolve, phantom, sorted), slot).Some?
    ensures IsFaithful(directed, alive, resolve, phantom, edges, slot,
                       Final(directed, Arrows(alive, resolve, phantom, sorted), slot).value)
  {
    var arrows := Arrows(alive, resolve, phantom, sorted);
    FinalIsAnArrow(directed, arrows, slot);
    var f := Final(directed, arrows, slot).value;
    var a :| a in arrows && SlotOf(directed, a) == slot && a.src == f.src && a.tgt == f.tgt;
    ArrowsComeFromEdges(alive, resolve, phantom, sorted, a);
    var e :| e in sorted && ArrowOf(alive, resolve, phantom, e) == Some(a);
    ArrowOfIff(alive, resolve, phantom, e, a);
  }

  lemma EdgeIsStored<N(!new), R(!new)>(directed: bool, alive: set<N>, resolve: N -> N, phantom: (Edge<N, R>, N, N) -> bool,
                                       sorted: seq<Edge<N, R>>, e: Edge<N, R>)
    requires e in sorted && ArrowOf(alive, resolve, phantom, e).Some?
    ensures var a := ArrowOf(alive, resolve, phantom, e).value;
            Final(directed, Arrows(alive, resolve, phantom, sorted), SlotOf(directed, a)).Some?
  {
    var a := ArrowOf(alive, resolve, phantom, e).value;
    ArrowsComeFromEdges(alive, resolve, phantom, sorted, a);
    FinalIsAnArrow(directed, Arrows(alive, resolve, phantom, sorted), SlotOf(directed, a));
  }

  // ---- directions in the built graph ----

  /** Some edge becomes an arrow from `a` to `b`. */
  ghost predicate Lands<N, R>(alive: set<N>, resolve: N -> N, phantom: (Edge<N, R>, N, N) -> bool, e: Edge<N, R>, a: N, b: N) {
    ArrowOf(alive, resolve, phantom, e).Some? && Goes(ArrowOf(alive, resolve, phantom, e).value, a, b)
  }

  /** Sorted edges give the arrows of the smaller source first. */
  lemma {:induction false} SortedTakesTurns<N(!new), R(!new)>(
      alive: set<N>, resolve: N -> N, phantom: (Edge<N, R>, N, N) -> bool,
      sorted: seq<Edge<N, R>>, le: (Edge<N, R>, Edge<N, R>) -> bool, a: N, b: N)
    requires a != b && Sorted(sorted, le)
    requires forall e, f :: (e in sorted && f in sorted && Lands(alive, resolve, phantom, e, b, a)
                             && Lands(alive, resolve, phantom, f, a, b)) ==> !le(e, f)
    ensures InTurn(Arrows(alive, resolve, phantom, sorted), a, b)
  {
    if sorted != [] {
      var n := |sorted| - 1;
      var front, last := sorted[..n], sorted[n];
      assert sorted == front + [last];
      SortedTakesTurns(alive, resolve, phantom, front, le, a, b);
      if Lands(alive, resolve, phantom, last, a, b) {
        var arrows := Arrows(alive, resolve, phantom, front);
        forall x | x in arrows
          ensures !Goes(x, b, a)
        {
          ArrowsComeFromEdges(alive, resolve, phantom, front, x);
          var e :| e in front && ArrowOf(alive, resolve, phantom, e) == Some(x);
          assert le(sorted[IndexOf(front, e)], last);
        }
      }
    }
  }

  /** The arrows back repeat a relation exactly when the edges they come from do. */
  lemma BackEdges<N(!new), R(!new)>(alive: set<N>, resolve: N -> N, phantom: (Edge<N, R>, N, N) -> bool,
                                    edges: seq<Edge<N, R>>, a: N, b: N, r: Option<R>)
    ensures RepeatsBack(Arrows(alive, resolve, phantom, edges), a, b, r) <==>
            forall e :: e in edges && Lands(alive, resolve, phantom, e, b, a) ==> e.relation == r
  {
    var arrows := Arrows(alive, resolve, phantom, edges);
    if RepeatsBack(arrows, a, b, r) {
      forall e | e in edges && Lands(alive, resolve, phantom, e, b, a)
        ensures e.relation == r
      {
        var x := ArrowOf(alive, resolve, phantom, e).value;
        ArrowsComeFromEdges(alive, resolve, phantom, edges, x);
        assert Goes(arrows[IndexOf(arrows, x)], b, a);
      }
    } else {
      var i :| 0 <= i < |arrows| && Goes(arrows[i], b, a) && arrows[i].relation != r;
      ArrowsComeFromEdges(alive, resolve, phantom, edges, arrows[i]);
      var e :| e in edges && ArrowOf(alive, resolve, phantom, e) == Some(arrows[i]);
      assert Lands(alive, resolve, phantom, e, b, a) && e.relation != r;
    }
  }

  /** Between two nodes whose edges keep their ends, the direction that sorts first stays exactly when every edge back has the
      last relation among the edges forth. */
  lemma FirstDirectionStaysInGraphIff<N(!new), R(!new)>(
      alive: set<N>, resolve: N -> N, phantom: (Edge<N, R>, N, N) -> bool,
      edges: seq<Edge<N, R>>, le: (Edge<N, R>, Edge<N, R>) -> bool, graph: map<Slot<N>, Arrow<N, R>>, a: N, b: N)
    requires Stored(false, alive, resolve, phantom, edges, le, graph)
    requires a != b && TotalPreorder(le) && forall e, f :: Source(e) == Some(b) && Source(f) == Some(a) ==> !le(e, f)
    requires forall e :: e in edges && Lands(alive, resolve, phantom, e, a, b) ==> Source(e) == Some(a)
    requires forall e :: e in edges && Lands(alive, resolve, phantom, e, b, a) ==> Source(e) == Some(b)
    requires exists e :: e in edges && Lands(alive, resolve, phantom, e, a, b)
    ensures Link({a, b}) in graph
    ensures var r := RelationOf(Arrows(alive, resolve, phantom, Sort(edges, le)), a, b);
            graph[Link({a, b})].src == a <==>
            forall e :: e in edges && Lands(alive, resolve, phantom, e, b, a) ==> e.relation == r
  {
    var sorted := Sort(edges, le);
    SortSorted(edges, le);
    forall e
      ensures e in sorted <==> e in edges
    {
      SortMembers(edges, le, e);
    }
    SortedTakesTurns(alive, resolve, phantom, sorted, le, a, b);
    var arrows := Arrows(alive, resolve, phantom, sorted);
    var e :| e in edges && Lands(alive, resolve, phantom, e, a, b);
    ArrowsComeFromEdges(alive, resolve, phantom, sorted, ArrowOf(alive, resolve, phantom, e).value);
    var i := IndexOf(arrows, ArrowOf(alive, resolve, phantom, e).value);
    InTurnStaysIff(arrows, a, b);
    BackEdges(alive, resolve, phantom, sorted, a, b, RelationOf(arrows, a, b));
    assert Lookup(graph, Link({a, b})) == Final(false, arrows, Link({a, b}));
  }

  /** The documented first direction can lose: `a` calls and imports `b`, and `b` calls `a`. */
  lemma SecondRelationFlips<N(!new), R(!new)>(alive: set<N>, resolve: N -> N, phantom: (Edge<N, R>, N, N) -> bool,
                                              le: (Edge<N, R>, Edge<N, R>) -> bool, graph: map<Slot<N>, Arrow<N, R>>,
                                              a: N, b: N, calls: R, imports: R)
    requires a != b && calls != imports && a in alive && b in alive && resolve(a) == a && resolve(b) == b
    requires forall e :: !phantom(e, a, b) && !phantom(e, b, a)
    requires Sorted(TwoWays(a, b, calls, imports), le)
    requires Stored(false, alive, resolve, phantom, TwoWays(a, b, calls, imports), le, graph)
    ensures Link({a, b}) in graph && graph[Link({a, b})] == Arrow(b, a, Some(calls))
  {
    var edges := TwoWays(a, b, calls, imports);
    SortOfSorted(edges, le);
    var x, y, z := Arrow(a, b, Some(calls)), Arrow(a, b, Some(imports)), Arrow(b, a, Some(calls));
    assert edges == [edges[0]] + [edges[1]] + [edges[2]];
    OneMoreEdge(alive, resolve, phantom, [], edges[0], x);
    OneMoreEdge(alive, resolve, phantom, [edges[0]], edges[1], y);
    OneMoreEdge(alive, resolve, phantom, [edges[0]] + [edges[1]], edges[2], z);
    FinalOfTwoWays(a, b, calls, imports);
    assert Lookup(graph, Link({a, b})) == Final(false, [x] + [y] + [z], Link({a, b}));
  }

  lemma OneMoreEdge<N, R>(alive: set<N>, resolve: N -> N, phantom: (Edge<N, R>, N, N) -> bool, edges: seq<Edge<N, R>>,
                          e: Edge<N, R>, x: Arrow<N, R>)
    requires ArrowOf(alive, resolve, phantom, e) == Some(x)
    ensures Arrows(alive, resolve, phantom, edges + [e]) == Arrows(alive, resolve, phantom, edges) + [x]
    ensures edges == [] ==> Arrows(alive, resolve, phantom, [e]) == [x]
  {
    assert (edges + [e])[..|edges|] == edges;
    assert edges == [] ==> edges + [e] == [e];
  }

  lemma FinalOfTwoWays<N, R>(a: N, b: N, calls: R, imports: R)
    requires a != b && calls != imports
    ensures var x, y, z := Arrow(a, b, Some(calls)), Arrow(a, b, Some(imports)), Arrow(b, a, Some(calls));
            Final(false, [x] + [y] + [z], Link({a, b})) == Some(z)
  {
    var arrows := [Arrow(a, b, Some(calls)), Arrow(a, b, Some(imports)), Arrow(b, a, Some(calls))];
    assert {b, a} == {a, b};
    assert arrows[..0] == [] && arrows[..1][..0] == [] && arrows[..2][..1] == arrows[..1];
    assert Final(false, arrows[..1], Link({a, b})) == Some(arrows[0]);
    assert Final(false, arrows[..2], Link({a, b})) == Some(arrows[1]);
    assert arrows[..3] == arrows == [arrows[0]] + [arrows[1]] + [arrows[2]];
  }

  function TwoWays<N, R>(a: N, b: N, calls: R, imports: R): seq<Edge<N, R>> {
    [Edge(Some(a), Some(b), None, None, Some(calls)), Edge(Some(a), Some(b), None, None, Some(imports)),
     Edge(Some(b), Some(a), None, None, Some(calls))]
  }
}
