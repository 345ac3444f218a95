/** Remapping community ids to a previous clustering. */
module Communities {
  import opened Common
  import opened Sorting
  import opened Matching

  datatype Overlap = Overlap(size: nat, old_: int, new_: int)

  /** Larger overlaps first, then smaller old ids, then smaller new ids. */
  predicate OverlapLe(a: Overlap, b: Overlap) {
    a.size > b.size || (a.size == b.size && (a.old_ < b.old_ || (a.old_ == b.old_ && a.new_ <= b.new_)))
  }

  function OldSet<N(==)>(previous: seq<(N, int)>, o: int): set<N> {
    set p | p in previous && p.1 == o :: p.0
  }

  function NewSet<N(==)>(communities: seq<(int, seq<N>)>, n: int): set<N> {
    if communities == [] then {}
    else (if communities[0].0 == n then set x | x in communities[0].1 else {}) + NewSet(communities[1..], n)
  }

  /** The number of nodes that old community `o` and new community `n` share. */
  function Shared<N(==)>(previous: seq<(N, int)>, communities: seq<(int, seq<N>)>): Weights {
    (o, n) => |OldSet(previous, o) * NewSet(communities, n)|
  }

  /** What the overlap of two communities counts. */
  ghost predicate CountsCommon<N(!new)>(previous: seq<(N, int)>, communities: seq<(int, seq<N>)>, o: int, n: int, common: set<N>) {
    forall x :: x in common <==> (x, o) in previous && exists c :: c in communities && c.0 == n && x in c.1
  }

  lemma SharedCountsCommon<N(!new)>(previous: seq<(N, int)>, communities: seq<(int, seq<N>)>, o: int, n: int)
    ensures exists common :: CountsCommon(previous, communities, o, n, common) && Shared(previous, communities)(o, n) == |common|
  {
    var common := OldSet(previous, o) * NewSet(communities, n);
    forall x
      ensures x in common <==> (x, o) in previous && exists c :: c in communities && c.0 == n && x in c.1
    {
      NewSetMembers(communities, n, x);
    }
    assert CountsCommon(previous, communities, o, n, common);
  }

  lemma {:induction false} NewSetMembers<N(!new)>(communities: seq<(int, seq<N>)>, n: int, x: N)
    ensures x in NewSet(communities, n) <==> exists c :: c in communities && c.0 == n && x in c.1
  {
    if communities != [] {
      NewSetMembers(communities[1..], n, x);
      assert communities == [communities[0]] + communities[1..];
    }
  }

  function Cids<N>(communities: seq<(int, seq<N>)>): seq<int> {
    seq(|communities|, i requires 0 <= i < |communities| => communities[i].0)
  }

  /** One dictionary: no key twice. */
  ghost predicate Keyed<N>(communities: seq<(int, seq<N>)>) {
    forall i, j :: 0 <= i < j < |communities| ==> communities[i].0 != communities[j].0
  }

  lemma {:induction false} NewSetEmpty<N>(communities: seq<(int, seq<N>)>, n: int)
    requires n !in Cids(communities)
    ensures NewSet(communities, n) == {}
  {
    if communities != [] {
      assert Cids(communities)[0] == communities[0].0;
      assert forall i :: 0 <= i < |communities| - 1 ==> Cids(communities[1..])[i] == Cids(communities)[i + 1];
      NewSetEmpty(communities[1..], n);
    }
  }

  /** The distinct old ids, in order of appearance. */
  method OldIds<N(==)>(previous: seq<(N, int)>) returns (ids: seq<int>)
    ensures forall o :: o in ids <==> exists p :: p in previous && p.1 == o
  {
    ids := [];
    for i := 0 to |previous|
      invariant forall o :: o in ids <==> exists p :: p in previous[..i] && p.1 == o
    {
      assert previous[..i + 1] == previous[..i] + [previous[i]];
      if previous[i].1 !in ids { ids := ids + [previous[i].1]; }
    }
    assert previous[..|previous|] == previous;
  }

  /** `overlaps` lists exactly the pairs that share nodes. */
  ghost predicate ListsOverlaps(overlaps: seq<Overlap>, w: Weights) {
    && (forall e :: e in overlaps ==> e.size == w(e.old_, e.new_) > 0)
    && (forall o, n :: w(o, n) > 0 ==> Overlap(w(o, n), o, n) in overlaps)
  }

  ghost predicate Genuine(overlaps: seq<Overlap>, w: Weights) {
    forall e :: e in overlaps ==> e.size == w(e.old_, e.new_) > 0
  }

  ghost predicate Listed(overlaps: seq<Overlap>, w: Weights, o: int, n: int) {
    w(o, n) > 0 ==> Overlap(w(o, n), o, n) in overlaps
  }

  /** The entries of one old community. */
  method CollectRow(cids: seq<int>, w: Weights, o: int) returns (row: seq<Overlap>)
    ensures Genuine(row, w)
    ensures forall j :: 0 <= j < |cids| ==> Listed(row, w, o, cids[j])
  {
    row := [];
    for j := 0 to |cids|
      invariant Genuine(row, w)
      invariant forall k :: 0 <= k < j ==> Listed(row, w, o, cids[k])
    {
      var overlap := w(o, cids[j]);
      if overlap > 0 {
        row := row + [Overlap(overlap, o, cids[j])];
      }
    }
  }

  method CollectOverlaps<N(==)>(communities: seq<(int, seq<N>)>, previous: seq<(N, int)>)
    returns (overlaps: seq<Overlap>)
    ensures ListsOverlaps(overlaps, Shared(previous, communities))
  {
    overlaps := [];
    var olds := OldIds(previous);
    var cids, w := Cids(communities), Shared(previous, communities);
    for i := 0 to |olds|
      invariant Genuine(overlaps, w)
      invariant forall p, j :: 0 <= p < i && 0 <= j < |cids| ==> Listed(overlaps, w, olds[p], cids[j])
    {
      var row := CollectRow(cids, w, olds[i]);
      overlaps := overlaps + row;
    }
    forall o, n | w(o, n) > 0
      ensures Overlap(w(o, n), o, n) in overlaps
    {
      SharedIsListed(communities, previous, o, n);
      var p := IndexOf(olds, o);
      var j := IndexOf(cids, n);
      assert Listed(overlaps, w, olds[p], cids[j]);
    }
  }

  lemma SharedIsListed<N>(communities: seq<(int, seq<N>)>, previous: seq<(N, int)>, o: int, n: int)
    requires Shared(previous, communities)(o, n) > 0
    ensures n in Cids(communities) && exists p :: p in previous && p.1 == o
  {
    if n !in Cids(communities) { NewSetEmpty(communities, n); }
    var x := Pick(OldSet(previous, o) * NewSet(communities, n));
    var p :| p in previous && p.1 == o && p.0 == x;
  }

  /** An accepted entry that comes no later and shares an end with `e`. */
  ghost predicate Beats(f: Overlap, e: Overlap, m: map<int, int>) {
    OverlapLe(f, e) && f.new_ in m && m[f.new_] == f.old_ && (f.new_ == e.new_ || f.old_ == e.old_)
  }

  ghost predicate Beaten(e: Overlap, list: seq<Overlap>, m: map<int, int>) {
    exists f :: f in list && Beats(f, e, m)
  }

  ghost predicate Accepted(n: int, list: seq<Overlap>, m: map<int, int>) {
    exists f :: f in list && f.new_ == n && n in m && f.old_ == m[n]
  }

  /** `m` is one-to-one, made of entries of `list`, and leaves no entry unbeaten. */
  ghost predicate Greedy(list: seq<Overlap>, m: map<int, int>) {
    && OneToOne(m)
    && (forall n {:trigger Accepted(n, list, m)} :: n in m ==> Accepted(n, list, m))
    && (forall e {:trigger Beaten(e, list, m)} :: e in list ==> Beaten(e, list, m))
  }

  lemma GreedyAccept(list: seq<Overlap>, m: map<int, int>, e: Overlap)
    requires Greedy(list, m) && e.new_ !in m && e.old_ !in m.Values
    ensures Greedy(list + [e], m[e.new_ := e.old_])
  {
    var m' := m[e.new_ := e.old_];
    assert Beats(e, e, m') && e in list + [e];
    forall n | n in m'
      ensures Accepted(n, list + [e], m')
    {
      if n != e.new_ {
        assert Accepted(n, list, m);
      }
    }
    forall d | d in list
      ensures Beaten(d, list + [e], m')
    {
      assert Beaten(d, list, m);
      var f :| f in list && Beats(f, d, m);
      assert Beats(f, d, m') && f in list + [e];
    }
    forall a, b {:trigger m'[a], m'[b]} | a in m' && b in m' && m'[a] == m'[b]
      ensures a == b
    {
      assert a != e.new_ ==> m[a] in m.Values;
      assert b != e.new_ ==> m[b] in m.Values;
    }
  }

  lemma GreedyReject(list: seq<Overlap>, m: map<int, int>, e: Overlap)
    requires Greedy(list, m) && (e.new_ in m || e.old_ in m.Values)
    requires forall d :: d in list ==> OverlapLe(d, e)
    ensures Greedy(list + [e], m)
  {
    var n := if e.new_ in m then e.new_ else KeyOf(m, e.old_);
    assert Accepted(n, list, m);
    var f :| f in list && f.new_ == n && f.old_ == m[n];
    assert Beats(f, e, m) && f in list + [e];
    forall k | k in m
      ensures Accepted(k, list + [e], m)
    {
      assert Accepted(k, list, m);
    }
    forall d | d in list
      ensures Beaten(d, list + [e], m)
    {
      assert Beaten(d, list, m);
      var g :| g in list && Beats(g, d, m);
      assert g in list + [e];
    }
  }

  /** Accept entries in order unless one of their ends is taken. */
  method MatchGreedily(overlaps: seq<Overlap>) returns (m: map<int, int>, usedOld: set<int>)
    requires Sorted(overlaps, OverlapLe)
    ensures Greedy(overlaps, m) && usedOld == m.Values
  {
    m, usedOld := map[], {};
    for i := 0 to |overlaps|
      invariant Greedy(overlaps[..i], m) && usedOld == m.Values
    {
      var e := overlaps[i];
      assert overlaps[..i + 1] == overlaps[..i] + [e];
      if e.old_ !in usedOld && e.new_ !in m {
        GreedyAccept(overlaps[..i], m, e);
        ValuesPlus(m, e.new_, e.old_);
        m, usedOld := m[e.new_ := e.old_], usedOld + {e.old_};
      } else {
        GreedyReject(overlaps[..i], m, e);
      }
    }
    assert overlaps[..|overlaps|] == overlaps;
  }

  lemma ValuesPlus(m: map<int, int>, k: int, v: int)
    requires k !in m
    ensures m[k := v].Values == m.Values + {v}
  {
    forall x | x in m.Values
      ensures x in m[k := v].Values
    {
      var j := KeyOf(m, x);
      assert m[k := v][j] == x;
    }
    assert m[k := v][k] == v;
    forall x | x in m[k := v].Values
      ensures x in m.Values + {v}
    {
      var j := KeyOf(m[k := v], x);
    }
  }

  lemma OverlapOrder()
    ensures TotalOrder(OverlapLe)
  {
  }

  // ---- fresh ids ----

  /** The least number from `start` on that is not in `used`. */
  method NextFree(used: set<int>, start: nat) returns (x: nat)
    ensures x >= start && x !in used && forall y :: start <= y < x ==> y in used
  {
    x := start;
    ghost var left := set u | u in used && u >= x;
    while x in used
      invariant x >= start && forall y :: start <= y < x ==> y in used
      invariant left == set u | u in used && u >= x
      decreases left
    {
      assert x in left;
      x := x + 1;
      left := set u | u in used && u >= x;
    }
  }

  /** The ids of `fresh` outside `matched` are the smallest numbers that `matched` leaves free. */
  ghost predicate FillsGaps(matched: map<int, int>, final: map<int, int>) {
    && (forall n :: n in matched ==> n in final && final[n] == matched[n])
    && (forall n :: n in final && n !in matched ==>
          && final[n] >= 0 && final[n] !in matched.Values
          && forall x :: 0 <= x < final[n] ==> x in final.Values)
    && OneToOne(final)
  }

  /** `final` gives the communities of `order` ids in ascending order, all below `next`. */
  ghost predicate Ascends(order: seq<int>, final: map<int, int>, next: int) {
    && (forall i :: 0 <= i < |order| ==> order[i] in final && final[order[i]] < next)
    && (forall i, j :: 0 <= i < j < |order| ==> final[order[i]] < final[order[j]])
  }

  lemma AscendsStep(order: seq<int>, final: map<int, int>, next: int, n: int, x: int)
    requires Ascends(order, final, next) && n !in order && n !in final && next <= x
    ensures Ascends(order + [n], final[n := x], x + 1)
  {
  }

  lemma FirstOf(order: seq<int>, i: nat)
    requires i < |order| && Distinct(order)
    ensures order[..i + 1] == order[..i] + [order[i]] && order[i] !in order[..i]
  {
  }

  /** Give the unmatched communities the smallest free ids, in order. */
  method AssignFresh(unmatched: seq<int>, matched: map<int, int>, usedOld: set<int>) returns (final: map<int, int>)
    requires OneToOne(matched) && usedOld == matched.Values
    requires forall n :: n in unmatched ==> n !in matched
    requires Distinct(unmatched)
    ensures FillsGaps(matched, final)
    ensures final.Keys == matched.Keys + set n | n in unmatched
    ensures forall i, j :: 0 <= i < j < |unmatched| ==> final[unmatched[i]] < final[unmatched[j]]
  {
    final := matched;
    var next, used := 0, usedOld;
    for i := 0 to |unmatched|
      invariant FillsGaps(matched, final) && used == final.Values
      invariant final.Keys == matched.Keys + set n | n in unmatched[..i]
      invariant forall x :: 0 <= x < next ==> x in used
      invariant Ascends(unmatched[..i], final, next)
    {
      FirstOf(unmatched, i);
      ghost var before := next;
      next := NextFree(used, next);
      FillGap(matched, final, unmatched[i], next);
      ValuesPlus(final, unmatched[i], next);
      AscendsStep(unmatched[..i], final, before, unmatched[i], next);
      final := final[unmatched[i] := next];
      used := used + {next};
      next := next + 1;
    }
    assert unmatched[..|unmatched|] == unmatched;
  }

  lemma FillGap(matched: map<int, int>, final: map<int, int>, n: int, x: nat)
    requires FillsGaps(matched, final) && n !in final && x !in final.Values
    requires forall y :: 0 <= y < x ==> y in final.Values
    ensures FillsGaps(matched, final[n := x])
  {
    ValuesPlus(final, n, x);
    var final' := final[n := x];
    forall m | m in matched
      ensures matched[m] in final.Values
    {
      assert final[m] in final.Values;
    }
    if x in matched.Values {
      var m := KeyOf(matched, x);
    }
    forall a, b {:trigger final'[a], final'[b]} | a in final' && b in final' && final'[a] == final'[b]
      ensures a == b
    {
      assert a != n ==> final[a] in final.Values;
      assert b != n ==> final[b] in final.Values;
    }
  }

  // ---- the whole remapping ----

  function NodesOf<N>(communities: seq<(int, seq<N>)>, cid: int): seq<N> {
    if communities == [] then []
    else if communities[0].0 == cid then communities[0].1
    else NodesOf(communities[1..], cid)
  }

  /** Bigger communities first, then by their sorted members. */
  predicate SizeLe<N(==)>(communities: seq<(int, seq<N>)>, le: (N, N) -> bool, a: int, b: int) {
    var x, y := NodesOf(communities, a), NodesOf(communities, b);
    |x| > |y| || (|x| == |y| && LexLe(le, Sort(x, le), Sort(y, le)))
  }

  lemma SizeOrder<N(!new)>(communities: seq<(int, seq<N>)>, le: (N, N) -> bool)
    requires TotalOrder(le)
    ensures TotalPreorder((a, b) => SizeLe(communities, le, a, b))
  {
    forall a, b
      ensures SizeLe(communities, le, a, b) || SizeLe(communities, le, b, a)
    {
      LexTotal(le, Sort(NodesOf(communities, a), le), Sort(NodesOf(communities, b), le));
    }
    forall a, b, c | SizeLe(communities, le, a, b) && SizeLe(communities, le, b, c)
      ensures SizeLe(communities, le, a, c)
    {
      if |NodesOf(communities, a)| == |NodesOf(communities, c)| {
        LexTransitive(le, Sort(NodesOf(communities, a), le), Sort(NodesOf(communities, b), le), Sort(NodesOf(communities, c), le));
      }
    }
  }

  /** The pair loses at its new end to a larger overlap, or an equal one with a smaller old id; or at its old end to a larger
      overlap, or an equal one with a smaller new id. A matched pair loses to itself. */
  ghost predicate Loses(w: Weights, m: map<int, int>, o: int, n: int) {
    || (n in m && (w(m[n], n) > w(o, n) || (w(m[n], n) == w(o, n) && m[n] <= o)))
    || (exists k :: k in m && m[k] == o && (w(o, k) > w(o, n) || (w(o, k) == w(o, n) && k <= n)))
  }

  ghost predicate Stable(w: Weights, m: map<int, int>) {
    forall o, n :: w(o, n) > 0 ==> Loses(w, m, o, n)
  }

  /** What a remapping owes: `matched` dominates every overlap, the rest gets the smallest free ids. */
  ghost predicate IsRemapping(w: Weights, matched: map<int, int>, final: map<int, int>) {
    && OneToOne(matched) && Dominates(w, matched) && Stable(w, matched)
    && (forall n :: n in matched ==> w(matched[n], n) > 0)
    && FillsGaps(matched, final)
  }

  lemma GreedyDominates(overlaps: seq<Overlap>, w: Weights, m: map<int, int>)
    requires ListsOverlaps(overlaps, w) && Greedy(overlaps, m)
    ensures Dominates(w, m) && Stable(w, m) && forall n :: n in m ==> w(m[n], n) > 0
  {
    forall o, n | w(o, n) > 0
      ensures w(o, n) <= Kept(w, m, n) || w(o, n) <= KeptByOld(w, m, o)
      ensures Loses(w, m, o, n)
    {
      var e := Overlap(w(o, n), o, n);
      assert Beaten(e, overlaps, m);
      var f :| f in overlaps && Beats(f, e, m);
      KeptByOldOf(w, m, f.new_);
    }
    forall n | n in m
      ensures w(m[n], n) > 0
    {
      assert Accepted(n, overlaps, m);
    }
  }

  /** The communities without a partner, in the order in which they get fresh ids. */
  method CollectUnmatched<N(==)>(communities: seq<(int, seq<N>)>, m: map<int, int>, le: (N, N) -> bool)
    returns (unmatched: seq<int>)
    requires Keyed(communities)
    ensures (set n | n in unmatched) == (set n | n in Cids(communities)) - m.Keys
    ensures Distinct(unmatched)
    ensures unmatched == Sort(Filter(n => n !in m, Cids(communities)), (a, b) => SizeLe(communities, le, a, b))
  {
    var cids := Cids(communities);
    unmatched := Sort(Filter(n => n !in m, cids), (a, b) => SizeLe(communities, le, a, b));
    forall n
      ensures n in unmatched <==> n in cids && n !in m
    {
      SortMembers(Filter(x => x !in m, cids), (a, b) => SizeLe(communities, le, a, b), n);
      FilterMembers(x => x !in m, cids, n);
    }
    FilterDistinct(x => x !in m, cids);
    PermutationDistinct(Filter(x => x !in m, cids), unmatched);
  }

  /** The entry a community becomes. */
  function Renamed<N(==)>(community: (int, seq<N>), final: map<int, int>, le: (N, N) -> bool): (int, seq<N>) {
    (if community.0 in final then final[community.0] else community.0, Sort(community.1, le))
  }

  predicate IdLe<N>(a: (int, seq<N>), b: (int, seq<N>)) {
    a.0 <= b.0
  }

  /** Among unmatched communities larger ones get smaller ids, and equally large ones by their sorted members. */
  ghost predicate LargerFirst<N>(communities: seq<(int, seq<N>)>, le: (N, N) -> bool, matched: map<int, int>, final: map<int, int>) {
    forall c, d :: c in communities && d in communities && c.0 in final && d.0 in final ==>
      c.0 !in matched && d.0 !in matched && Precedes(le, c.1, d.1) ==> final[c.0] < final[d.0]
  }

  ghost predicate Precedes<N>(le: (N, N) -> bool, x: seq<N>, y: seq<N>) {
    |x| > |y| || (|x| == |y| && Sort(x, le) != Sort(y, le) && LexLe(le, Sort(x, le), Sort(y, le)))
  }

  /** The greedy matching of the sorted overlaps. */
  method MatchCommunities<N(==)>(communities: seq<(int, seq<N>)>, previous: seq<(N, int)>)
    returns (m: map<int, int>, usedOld: set<int>)
    ensures OneToOne(m) && usedOld == m.Values
    ensures Dominates(Shared(previous, communities), m) && Stable(Shared(previous, communities), m)
    ensures forall n :: n in m ==> Shared(previous, communities)(m[n], n) > 0
  {
    var overlaps := CollectOverlaps(communities, previous);
    var ordered := Sort(overlaps, OverlapLe);
    SortedOverlaps(overlaps, Shared(previous, communities));
    m, usedOld := MatchGreedily(ordered);
    GreedyDominates(ordered, Shared(previous, communities), m);
  }

  method ChooseIds<N(==,!new)>(communities: seq<(int, seq<N>)>, previous: seq<(N, int)>, le: (N, N) -> bool)
    returns (final: map<int, int>, ghost matched: map<int, int>)
    requires Keyed(communities) && TotalOrder(le)
    ensures IsRemapping(Shared(previous, communities), matched, final)
    ensures final.Keys == set n | n in Cids(communities)
    ensures LargerFirst(communities, le, matched, final)
  {
    var m, usedOld := MatchCommunities(communities, previous);
    MatchedAreListed(communities, previous, m);
    var unmatched := CollectUnmatched(communities, m, le);
    final := AssignFresh(unmatched, m, usedOld);
    matched := m;
    KeysTogether(m, final, unmatched, Cids(communities));
    UnmatchedOrder(communities, m, final, unmatched, le);
  }

  lemma KeysTogether(m: map<int, int>, final: map<int, int>, unmatched: seq<int>, cids: seq<int>)
    requires m.Keys <= (set n | n in cids) && (set n | n in unmatched) == (set n | n in cids) - m.Keys
    requires final.Keys == m.Keys + set n | n in unmatched
    ensures final.Keys == set n | n in cids
    ensures forall n :: n in final && n !in m ==> n in unmatched
    ensures forall n :: n in unmatched ==> n in final
  {
  }

  lemma MatchedAreListed<N>(communities: seq<(int, seq<N>)>, previous: seq<(N, int)>, m: map<int, int>)
    requires forall n :: n in m ==> Shared(previous, communities)(m[n], n) > 0
    ensures m.Keys <= set n | n in Cids(communities)
  {
    forall n | n in m
      ensures n in Cids(communities)
    {
      SharedIsListed(communities, previous, m[n], n);
    }
  }

  lemma SortedOverlaps(overlaps: seq<Overlap>, w: Weights)
    requires ListsOverlaps(overlaps, w)
    ensures ListsOverlaps(Sort(overlaps, OverlapLe), w) && Sorted(Sort(overlaps, OverlapLe), OverlapLe)
  {
    OverlapOrder();
    SortSorted(overlaps, OverlapLe);
    forall e
      ensures e in Sort(overlaps, OverlapLe) <==> e in overlaps
    {
      SortMembers(overlaps, OverlapLe, e);
    }
  }

  lemma UnmatchedOrder<N(!new)>(communities: seq<(int, seq<N>)>, m: map<int, int>, final: map<int, int>,
                                unmatched: seq<int>, le: (N, N) -> bool)
    requires TotalOrder(le) && Keyed(communities)
    requires unmatched == Sort(Filter(n => n !in m, Cids(communities)), (a, b) => SizeLe(communities, le, a, b))
    requires forall n :: n in final && n !in m ==> n in unmatched
    requires forall n :: n in unmatched ==> n in final
    requires forall i, j :: 0 <= i < j < |unmatched| ==>
               unmatched[i] in final && unmatched[j] in final && final[unmatched[i]] < final[unmatched[j]]
    ensures LargerFirst(communities, le, m, final)
  {
    SizeOrder(communities, le);
    SortSorted(Filter(n => n !in m, Cids(communities)), (a, b) => SizeLe(communities, le, a, b));
    forall c, d | c in communities && d in communities && c.0 in final && d.0 in final
                  && c.0 !in m && d.0 !in m && Precedes(le, c.1, d.1)
      ensures final[c.0] < final[d.0]
    {
      NodesOfEntry(communities, c);
      NodesOfEntry(communities, d);
      LexTotal(le, Sort(c.1, le), Sort(d.1, le));
      var i, j := IndexOf(unmatched, c.0), IndexOf(unmatched, d.0);
    }
  }

  lemma {:induction false} NodesOfEntry<N>(communities: seq<(int, seq<N>)>, c: (int, seq<N>))
    requires Keyed(communities) && c in communities
    ensures NodesOf(communities, c.0) == c.1
  {
    if communities[0] != c {
      assert c in communities[1..];
      var i := IndexOf(communities[1..], c);
      assert communities[i + 1] == c;
      NodesOfEntry(communities[1..], c);
    }
  }

  function Entries<N(==)>(communities: seq<(int, seq<N>)>, final: map<int, int>, le: (N, N) -> bool): seq<(int, seq<N>)> {
    seq(|communities|, i requires 0 <= i < |communities| => Renamed(communities[i], final, le))
  }

  /** The remapped dictionary: no community is lost or invented, ids ascend strictly. */
  method RemapToPrevious<N(==,!new)>(communities: seq<(int, seq<N>)>, previous: seq<(N, int)>, le: (N, N) -> bool)
    returns (remapped: seq<(int, seq<N>)>, ghost matched: map<int, int>, ghost final: map<int, int>)
    requires Keyed(communities) && TotalOrder(le)
    ensures IsRemapping(Shared(previous, communities), matched, final)
    ensures final.Keys == set n | n in Cids(communities)
    ensures LargerFirst(communities, le, matched, final)
    ensures |remapped| == |communities|
    ensures forall c :: c in communities ==> c.0 in final && (final[c.0], Sort(c.1, le)) in remapped
    ensures forall i, j :: 0 <= i < j < |remapped| ==> remapped[i].0 < remapped[j].0
  {
    var ids;
    ids, matched := ChooseIds(communities, previous, le);
    final := ids;
    var entries := Entries(communities, ids, le);
    remapped := Sort(entries, IdLe);
    SortSorted(entries, IdLe);
    DistinctIds(communities, ids, le);
    SortedDistinctIds(entries, remapped);
    forall c | c in communities
      ensures c.0 in ids && (ids[c.0], Sort(c.1, le)) in remapped
    {
      var i := IndexOf(communities, c);
      assert Cids(communities)[i] == c.0;
      SortMembers(entries, IdLe, entries[i]);
    }
  }

  lemma DistinctIds<N>(communities: seq<(int, seq<N>)>, final: map<int, int>, le: (N, N) -> bool)
    requires Keyed(communities) && OneToOne(final) && final.Keys == set n | n in Cids(communities)
    ensures Distinct(Cids(Entries(communities, final, le)))
  {
    var ids := Cids(Entries(communities, final, le));
    forall i, j | 0 <= i < j < |ids|
      ensures ids[i] != ids[j]
    {
      assert Cids(communities)[i] in final && Cids(communities)[j] in final;
    }
  }

  lemma SortedDistinctIds<N>(a: seq<(int, seq<N>)>, b: seq<(int, seq<N>)>)
    requires multiset(a) == multiset(b) && Distinct(Cids(a)) && Sorted(b, IdLe)
    ensures forall i, j :: 0 <= i < j < |b| ==> b[i].0 < b[j].0
  {
    assert Distinct(a) by {
      forall i, j | 0 <= i < j < |a| ensures a[i] != a[j] { assert Cids(a)[i] != Cids(a)[j]; }
    }
    PermutationDistinct(a, b);
    forall i, j | 0 <= i < j < |b|
      ensures b[i].0 < b[j].0
    {
      assert b[i] in multiset(a) && b[j] in multiset(a);
      var p, q := IndexOf(a, b[i]), IndexOf(a, b[j]);
      assert Cids(a)[p] == b[i].0 && Cids(a)[q] == b[j].0;
      assert IdLe(b[i], b[j]);
    }
  }

  // ---- what the remapping guarantees ----

  /** An unmatched community overlaps no old community whose id was left unmatched. */
  lemma NoOverlapMissed(w: Weights, matched: map<int, int>, final: map<int, int>, n: int, o: int)
    requires IsRemapping(w, matched, final) && n !in matched && o !in matched.Values
    ensures w(o, n) == 0
  {
    forall k | k in matched
      ensures matched[k] != o
    {
      assert matched[k] in matched.Values;
    }
  }

  /** The overlaps a matching accepts. */
  ghost function AcceptedBy(w: Weights, m: map<int, int>): set<Overlap> {
    set n | n in m :: Overlap(w(m[n], n), m[n], n)
  }

  /** Some element of a nonempty set comes before all others. */
  lemma {:induction false} LeastOverlap(s: set<Overlap>) returns (e: Overlap)
    requires s != {}
    ensures e in s && forall d :: d in s ==> OverlapLe(e, d)
  {
    e := Pick(s);
    if s != {e} {
      var rest := LeastOverlap(s - {e});
      var first := if OverlapLe(rest, e) then rest else e;
      forall d | d in s
        ensures OverlapLe(first, d)
      {
        assert d == e || d in s - {e};
      }
      e := first;
    }
  }

  /** A pair that only one of two stable matchings accepts is beaten by a pair that only the other accepts. */
  lemma Outdone(w: Weights, a: map<int, int>, b: map<int, int>, e: Overlap) returns (d: Overlap)
    requires OneToOne(a) && OneToOne(b) && Stable(w, b) && e in AcceptedBy(w, a) - AcceptedBy(w, b) && e.size > 0
    ensures d in AcceptedBy(w, b) - AcceptedBy(w, a) && OverlapLe(d, e) && d != e
  {
    assert e.new_ in b ==> b[e.new_] != e.old_;
    assert Loses(w, b, e.old_, e.new_);
    if n :| n in b && b[n] == e.old_ && (w(e.old_, n) > e.size || (w(e.old_, n) == e.size && n <= e.new_)) {
      d := Overlap(w(b[n], n), b[n], n);
    } else {
      d := Overlap(w(b[e.new_], e.new_), b[e.new_], e.new_);
    }
  }

  /** The overlaps alone decide which communities keep an id, whatever order they are listed in. */
  lemma MatchingIsUnique(w: Weights, a: map<int, int>, b: map<int, int>)
    requires OneToOne(a) && Stable(w, a) && forall n :: n in a ==> w(a[n], n) > 0
    requires OneToOne(b) && Stable(w, b) && forall n :: n in b ==> w(b[n], n) > 0
    ensures a == b
  {
    var x, y := AcceptedBy(w, a), AcceptedBy(w, b);
    if (x - y) + (y - x) != {} {
      var e := LeastOverlap((x - y) + (y - x));
      if e in x {
        var d := Outdone(w, a, b, e);
      } else {
        var d := Outdone(w, b, a, e);
      }
      assert false;
    }
    assert x == y by {
      assert forall e :: e in x ==> e in y || e in (x - y) + (y - x);
      assert forall e :: e in y ==> e in x || e in (x - y) + (y - x);
    }
    SameAccepted(w, a, b);
  }

  lemma SameAccepted(w: Weights, a: map<int, int>, b: map<int, int>)
    requires AcceptedBy(w, a) == AcceptedBy(w, b)
    ensures a == b
  {
    forall n | n in a
      ensures n in b && a[n] == b[n]
    {
      assert Overlap(w(a[n], n), a[n], n) in AcceptedBy(w, b);
    }
    forall n | n in b
      ensures n in a
    {
      assert Overlap(w(b[n], n), b[n], n) in AcceptedBy(w, a);
    }
  }

  /** Fresh ids keep no overlap. */
  lemma FinalKeepsMatched(w: Weights, matched: map<int, int>, final: map<int, int>)
    requires IsRemapping(w, matched, final)
    ensures Total(w, final) == Total(w, matched)
  {
    forall n | n in final.Keys
      ensures Kept(w, matched, n) == Kept(w, final, n)
    {
      if n !in matched { NoOverlapMissed(w, matched, final, n, final[n]); }
    }
    SumAgree(final.Keys, n => Kept(w, matched, n), n => Kept(w, final, n));
    SumBounded(matched.Keys, final.Keys, n => Kept(w, matched, n));
    SumBounded(final.Keys, matched.Keys, n => Kept(w, matched, n));
  }

  /** The overlap kept by the final ids, fresh ones included, is at least half of what any
      one-to-one assignment of new communities to old ids keeps. */
  lemma RemappingIsHalfOptimal(w: Weights, matched: map<int, int>, final: map<int, int>, rival: map<int, int>)
    requires IsRemapping(w, matched, final) && OneToOne(rival)
    ensures Total(w, rival) <= 2 * Total(w, final)
  {
    HalfOfEveryAssignment(w, matched, rival);
    FinalKeepsMatched(w, matched, final);
  }

  /** The largest possible overlap is kept. */
  ghost predicate Optimal(w: Weights, final: map<int, int>) {
    forall rival :: OneToOne(rival) ==> Total(w, rival) <= Total(w, final)
  }

  /** The documented maximum is reached whenever every winning pair outweighs each two pairs that compete for its ends. */
  lemma OptimalWhenWinnersOutweigh(w: Weights, matched: map<int, int>, final: map<int, int>)
    requires IsRemapping(w, matched, final)
    requires forall n :: n in matched ==> Outweighs(w, matched, n)
    ensures Optimal(w, final)
  {
    FinalKeepsMatched(w, matched, final);
    forall rival | OneToOne(rival)
      ensures Total(w, rival) <= Total(w, final)
    {
      OutweighingIsOptimal(w, matched, rival);
    }
  }

  /** No overlap joins the ends of two different winning pairs. */
  ghost predicate Apart(w: Weights, matched: map<int, int>) {
    forall o, n :: w(o, n) > 0 && n in matched && o in matched.Values ==> matched[n] == o
  }

  /** When winners do not compete with each other, the condition is exact. */
  lemma OptimalIff(w: Weights, matched: map<int, int>, final: map<int, int>)
    requires IsRemapping(w, matched, final) && Apart(w, matched)
    ensures Optimal(w, final) <==> forall n :: n in matched ==> Outweighs(w, matched, n)
  {
    if forall n :: n in matched ==> Outweighs(w, matched, n) {
      OptimalWhenWinnersOutweigh(w, matched, final);
    } else {
      var n :| n in matched && !Outweighs(w, matched, n);
      var o', n' :| o' != matched[n] && n' != n && w(o', n) + w(matched[n], n') > w(matched[n], n);
      FinalKeepsMatched(w, matched, final);
      SwapIsBetter(w, matched, n, o', n');
    }
  }

  lemma SwapIsBetter(w: Weights, m: map<int, int>, n: int, o': int, n': int)
    requires OneToOne(m) && Dominates(w, m) && Apart(w, m) && n in m && o' != m[n] && n' != n
    requires w(o', n) + w(m[n], n') > w(m[n], n)
    ensures exists rival :: OneToOne(rival) && Total(w, rival) > Total(w, m)
  {
    LosersAreFree(w, m, n, o', n');
    SwapGains(w, m, n, o', n');
    assert OneToOne(m[n := o'][n' := m[n]]);
  }

  lemma LosersAreFree(w: Weights, m: map<int, int>, n: int, o': int, n': int)
    requires OneToOne(m) && Dominates(w, m) && Apart(w, m) && n in m && o' != m[n] && n' != n
    requires w(o', n) + w(m[n], n') > w(m[n], n)
    ensures o' !in m.Values && n' !in m
  {
    assert m[n] in m.Values;
    KeptByOldOf(w, m, n);
    assert forall k :: k in m ==> m[k] in m.Values;
    assert w(o', n) > 0 ==> o' !in m.Values;
    assert w(m[n], n') > 0 ==> n' !in m;
    assert w(o', n) <= w(m[n], n) && w(m[n], n') <= w(m[n], n);
  }

  /** Two communities that overlap each other and nothing else keep the same id. */
  lemma UndisturbedKeepsId(w: Weights, matched: map<int, int>, final: map<int, int>, o: int, n: int)
    requires IsRemapping(w, matched, final) && w(o, n) > 0
    requires forall o' :: o' != o ==> w(o', n) == 0
    requires forall n' :: n' != n ==> w(o, n') == 0
    ensures n in final && final[n] == o
  {
    assert n in matched ==> w(matched[n], n) > 0;
  }

  // ---- the documented maximum is not always reached ----

  function Run(lo: int, hi: int): (r: seq<int>)
    requires lo <= hi
    ensures forall x :: x in r <==> lo <= x < hi
    decreases hi - lo
  {
    if lo == hi then [] else Run(lo, hi - 1) + [hi - 1]
  }

  ghost function Span(lo: int, hi: int): (s: set<int>)
    requires lo <= hi
    ensures forall x :: x in s <==> lo <= x < hi
    ensures |s| == hi - lo
    decreases hi - lo
  {
    if lo == hi then {} else Span(lo, hi - 1) + {hi - 1}
  }

  /** `k` nodes stay together, `k - 1` leave the old community 0, and `k - 1` join from the old community 1. */
  function Crossed(k: nat): seq<(int, seq<int>)>
    requires k >= 1
  {
    [(0, Run(0, k) + Run(2 * k - 1, 3 * k - 2)), (1, Run(k, 2 * k - 1))]
  }

  function CrossedBefore(k: nat): seq<(int, int)>
    requires k >= 1
  {
    seq(3 * k - 2, i => (i, if i < 2 * k - 1 then 0 else 1))
  }

  lemma CrossedOlds(k: nat, o: int, x: int)
    requires k >= 1
    ensures x in OldSet(CrossedBefore(k), o) <==> 0 <= x < 3 * k - 2 && o == if x < 2 * k - 1 then 0 else 1
  {
    var before := CrossedBefore(k);
    if 0 <= x < 3 * k - 2 { assert before[x] in before && before[x].0 == x; }
    if x in OldSet(before, o) {
      var p :| p in before && p.1 == o && p.0 == x;
      assert before[IndexOf(before, p)] == p;
    }
  }

  lemma CrossedNews(k: nat, n: int, x: int)
    requires k >= 1
    ensures x in NewSet(Crossed(k), n) <==>
            (n == 0 && (0 <= x < k || 2 * k - 1 <= x < 3 * k - 2)) || (n == 1 && k <= x < 2 * k - 1)
  {
    var after := Crossed(k);
    var tail := [(1, Run(k, 2 * k - 1))];
    assert after[1..] == tail && tail[1..] == [];
    assert NewSet(tail, n) == if n == 1 then Span(k, 2 * k - 1) else {};
    assert x in after[0].1 <==> x in Run(0, k) || x in Run(2 * k - 1, 3 * k - 2);
  }

  lemma CrossedOverlap(k: nat, o: int, n: int)
    requires k >= 1
    ensures Shared(CrossedBefore(k), Crossed(k))(o, n) ==
            if o == 0 && n == 0 then k else if (o == 0 && n == 1) || (o == 1 && n == 0) then k - 1 else 0
  {
    var (lo, hi) := CrossedRange(k, o, n);
    forall x
      ensures x in OldSet(CrossedBefore(k), o) * NewSet(Crossed(k), n) <==> lo <= x < hi
    {
      CrossedBoth(k, o, n, x);
    }
    SharedRange(CrossedBefore(k), Crossed(k), o, n, lo, hi);
  }

  lemma SharedRange(previous: seq<(int, int)>, communities: seq<(int, seq<int>)>, o: int, n: int, lo: int, hi: int)
    requires lo <= hi && forall x :: x in OldSet(previous, o) * NewSet(communities, n) <==> lo <= x < hi
    ensures Shared(previous, communities)(o, n) == hi - lo
  {
    assert OldSet(previous, o) * NewSet(communities, n) == Span(lo, hi);
  }

  /** The nodes that old community `o` and new community `n` share, as a range. */
  ghost function CrossedRange(k: nat, o: int, n: int): (r: (int, int))
    requires k >= 1
    ensures r.0 <= r.1
  {
    if o == 0 && n == 0 then (0, k)
    else if o == 0 && n == 1 then (k, 2 * k - 1)
    else if o == 1 && n == 0 then (2 * k - 1, 3 * k - 2)
    else (0, 0)
  }

  lemma CrossedBoth(k: nat, o: int, n: int, x: int)
    requires k >= 1
    ensures x in OldSet(CrossedBefore(k), o) * NewSet(Crossed(k), n) <==>
            CrossedRange(k, o, n).0 <= x < CrossedRange(k, o, n).1
  {
    CrossedOlds(k, o, x);
    CrossedNews(k, n, x);
  }

  /** The overlaps of those communities. */
  ghost predicate Crosses(w: Weights, k: nat) {
    forall o, n :: w(o, n) == if o == 0 && n == 0 then k else if (o == 0 && n == 1) || (o == 1 && n == 0) then k - 1 else 0
  }

  lemma CrossedCrosses(k: nat)
    requires k >= 1
    ensures Crosses(Shared(CrossedBefore(k), Crossed(k)), k)
  {
    forall o, n
      ensures Shared(CrossedBefore(k), Crossed(k))(o, n) ==
              if o == 0 && n == 0 then k else if (o == 0 && n == 1) || (o == 1 && n == 0) then k - 1 else 0
    {
      CrossedOverlap(k, o, n);
    }
  }

  /** Greedy matching need not keep the largest total overlap, and no bound better than half holds: on these communities
      every remapping keeps `k` where exchanging the two ids keeps `2 * (k - 1)`. */
  lemma GreedyIsNotOptimal(k: nat, matched: map<int, int>, final: map<int, int>)
    requires k >= 3 && IsRemapping(Shared(CrossedBefore(k), Crossed(k)), matched, final)
    ensures var w := Shared(CrossedBefore(k), Crossed(k));
            && Keyed(Crossed(k)) && matched == map[0 := 0] && Total(w, final) == k
            && OneToOne(map[0 := 1, 1 := 0]) && Total(w, map[0 := 1, 1 := 0]) == 2 * (k - 1) > k
            && !Optimal(w, final)
  {
    CrossedCrosses(k);
    CrossesLose(Shared(CrossedBefore(k), Crossed(k)), k, matched, final);
  }

  lemma CrossesLose(w: Weights, k: nat, matched: map<int, int>, final: map<int, int>)
    requires k >= 3 && Crosses(w, k) && IsRemapping(w, matched, final)
    ensures matched == map[0 := 0] && Total(w, final) == k
    ensures OneToOne(map[0 := 1, 1 := 0]) && Total(w, map[0 := 1, 1 := 0]) == 2 * (k - 1) > k
    ensures !Optimal(w, final)
  {
    CrossesKeeps(w, k, matched);
    FinalKeepsMatched(w, matched, final);
    assert OneToOne(map[0 := 1, 1 := 0]);
  }

  lemma CrossesKeeps(w: Weights, k: nat, m: map<int, int>)
    requires k >= 3 && Crosses(w, k)
    requires OneToOne(m) && Dominates(w, m) && forall n :: n in m ==> w(m[n], n) > 0
    ensures m == map[0 := 0] && Total(w, m) == k
    ensures OneToOne(map[0 := 1, 1 := 0]) && Total(w, map[0 := 1, 1 := 0]) == 2 * (k - 1)
  {
    assert w(0, 0) == k && w(0, 1) == w(1, 0) == k - 1;
    if 0 in m.Values {
      var n := KeyOf(m, 0);
      KeptByOldOf(w, m, n);
    }
    assert w(0, 0) <= Kept(w, m, 0) || w(0, 0) <= KeptByOld(w, m, 0);
    assert 0 in m && m[0] == 0;
    assert forall n :: n in m ==> w(m[n], n) > 0 && (n == 0 || n == 1);
    var swap := map[0 := 1, 1 := 0];
    assert swap.Keys == {0, 1} && {0, 1} - {0} == {1} && {1} - {1} == {};
    SumRemove({0, 1}, n => Kept(w, swap, n), 0);
    SumRemove({1}, n => Kept(w, swap, n), 1);
    assert m.Keys == {0} && {0} - {0} == {};
    SumRemove({0}, n => Kept(w, m, n), 0);
  }
}
