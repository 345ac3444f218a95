/** The reflexive-symmetric-transitive closure of a finite set of links, as undirected walks. */
module Closure {

  type Links<K(==)> = set<(K, K)>

  ghost predicate Linked<K(!new)>(links: Links<K>, a: K, b: K) {
    (a, b) in links || (b, a) in links
  }

  ghost predicate Hop<K(!new)>(links: Links<K>, walk: seq<K>, i: int) {
    0 < i < |walk| && Linked(links, walk[i - 1], walk[i])
  }

  ghost predicate IsWalk<K(!new)>(links: Links<K>, walk: seq<K>) {
    |walk| > 0 && forall i {:trigger Hop(links, walk, i)} :: 0 < i < |walk| ==> Hop(links, walk, i)
  }

  ghost predicate WalkJoins<K(!new)>(links: Links<K>, walk: seq<K>, a: K, b: K) {
    IsWalk(links, walk) && walk[0] == a && walk[|walk| - 1] == b
  }

  ghost predicate Connected<K(!new)>(links: Links<K>, a: K, b: K) {
    exists walk :: WalkJoins(links, walk, a, b)
  }

  lemma Reflexive<K(!new)>(links: Links<K>, a: K)
    ensures Connected(links, a, a)
  {
    assert WalkJoins(links, [a], a, a);
  }

  lemma OneLink<K(!new)>(links: Links<K>, a: K, b: K)
    requires Linked(links, a, b)
    ensures Connected(links, a, b) && Connected(links, b, a)
  {
    assert WalkJoins(links, [a, b], a, b);
    assert WalkJoins(links, [b, a], b, a);
  }

  lemma Transitive<K(!new)>(links: Links<K>, a: K, b: K, c: K)
    requires Connected(links, a, b) && Connected(links, b, c)
    ensures Connected(links, a, c)
  {
    var p :| WalkJoins(links, p, a, b);
    var q :| WalkJoins(links, q, b, c);
    var walk := p + q[1..];
    forall i | 0 < i < |walk|
      ensures Hop(links, walk, i)
    {
      if i >= |p| {
        assert Hop(links, q, i - |p| + 1);
        assert walk[i - 1] == q[i - |p|];
      } else {
        assert Hop(links, p, i);
      }
    }
    assert WalkJoins(links, walk, a, c);
  }

  lemma Symmetric<K(!new)>(links: Links<K>, a: K, b: K)
    requires Connected(links, a, b)
    ensures Connected(links, b, a)
  {
    var p :| WalkJoins(links, p, a, b);
    var walk := seq(|p|, i requires 0 <= i < |p| => p[|p| - 1 - i]);
    forall i | 0 < i < |walk|
      ensures Hop(links, walk, i)
    {
      assert Hop(links, p, |p| - i);
    }
    assert WalkJoins(links, walk, b, a);
  }

  lemma Prefix<K(!new)>(links: Links<K>, walk: seq<K>)
    requires IsWalk(links, walk) && |walk| > 1
    ensures IsWalk(links, walk[..|walk| - 1])
  {
    var front := walk[..|walk| - 1];
    forall i | 0 < i < |front|
      ensures Hop(links, front, i)
    {
      assert Hop(links, walk, i);
    }
  }

  /** If every link of one set joins connected points of another, so does every walk. */
  lemma {:induction false} Absorb<K(!new)>(small: Links<K>, big: Links<K>, walk: seq<K>)
    requires forall link :: link in small ==> Connected(big, link.0, link.1)
    requires IsWalk(small, walk)
    ensures Connected(big, walk[0], walk[|walk| - 1])
  {
    if |walk| == 1 {
      Reflexive(big, walk[0]);
    } else {
      var n := |walk|;
      Prefix(small, walk);
      Absorb(small, big, walk[..n - 1]);
      assert Hop(small, walk, n - 1);
      if (walk[n - 2], walk[n - 1]) !in small {
        Symmetric(big, walk[n - 1], walk[n - 2]);
      }
      Transitive(big, walk[0], walk[n - 2], walk[n - 1]);
    }
  }

  lemma AbsorbConnected<K(!new)>(small: Links<K>, big: Links<K>, a: K, b: K)
    requires forall link :: link in small ==> Connected(big, link.0, link.1)
    requires Connected(small, a, b)
    ensures Connected(big, a, b)
  {
    var walk :| WalkJoins(small, walk, a, b);
    Absorb(small, big, walk);
  }

  lemma Monotone<K(!new)>(small: Links<K>, big: Links<K>, a: K, b: K)
    requires small <= big && Connected(small, a, b)
    ensures Connected(big, a, b)
  {
    forall link | link in small
      ensures Connected(big, link.0, link.1)
    {
      OneLink(big, link.0, link.1);
    }
    AbsorbConnected(small, big, a, b);
  }

  /** A labelling that agrees along every link is constant on every closure class. */
  lemma {:induction false} LabelConstant<K(!new)>(links: Links<K>, tag: map<K, K>, walk: seq<K>)
    requires forall link :: link in links ==>
               link.0 in tag && link.1 in tag && tag[link.0] == tag[link.1]
    requires IsWalk(links, walk) && walk[0] in tag
    ensures walk[|walk| - 1] in tag && tag[walk[0]] == tag[walk[|walk| - 1]]
  {
    if |walk| > 1 {
      var n := |walk|;
      Prefix(links, walk);
      LabelConstant(links, tag, walk[..n - 1]);
      assert Hop(links, walk, n - 1);
    }
  }

  /** Every link of `small` joins ids that `big` connects. */
  ghost predicate Within<K(!new)>(small: Links<K>, big: Links<K>) {
    forall link {:trigger link in small} :: link in small ==> Connected(big, link.0, link.1)
  }

  lemma WithinGrows<K(!new)>(small: Links<K>, big: Links<K>, bigger: Links<K>)
    requires Within(small, big) && big <= bigger
    ensures Within(small, bigger)
  {
    forall link | link in small
      ensures Connected(bigger, link.0, link.1)
    {
      Monotone(big, bigger, link.0, link.1);
    }
  }

  lemma SameClosure<K(!new)>(e: Links<K>, f: Links<K>, a: K, b: K)
    requires Within(e, f) && Within(f, e)
    ensures Connected(e, a, b) <==> Connected(f, a, b)
  {
    if Connected(e, a, b) { AbsorbConnected(e, f, a, b); }
    if Connected(f, a, b) { AbsorbConnected(f, e, a, b); }
  }

  lemma PairLinked<K(!new)>(links: Links<K>, allowed: Links<K>, w: K, a: K, b: K)
    requires (w == a || w == b) && (w, a) in links && (w, b) in links
    requires Connected(allowed, a, b)
    ensures Connected(links, a, b)
    ensures Connected(allowed, w, a) && Connected(allowed, w, b)
  {
    OneLink(links, w, a);
    OneLink(links, w, b);
    Reflexive(allowed, w);
    Symmetric(allowed, a, b);
  }

  lemma WithinStep<K(!new)>(done: Links<K>, part: Links<K>, before: Links<K>, after: Links<K>)
    requires Within(done, before) && before <= after && Within(part, after)
    ensures Within(done + part, after)
  {
    WithinGrows(done, before, after);
  }

  ghost predicate EndsIn<K(!new)>(links: Links<K>, s: set<K>) {
    forall link {:trigger link in links} :: link in links ==> link.0 in s && link.1 in s
  }

  /** A point that is connected to another one is the end of some link. */
  lemma ConnectedEndsIn<K(!new)>(links: Links<K>, s: set<K>, a: K, b: K)
    requires EndsIn(links, s) && Connected(links, a, b) && a != b
    ensures a in s && b in s
  {
    var walk :| WalkJoins(links, walk, a, b);
    assert Hop(links, walk, 1) && Hop(links, walk, |walk| - 1);
  }

  /** Links between points of `s`, none of which joins what `allowed` keeps apart. */
  ghost predicate Lawful<K(!new)>(links: Links<K>, s: set<K>, allowed: Links<K>) {
    EndsIn(links, s) && Within(links, allowed)
  }

  lemma LawfulPlus<K(!new)>(links: Links<K>, s: set<K>, allowed: Links<K>, a: K, b: K)
    requires Lawful(links, s, allowed) && a in s && b in s && Connected(allowed, a, b)
    ensures Lawful(links + {(a, b)}, s, allowed)
  {
  }
}
