/** Small shared vocabulary: optional values, results, characters, look-up and filtering. */
module Common {

  datatype Option<+T> = None | Some(value: T) {
    function GetOr(default: T): T {
      if Some? then value else default
    }
  }

  datatype Result<+T, +E> = Ok(value: T) | Err(error: E)

  function Max(a: nat, b: nat): nat { if a < b then b else a }

  function Lookup<K(==), V>(m: map<K, V>, k: K): Option<V> {
    if k in m then Some(m[k]) else None
  }

  // ---- characters and strings ----

  predicate IsDigit(c: char) { '0' <= c <= '9' }

  /** The characters at which Python splits lines. */
  predicate IsBreak(c: char) {
    '\n' <= c <= '\r' || '\U{1c}' <= c <= '\U{1e}' || c == '\U{85}' || '\U{2028}' <= c <= '\U{2029}'
  }

  /** White space as Python's strings and patterns have it. */
  predicate IsSpace(c: char) {
    || IsBreak(c) || c == ' ' || c == '\t' || c == '\U{1f}' || c == '\U{a0}' || c == '\U{1680}'
    || '\U{2000}' <= c <= '\U{200a}' || c == '\U{202f}' || c == '\U{205f}' || c == '\U{3000}'
  }

  predicate Contains(s: string, w: string) {
    w <= s || (s != "" && Contains(s[1..], w))
  }

  /** A contained text occurs at some position. */
  lemma {:induction false} ContainsIff(s: string, w: string)
    ensures Contains(s, w) <==> exists k :: 0 <= k <= |s| && w <= s[k..]
  {
    if w <= s {
      assert w <= s[0..];
    } else if s != "" {
      ContainsIff(s[1..], w);
      forall k | 0 <= k < |s|
        ensures s[1..][k..] == s[k + 1..]
      {
      }
      if k :| 0 <= k <= |s[1..]| && w <= s[1..][k..] { assert w <= s[k + 1..]; }
      if k :| 0 <= k <= |s| && w <= s[k..] {
        assert s[0..] == s;
        assert w <= s[1..][k - 1..];
      }
    }
  }

  // ---- sequences and choice ----

  function Filter<T>(keep: T -> bool, s: seq<T>): (kept: seq<T>)
  {
    if s == [] then []
    else
      var front, last := Filter(keep, s[..|s| - 1]), s[|s| - 1];
      if keep(last) then front + [last] else front
  }

  lemma FilterMembers<T>(keep: T -> bool, s: seq<T>, x: T)
    ensures x in Filter(keep, s) <==> x in s && keep(x)
  {
    if s != [] {
      FilterMembers(keep, s[..|s| - 1], x);
      assert s == s[..|s| - 1] + [s[|s| - 1]];
    }
  }

  lemma FilterStep<T>(keep: T -> bool, s: seq<T>, i: nat)
    requires i < |s|
    ensures Filter(keep, s[..i + 1]) == Filter(keep, s[..i]) + if keep(s[i]) then [s[i]] else []
  {
    assert s[..i + 1][..i] == s[..i];
  }

  predicate PairLess(a: (int, int), b: (int, int)) {
    a.0 < b.0 || (a.0 == b.0 && a.1 < b.1)
  }

  /** The first element of least cost. */
  function Cheapest<T>(s: seq<T>, cost: T -> (int, int)): (best: T)
    requires s != []
    ensures best in s
    ensures forall i :: 0 <= i < |s| ==> !PairLess(cost(s[i]), cost(best))
    ensures exists k :: 0 <= k < |s| && s[k] == best && forall i :: 0 <= i < k ==> PairLess(cost(best), cost(s[i]))
  {
    var n := |s| - 1;
    if n == 0 then assert s[0] == s[n]; s[0]
    else
      var front := s[..n];
      var best := Cheapest(front, cost);
      assert forall i :: 0 <= i < n ==> front[i] == s[i];
      if PairLess(cost(s[n]), cost(best)) then s[n] else best
  }

  /** Some element of a nonempty set. */
  ghost function Pick<T>(s: set<T>): (x: T)
    requires s != {}
    ensures x in s
  {
    var x :| x in s; x
  }

  /** Some key that a map sends to a given value. */
  ghost function KeyOf<K, V>(m: map<K, V>, v: V): (k: K)
    requires v in m.Values
    ensures k in m && m[k] == v
  {
    var k :| k in m && m[k] == v; k
  }

  /** Some position of an element. */
  ghost function IndexOf<T>(s: seq<T>, x: T): (i: nat)
    requires x in s
    ensures i < |s| && s[i] == x
  {
    var i :| 0 <= i < |s| && s[i] == x; i
  }

  ghost predicate Distinct<T>(s: seq<T>) {
    forall i, j :: 0 <= i < j < |s| ==> s[i] != s[j]
  }

  lemma {:induction false} FilterDistinct<T>(keep: T -> bool, s: seq<T>)
    requires Distinct(s)
    ensures Distinct(Filter(keep, s))
  {
    if s != [] {
      FilterDistinct(keep, s[..|s| - 1]);
      FilterMembers(keep, s[..|s| - 1], s[|s| - 1]);
    }
  }

  lemma {:induction false} DistinctCounts<T>(s: seq<T>)
    ensures Distinct(s) <==> forall x :: x in s ==> multiset(s)[x] == 1
  {
    if s != [] {
      var front, last := s[..|s| - 1], s[|s| - 1];
      DistinctCounts(front);
      assert s == front + [last];
      assert multiset(s) == multiset(front) + multiset{last};
      if last in front {
        var i := IndexOf(front, last);
        assert s[i] == s[|s| - 1] && multiset(s)[last] >= 2;
      } else if Distinct(front) {
        assert forall x :: x in front ==> multiset(s)[x] == multiset(front)[x];
      } else {
        var x :| x in front && multiset(front)[x] != 1;
        assert x in s && multiset(s)[x] != 1;
        assert !Distinct(s) by {
          var i, j :| 0 <= i < j < |front| && front[i] == front[j];
          assert s[i] == s[j];
        }
      }
    }
  }

  lemma PermutationDistinct<T>(a: seq<T>, b: seq<T>)
    requires Distinct(a) && multiset(a) == multiset(b)
    ensures Distinct(b)
  {
    DistinctCounts(a);
    DistinctCounts(b);
    forall x | x in b
      ensures multiset(b)[x] == 1
    {
      assert x in multiset(a);
    }
  }
}
