/** Carrying community ids over from a previous clustering by greedy overlap matching. */
module Matching {
  import opened Common
  import opened Sorting

  type Weights = (int, int) -> nat          // (old id, new id) -> overlap

  // ---- sums over finite sets ----

  ghost function Sum(s: set<int>, f: int -> nat): nat {
    if s == {} then 0 else f(Pick(s)) + Sum(s - {Pick(s)}, f)
  }

  lemma {:induction false} SumRemove(s: set<int>, f: int -> nat, x: int)
    requires x in s
    ensures Sum(s, f) == f(x) + Sum(s - {x}, f)
  {
    var y := Pick(s);
    if y != x {
      SumRemove(s - {y}, f, x);
      SumRemove(s - {x}, f, y);
      assert s - {x} - {y} == s - {y} - {x};
    }
  }

  /** A function that vanishes outside `u` sums to no more over `s` than over `u`. */
  lemma {:induction false} SumBounded(s: set<int>, u: set<int>, f: int -> nat)
    requires forall x :: x in s && x !in u ==> f(x) == 0
    ensures Sum(s, f) <= Sum(u, f)
  {
    if s != {} {
      var x := Pick(s);
      SumRemove(s, f, x);
      if x in u {
        SumRemove(u, f, x);
        SumBounded(s - {x}, u - {x}, f);
      } else {
        SumBounded(s - {x}, u, f);
      }
    }
  }

  // ---- assignments of new communities to old ids ----

  /** A one-to-one assignment, from new ids to old ids. */
  ghost predicate OneToOne(m: map<int, int>) {
    forall a, b {:trigger m[a], m[b]} :: a in m && b in m && m[a] == m[b] ==> a == b
  }

  ghost function Kept(w: Weights, m: map<int, int>, n: int): nat {
    if n in m then w(m[n], n) else 0
  }

  /** The overlap an assignment keeps. */
  ghost function Total(w: Weights, m: map<int, int>): nat {
    Sum(m.Keys, n => Kept(w, m, n))
  }

  /** Every pair loses to a matched pair that shares one of its ends. */
  ghost predicate Dominates(w: Weights, m: map<int, int>) {
    forall o, n :: w(o, n) > 0 ==> w(o, n) <= Kept(w, m, n) || w(o, n) <= KeptByOld(w, m, o)
  }

  ghost function KeptByOld(w: Weights, m: map<int, int>, o: int): nat {
    if exists n :: n in m && m[n] == o then var n :| n in m && m[n] == o; w(o, n) else 0
  }

  lemma KeptByOldOf(w: Weights, m: map<int, int>, n: int)
    requires OneToOne(m) && n in m
    ensures KeptByOld(w, m, m[n]) == w(m[n], n)
  {
  }

  lemma ValuesWithout(m: map<int, int>, n: int)
    requires OneToOne(m) && n in m
    ensures (m - {n}).Values == m.Values - {m[n]}
  {
    var rest := m - {n};
    forall o | o in m.Values - {m[n]}
      ensures o in rest.Values
    {
      var k := KeyOf(m, o);
      assert k in rest && rest[k] == o;
    }
    forall o | o in rest.Values
      ensures o in m.Values - {m[n]}
    {
      var k := KeyOf(rest, o);
      assert k in m && m[k] == o;
    }
  }

  /** Charging: a rival's overlap is covered by what `m` keeps at the new and at the old ends. */
  lemma {:induction false} Charge(w: Weights, m: map<int, int>, rival: map<int, int>)
    requires OneToOne(rival) && Dominates(w, m)
    ensures Total(w, rival) <= Sum(rival.Keys, n => Kept(w, m, n)) + Sum(rival.Values, o => KeptByOld(w, m, o))
    decreases |rival|
  {
    if rival.Keys != {} {
      var n := Pick(rival.Keys);
      var o, rest := rival[n], rival - {n};
      assert rest.Keys == rival.Keys - {n};
      ValuesWithout(rival, n);
      assert |rest.Keys| < |rival.Keys|;
      Charge(w, m, rest);
      SumRemove(rival.Keys, x => Kept(w, rival, x), n);
      SumRemove(rival.Keys, x => Kept(w, m, x), n);
      SumRemove(rival.Values, x => KeptByOld(w, m, x), o);
      SumAgree(rest.Keys, x => Kept(w, rival, x), x => Kept(w, rest, x));
    }
  }

  lemma {:induction false} SumAgree(s: set<int>, f: int -> nat, g: int -> nat)
    requires forall x :: x in s ==> f(x) == g(x)
    ensures Sum(s, f) == Sum(s, g)
  {
    if s != {} {
      var x := Pick(s);
      SumRemove(s, f, x);
      SumRemove(s, g, x);
      SumAgree(s - {x}, f, g);
    }
  }

  /** Summing what is kept by old id instead of by new id gives the same total. */
  lemma {:induction false} TotalByOld(w: Weights, m: map<int, int>, part: map<int, int>)
    requires OneToOne(m) && part.Keys <= m.Keys && forall n :: n in part ==> part[n] == m[n]
    ensures Sum(part.Values, o => KeptByOld(w, m, o)) == Sum(part.Keys, n => Kept(w, m, n))
    decreases |part|
  {
    if part.Keys != {} {
      var n := Pick(part.Keys);
      var rest := part - {n};
      assert rest.Keys == part.Keys - {n};
      ValuesWithout(part, n);
      assert |rest.Keys| < |part.Keys|;
      TotalByOld(w, m, rest);
      KeptByOldOf(w, m, n);
      SumRemove(part.Keys, x => Kept(w, m, x), n);
      SumRemove(part.Values, x => KeptByOld(w, m, x), part[n]);
    }
  }

  /** A dominating assignment keeps at least half the overlap of every one-to-one assignment. */
  lemma HalfOfEveryAssignment(w: Weights, m: map<int, int>, rival: map<int, int>)
    requires OneToOne(m) && Dominates(w, m) && OneToOne(rival)
    ensures Total(w, rival) <= 2 * Total(w, m)
  {
    Charge(w, m, rival);
    SumBounded(rival.Keys, m.Keys, n => Kept(w, m, n));
    SumBounded(rival.Values, m.Values, o => KeptByOld(w, m, o));
    TotalByOld(w, m, m);
  }

  // ---- when nothing better exists ----

  lemma {:induction false} SumSplit(s: set<int>, u: set<int>, f: int -> nat)
    ensures Sum(s, f) == Sum(s * u, f) + Sum(s - u, f)
  {
    if s != {} {
      var x := Pick(s);
      SumSplit(s - {x}, u, f);
      SumRemove(s, f, x);
      if x in u {
        SumRemove(s * u, f, x);
        assert (s - {x}) * u == s * u - {x} && (s - {x}) - u == s - u;
      } else {
        SumRemove(s - u, f, x);
        assert (s - {x}) * u == s * u && (s - {x}) - u == (s - u) - {x};
      }
    }
  }

  lemma {:induction false} SumPlus(s: set<int>, f: int -> nat, g: int -> nat, bound: int -> nat)
    requires forall x :: x in s ==> f(x) + g(x) <= bound(x)
    ensures Sum(s, f) + Sum(s, g) <= Sum(s, bound)
  {
    if s != {} {
      var x := Pick(s);
      SumRemove(s, f, x);
      SumRemove(s, g, x);
      SumRemove(s, bound, x);
      SumPlus(s - {x}, f, g, bound);
    }
  }

  /** Summing over the values of a one-to-one map is summing over its keys. */
  lemma {:induction false} SumOverValues(m: map<int, int>, f: int -> nat, g: int -> nat)
    requires OneToOne(m) && forall n :: n in m ==> g(n) == f(m[n])
    ensures Sum(m.Values, f) == Sum(m.Keys, g)
    decreases |m|
  {
    if m.Keys != {} {
      var n := Pick(m.Keys);
      var rest := m - {n};
      assert rest.Keys == m.Keys - {n};
      ValuesWithout(m, n);
      assert |rest.Keys| < |m.Keys|;
      SumOverValues(rest, f, g);
      assert m[n] in m.Values;
      SumRemove(m.Keys, g, n);
      SumRemove(m.Values, f, m[n]);
    }
  }

  /** A matched pair keeps at least what two other pairs, one at each of its ends, would keep together. */
  ghost predicate Outweighs(w: Weights, m: map<int, int>, n: int) {
    n in m ==> forall o', n' :: o' != m[n] && n' != n ==> w(o', n) + w(m[n], n') <= w(m[n], n)
  }

  /** An assignment that leaves no overlap untouched, all of whose pairs outweigh what competes with them, keeps the
      largest possible total. */
  lemma OutweighingIsOptimal(w: Weights, m: map<int, int>, rival: map<int, int>)
    requires OneToOne(m) && Dominates(w, m) && OneToOne(rival)
    requires forall n :: n in m ==> Outweighs(w, m, n)
    ensures Total(w, rival) <= Total(w, m)
  {
    var kept: int -> nat := n => Kept(w, rival, n);
    var rest := map n | n in rival && n !in m :: rival[n];
    assert rest.Keys == rival.Keys - m.Keys;
    SumSplit(rival.Keys, m.Keys, kept);
    SumBounded(rival.Keys * m.Keys, m.Keys, kept);
    SumAgree(rest.Keys, kept, n => Kept(w, rest, n));
    TotalByOld(w, rest, rest);
    var byOld: int -> nat := o => KeptByOld(w, rest, o);
    forall o | o in rest.Values && o !in m.Values
      ensures byOld(o) == 0
    {
      UntouchedIsNothing(w, m, rest, o);
    }
    SumBounded(rest.Values, m.Values, byOld);
    SumOverValues(m, byOld, n => KeptByOld(w, rest, if n in m then m[n] else 0));
    forall n | n in m
      ensures kept(n) + KeptByOld(w, rest, m[n]) <= Kept(w, m, n)
    {
      LoadFits(w, m, rival, rest, n);
    }
    SumPlus(m.Keys, kept, n => KeptByOld(w, rest, if n in m then m[n] else 0), n => Kept(w, m, n));
  }

  lemma UntouchedIsNothing(w: Weights, m: map<int, int>, rest: map<int, int>, o: int)
    requires Dominates(w, m) && OneToOne(rest) && (forall n :: n in rest ==> n !in m)
    requires o in rest.Values && o !in m.Values
    ensures KeptByOld(w, rest, o) == 0
  {
    var n := KeyOf(rest, o);
    KeptByOldOf(w, rest, n);
    assert forall k :: k in m ==> m[k] in m.Values;
  }

  /** What a rival keeps at the two ends of a matched pair. */
  lemma LoadFits(w: Weights, m: map<int, int>, rival: map<int, int>, rest: map<int, int>, n: int)
    requires OneToOne(rival) && n in m && Outweighs(w, m, n)
    requires forall k :: k in rest <==> k in rival && k !in m
    requires forall k :: k in rest ==> rest[k] == rival[k]
    ensures Kept(w, rival, n) + KeptByOld(w, rest, m[n]) <= w(m[n], n)
  {
    assert w(m[n] + 1, n) + w(m[n], n + 1) <= w(m[n], n);
    if k :| k in rest && rest[k] == m[n] {
      KeptByOldOf(w, rest, k);
      assert w(m[n] + 1, n) + w(m[n], k) <= w(m[n], n);
    }
    if n in rival && rival[n] != m[n] {
      assert w(rival[n], n) + w(m[n], n + 1) <= w(m[n], n);
    }
  }

  /** Exchanging a matched pair for two pairs with unmatched partners. */
  lemma SwapGains(w: Weights, m: map<int, int>, n: int, o': int, n': int)
    requires OneToOne(m) && n in m && o' !in m.Values && n' !in m
    ensures var swapped := m[n := o'][n' := m[n]];
            OneToOne(swapped) && Total(w, swapped) == Total(w, m) - w(m[n], n) + w(o', n) + w(m[n], n')
  {
    var swapped := m[n := o'][n' := m[n]];
    forall a, b {:trigger swapped[a], swapped[b]} | a in swapped && b in swapped && swapped[a] == swapped[b]
      ensures a == b
    {
      assert a in m ==> m[a] in m.Values;
      assert b in m ==> m[b] in m.Values;
    }
    var old_: int -> nat, new_: int -> nat := x => Kept(w, m, x), x => Kept(w, swapped, x);
    SumRemove(m.Keys, old_, n);
    assert swapped.Keys - {n'} - {n} == m.Keys - {n};
    SumRemove(swapped.Keys, new_, n');
    SumRemove(swapped.Keys - {n'}, new_, n);
    SumAgree(m.Keys - {n}, old_, new_);
  }
}
