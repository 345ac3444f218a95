/** MinHash sketches and the banded index over them. */
module Lsh {
  import opened Common

  const MERSENNE: nat := 0x1FFF_FFFF_FFFF_FFFF   // 2^61 - 1
  const MASK: nat := 0xFFFF_FFFF
  const WORD: nat := 0x1_0000_0000_0000_0000     // products and sums wrap at 64 bits

  datatype Coefficients = Coefficients(a: nat, b: nat) {
    /** The permuted 32-bit value of one shingle hash, in 64-bit wrap-around arithmetic. */
    function Permuted(h: nat): (p: nat)
      ensures p <= MASK
    {
      ((a * h + b) % WORD) % MERSENNE % (MASK + 1)
    }
  }

  /** The permuted value, step by step: the product and sum wrap at 64 bits, then the Mersenne prime is taken out, then the
      low 32 bits are kept. */
  lemma PermutedSteps(c: Coefficients, h: nat)
    returns (wraps: nat, sum: nat, primes: nat, mod: nat, highs: nat)
    ensures c.a * h + c.b == wraps * 0x1_0000_0000_0000_0000 + sum && sum < 0x1_0000_0000_0000_0000
    ensures sum == primes * 0x1FFF_FFFF_FFFF_FFFF + mod && mod < 0x1FFF_FFFF_FFFF_FFFF
    ensures mod == highs * 0x1_0000_0000 + c.Permuted(h) && c.Permuted(h) < 0x1_0000_0000
  {
    var x := c.a * h + c.b;
    assert x >= 0;
    wraps, sum := x / WORD, x % WORD;
    primes, mod := sum / MERSENNE, sum % MERSENNE;
    highs := mod / (MASK + 1);
  }

  /** `values` is the pointwise minimum over the permuted hashes of a set of shingles. */
  ghost predicate IsSketch(family: seq<Coefficients>, shingles: set<nat>, values: seq<nat>) {
    && |values| == |family|
    && (forall i, h :: 0 <= i < |family| && h in shingles ==> values[i] <= family[i].Permuted(h))
    && (forall i {:trigger values[i]} :: 0 <= i < |family| ==>
          values[i] == MASK || exists h :: h in shingles && values[i] == family[i].Permuted(h))
    && (forall i :: 0 <= i < |family| ==> values[i] <= MASK)
  }

  /** The set of shingles determines the sketch: neither order nor repetition of updates matters. */
  lemma SketchDependsOnSet(family: seq<Coefficients>, shingles: set<nat>, u: seq<nat>, v: seq<nat>)
    requires IsSketch(family, shingles, u) && IsSketch(family, shingles, v)
    ensures u == v
  {
    forall i | 0 <= i < |family|
      ensures u[i] == v[i]
    {
      if u[i] != MASK {
        var h :| h in shingles && u[i] == family[i].Permuted(h);
      }
      if v[i] != MASK {
        var h :| h in shingles && v[i] == family[i].Permuted(h);
      }
    }
  }

  class MinHash {
    const family: seq<Coefficients>
    var hashvalues: seq<nat>
    ghost var shingles: set<nat>

    ghost predicate Valid()
      reads this
    {
      IsSketch(family, shingles, hashvalues)
    }

    constructor (family: seq<Coefficients>)
      ensures Valid() && shingles == {} && this.family == family
    {
      this.family := family;
      hashvalues := seq(|family|, _ => MASK);
      shingles := {};
    }

    /** Fold in one shingle, given by the first four digest bytes read as a number. */
    method Update(h: nat)
      requires Valid()
      modifies this
      ensures Valid() && shingles == old(shingles) + {h}
    {
      var before := hashvalues;
      hashvalues := seq(|family|, i requires 0 <= i < |family| && |before| == |family| =>
        var p := family[i].Permuted(h); if p < before[i] then p else before[i]);
      shingles := shingles + {h};
      forall i | 0 <= i < |family|
        ensures hashvalues[i] == MASK || exists g :: g in shingles && hashvalues[i] == family[i].Permuted(g)
      {
        if hashvalues[i] == family[i].Permuted(h) {
          assert h in shingles;
        } else if before[i] != MASK {
          var g :| g in old(shingles) && before[i] == family[i].Permuted(g);
          assert g in shingles;
        }
      }
    }
  }

  // ---- bands ----

  lemma BandFits(i: nat, b: nat, r: nat, n: nat)
    requires i < b && b * r <= n
    ensures 0 <= i * r <= i * r + r <= n
  {
    assert (i + 1) * r <= b * r;
  }

  /** Band `i` of a sketch: positions `i * r` up to `(i + 1) * r`. */
  function Band(v: seq<nat>, b: nat, r: nat, i: nat): (band: seq<nat>)
    requires i < b && b * r <= |v|
    ensures |band| == r
  {
    BandFits(i, b, r, |v|);
    v[i * r..i * r + r]
  }

  ghost predicate SharesBand(u: seq<nat>, v: seq<nat>, b: nat, r: nat)
    requires b * r <= |u| == |v|
  {
    exists i: nat :: i < b && Band(u, b, r, i) == Band(v, b, r, i)
  }

  /** The positions below `m` where two sketches differ. */
  ghost function Differences(u: seq<nat>, v: seq<nat>, m: nat): set<nat>
    requires m <= |u| == |v|
  {
    set p: nat | p < m && u[p] != v[p]
  }

  lemma {:induction false} DistinctBandsDiffer(u: seq<nat>, v: seq<nat>, b: nat, r: nat, k: nat)
    requires b * r <= |u| == |v| && k <= b && k * r <= |u| && !SharesBand(u, v, b, r)
    ensures |Differences(u, v, k * r)| >= k
    decreases k
  {
    if k > 0 {
      BandFits(k - 1, b, r, |u|);
      var low := (k - 1) * r;
      assert k * r == low + r;
      DistinctBandsDiffer(u, v, b, r, k - 1);
      assert Band(u, b, r, k - 1) != Band(v, b, r, k - 1);
      var p :| 0 <= p < r && Band(u, b, r, k - 1)[p] != Band(v, b, r, k - 1)[p];
      var below := Differences(u, v, low);
      assert low + p in Differences(u, v, k * r) && low + p !in below;
      assert below + {low + p} <= Differences(u, v, k * r);
      Larger(below + {low + p}, Differences(u, v, k * r));
    }
  }

  lemma {:induction false} Larger(a: set<nat>, b: set<nat>)
    requires a <= b
    ensures |a| <= |b|
  {
    if a != {} {
      var x := Pick(a);
      Larger(a - {x}, b - {x});
    }
  }

  /** Pigeonhole: sketches that differ in fewer than `b` positions agree on some whole band. */
  lemma FewDifferencesShareBand(u: seq<nat>, v: seq<nat>, b: nat, r: nat)
    requires b * r <= |u| == |v| && |Differences(u, v, |u|)| < b
    ensures SharesBand(u, v, b, r)
  {
    if !SharesBand(u, v, b, r) {
      DistinctBandsDiffer(u, v, b, r, b);
      Larger(Differences(u, v, b * r), Differences(u, v, |u|));
    }
  }

  // ---- choosing the number of bands ----

  predicate Fits(b: nat, r: nat, numPerm: nat) {
    1 <= b && 1 <= r && b * r <= numPerm
  }

  lemma RowsFit(b: nat, r: nat, numPerm: nat)
    requires b >= 1
    ensures b * r <= numPerm <==> r <= numPerm / b
  {
    var q := numPerm / b;
    assert numPerm == b * q + numPerm % b;
    Distributes(b, q, 1);
    if r <= q { Distributes(b, r, q - r); } else { Distributes(b, q + 1, r - q - 1); }
  }

  lemma Distributes(b: nat, x: nat, y: nat)
    ensures b * (x + y) == b * x + b * y && b * y >= 0
  {
  }

  /** `(b, r)` comes before `(c, s)` in the search. */
  predicate Earlier(b: nat, r: nat, c: nat, s: nat) {
    b < c || (b == c && r < s)
  }

  ghost predicate Beats(error: (nat, nat) -> real, b: nat, r: nat, c: nat, s: nat) {
    error(b, r) <= error(c, s) && (Earlier(c, s, b, r) ==> error(b, r) < error(c, s))
  }

  /** `(b, r)` is the first best choice among those before `(c, s)`, if there is one. */
  ghost predicate BestBefore(numPerm: nat, error: (nat, nat) -> real, best: Option<real>, b: nat, r: nat, c: nat, s: nat) {
    && (best.Some? ==> best == Some(error(b, r)) && Fits(b, r, numPerm) && Earlier(b, r, c, s))
    && (forall d: nat, q: nat {:trigger Fits(d, q, numPerm)} :: Fits(d, q, numPerm) && Earlier(d, q, c, s) ==>
          best.Some? && Beats(error, b, r, d, q))
  }

  lemma RowDone(numPerm: nat, error: (nat, nat) -> real, best: Option<real>, b: nat, r: nat, c: nat)
    requires c >= 1 && BestBefore(numPerm, error, best, b, r, c, numPerm / c + 1)
    ensures BestBefore(numPerm, error, best, b, r, c + 1, 1)
  {
    forall d: nat, q: nat | Fits(d, q, numPerm) && Earlier(d, q, c + 1, 1)
      ensures best.Some? && Beats(error, b, r, d, q)
    {
      RowsFit(d, q, numPerm);
    }
  }

  /** Search all ways to cut a sketch into bands for the first with the least error. */
  method OptimalParams(numPerm: nat, error: (nat, nat) -> real) returns (b: nat, r: nat)
    requires numPerm >= 1
    ensures b >= 1 && r >= 1 && b * r <= numPerm
    // no cut that fits has a smaller error, and none with fewer bands, or as many bands and fewer rows, has the same one
    ensures forall c: nat, s: nat :: c >= 1 && s >= 1 && c * s <= numPerm ==>
              error(b, r) <= error(c, s) && (c < b || (c == b && s < r) ==> error(b, r) < error(c, s))
  {
    var best := None;
    b, r := 1, 1;
    for c := 1 to numPerm + 1
      invariant BestBefore(numPerm, error, best, b, r, c, 1)
    {
      for s := 1 to numPerm / c + 1
        invariant BestBefore(numPerm, error, best, b, r, c, s)
      {
        RowsFit(c, s, numPerm);
        if best.None? || error(c, s) < best.value {
          best, b, r := Some(error(c, s)), c, s;
        }
      }
      RowDone(numPerm, error, best, b, r, c);
    }
    assert Fits(1, 1, numPerm);
    forall c: nat, s: nat | c >= 1 && s >= 1 && c * s <= numPerm
      ensures error(b, r) <= error(c, s) && (c < b || (c == b && s < r) ==> error(b, r) < error(c, s))
    {
      assert c * s >= c;
      assert Fits(c, s, numPerm) && Earlier(c, s, numPerm + 1, 1);
    }
  }

  // ---- the index ----

  class Index<K(==,!new)> {
    const numPerm: nat
    const b: nat
    const r: nat
    var tables: seq<map<seq<nat>, seq<K>>>
    var keys: set<K>
    ghost var sketches: map<K, seq<nat>>      // what was inserted under each key

    ghost predicate Valid()
      reads this
    {
      && b * r <= numPerm && |tables| == b
      && keys == sketches.Keys
      && (forall k :: k in sketches ==> |sketches[k]| == numPerm)
      && (forall i :: 0 <= i < b ==> TableHolds(tables[i], i, sketches))
    }

    /** Each bucket of table `i` holds exactly the keys whose band `i` is the bucket's. */
    ghost predicate TableHolds(table: map<seq<nat>, seq<K>>, i: nat, entries: map<K, seq<nat>>)
      requires i < b && b * r <= numPerm && forall k :: k in entries ==> |entries[k]| == numPerm
    {
      forall band, k :: (band in table && k in table[band]) <==> (k in entries && Band(entries[k], b, r, i) == band)
    }

    constructor (numPerm: nat, error: (nat, nat) -> real)
      requires numPerm >= 1
      ensures Valid() && sketches == map[] && this.numPerm == numPerm && Fits(b, r, numPerm)
    {
      var bands, rows := OptimalParams(numPerm, error);
      this.numPerm, b, r := numPerm, bands, rows;
      tables := seq(bands, _ => map[]);
      keys, sketches := {}, map[];
    }

    /** Add a key; a key that is already present is refused and changes nothing. */
    method Insert(key: K, hv: seq<nat>) returns (accepted: bool)
      requires Valid() && |hv| == numPerm
      modifies this
      ensures Valid()
      ensures accepted <==> key !in old(sketches)
      ensures sketches == if accepted then old(sketches)[key := hv] else old(sketches)
    {
      if key in keys { return false; }
      keys := keys + {key};
      ghost var entries := sketches[key := hv];
      for i := 0 to b
        invariant |tables| == b && sketches == old(sketches) && keys == old(keys) + {key}
        invariant forall j :: 0 <= j < i ==> TableHolds(tables[j], j, entries)
        invariant forall j :: i <= j < b ==> TableHolds(tables[j], j, sketches)
      {
        var band := Band(hv, b, r, i);
        var table := tables[i];
        var bucket := (if band in table then table[band] else []) + [key];
        tables := tables[i := table[band := bucket]];
      }
      sketches := entries;
      accepted := true;
    }

    /** The keys that share at least one whole band with the given sketch. */
    method Query(hv: seq<nat>) returns (found: set<K>)
      requires Valid() && |hv| == numPerm
      ensures forall k :: k in found <==> k in sketches && SharesBand(sketches[k], hv, b, r)
    {
      found := {};
      for i := 0 to b
        invariant forall k :: k in found <==>
                    k in sketches && exists j: nat :: j < i && Band(sketches[k], b, r, j) == Band(hv, b, r, j)
      {
        var band := Band(hv, b, r, i);
        var bucket := if band in tables[i] then tables[i][band] else [];
        assert TableHolds(tables[i], i, sketches);
        found := found + set k | k in bucket;
      }
    }

    /** Every key whose sketch differs from the query in fewer than `b` positions is found. */
    lemma NearKeysAreFound(hv: seq<nat>, found: set<K>, k: K)
      requires Valid() && |hv| == numPerm && k in sketches
      requires forall j :: j in found <==> j in sketches && SharesBand(sketches[j], hv, b, r)
      requires |Differences(sketches[k], hv, numPerm)| < b
      ensures k in found
    {
      FewDifferencesShareBand(sketches[k], hv, b, r);
    }
  }
}
