/** Entity records, the pairwise merge guards, and the choice of a survivor. */
module Entities {
  import opened Common

  datatype Node = Node(id: string, kind: string, text: Option<string>, file: string, repo: string) {
    /** The text compared between entities: the label when there is one, else the id. */
    function Label(): string {
      text.GetOr(id)
    }

    predicate IsCode() {
      kind == "code"
    }
  }

  /** Everything computed by libraries: normalisation, entropy, string metrics, LSH neighbours. */
  datatype Similarity = Similarity(
    norm: string -> string,
    entropy: string -> real,
    jaro: (string, string) -> real,
    jaroWinkler: (string, string) -> real,
    editDistance: (string, string) -> nat,
    neighbours: string -> seq<string>)

  const ENTROPY_THRESHOLD := 2.5
  const MERGE_THRESHOLD := 92.0
  const COMMUNITY_BOOST := 5.0
  const AMBIGUOUS_LOW := 75.0

  predicate IsLower(c: char) { 'a' <= c <= 'z' }

  function Min(a: nat, b: nat): nat { if a < b then a else b }

  /** Digits, then letters; or at least two letters: the trailing token of a variant label. */
  predicate IsVariantSuffix(s: string) {
    || (|s| >= 2 && forall c :: c in s ==> IsLower(c))
    || exists k :: 0 < k <= |s| && (forall c :: c in s[..k] ==> IsDigit(c)) && (forall c :: c in s[k..] ==> IsLower(c))
  }

  /** Where the variant suffix of `s[..]` starts, preferring the longest stem. */
  function SuffixStart(s: string, i: nat): (r: Option<nat>)
    requires i <= |s|
    ensures r.Some? ==> 0 < r.value <= i && IsLower(s[r.value - 1]) && IsVariantSuffix(s[r.value..])
    ensures forall k :: 0 < k <= i && (r.None? || k > r.value) ==>
                          !(IsLower(s[k - 1]) && IsVariantSuffix(s[k..]))
  {
    if i == 0 then None
    else if IsLower(s[i - 1]) && IsVariantSuffix(s[i..]) then Some(i)
    else SuffixStart(s, i - 1)
  }

  predicate IsVariantPair(a: string, b: string) {
    && a != b
    && Max(|a|, |b|) < 12
    && var i, j := SuffixStart(a, |a|), SuffixStart(b, |b|);
       && i.Some? && j.Some?
       && a[..i.value] == b[..j.value]
       && a[i.value..] != b[j.value..]
  }

  predicate ShortLabelBlocked(sim: Similarity, a: string, b: string, score: real) {
    && Max(|a|, |b|) < 12
    && !(score >= 97.0 && |a| == |b| && sim.editDistance(a, b) <= 1)
  }

  function StripZeros(run: string): string {
    if run == "" then "0" else if run[0] == '0' then StripZeros(run[1..]) else run
  }

  /** The digit runs of `s`, each without leading zeros; `run` is the run in progress. */
  function NumbersFrom(s: string, run: string): multiset<string> {
    if s == "" then (if run == "" then multiset{} else multiset{StripZeros(run)})
    else if IsDigit(s[0]) then NumbersFrom(s[1..], run + [s[0]])
    else (if run == "" then multiset{} else multiset{StripZeros(run)}) + NumbersFrom(s[1..], "")
  }

  predicate NumericTokensDiffer(a: string, b: string) {
    a != b && NumbersFrom(a, "") != NumbersFrom(b, "")
  }

  predicate FileAnchored(n: Node) {
    n.kind == "rationale" || n.kind == "document"
  }

  predicate CrossFileAnchoredBlocked(a: Node, b: Node) {
    (FileAnchored(a) || FileAnchored(b)) && a.file != b.file
  }

  function BaseScore(sim: Similarity, a: Node, b: Node): real {
    var x, y := sim.norm(a.Label()), sim.norm(b.Label());
    100.0 * (if a.file != b.file && Max(|x|, |y|) >= 12 then sim.jaro(x, y) else sim.jaroWinkler(x, y))
  }

  /** No pairwise guard forbids comparing the two entities. */
  predicate Comparable(sim: Similarity, a: Node, b: Node) {
    var x, y := sim.norm(a.Label()), sim.norm(b.Label());
    && !IsVariantPair(x, y)
    && !ShortLabelBlocked(sim, x, y, BaseScore(sim, a, b))
    && !(x < y || y < x)  // one label strictly extends the other
    && !NumericTokensDiffer(x, y)
    && !CrossFileAnchoredBlocked(a, b)
  }

  function BoostedScore(sim: Similarity, community: map<string, int>, a: Node, b: Node): real {
    var x, y := sim.norm(a.Label()), sim.norm(b.Label());
    BaseScore(sim, a, b) +
    if a.id in community && b.id in community && community[a.id] == community[b.id] && Min(|x|, |y|) >= 12
    then COMMUNITY_BOOST else 0.0
  }

  /** Same file and same normalised label: merged without looking at any score. */
  predicate ExactPair(sim: Similarity, a: Node, b: Node) {
    && !a.IsCode() && !b.IsCode()
    && sim.norm(a.Label()) == sim.norm(b.Label()) != ""
    && a.file == b.file != ""
  }

  /** The fuzzy pass merges `a` with its neighbour `b`. */
  predicate FuzzyPair(sim: Similarity, community: map<string, int>, a: Node, b: Node) {
    && Comparable(sim, a, b)
    && BoostedScore(sim, community, a, b) >= MERGE_THRESHOLD
    && (sim.norm(a.Label()) == sim.norm(b.Label()) ==> a.file == b.file)
  }

  predicate AmbiguousPair(sim: Similarity, community: map<string, int>, a: Node, b: Node) {
    Comparable(sim, a, b) && AMBIGUOUS_LOW <= BoostedScore(sim, community, a, b) < MERGE_THRESHOLD
  }

  /** The number of digits at the end of `s`. */
  function TrailingDigits(s: string): (k: nat)
    ensures k <= |s|
  {
    if s == "" || !IsDigit(s[|s| - 1]) then 0 else 1 + TrailingDigits(s[..|s| - 1])
  }

  /** Whether an id ends in `_c` and at least one digit, before an optional final newline. */
  predicate HasChunkSuffix(id: string) {
    var s := if id != "" && id[|id| - 1] == '\n' then id[..|id| - 1] else id;
    var k := TrailingDigits(s);
    k > 0 && |s| - k >= 2 && s[|s| - k - 2..|s| - k] == "_c"
  }

  /** Chunk-suffixed ids lose to plain ones, then longer ids to shorter ones. */
  function Cost(n: Node): (int, int) {
    (if HasChunkSuffix(n.id) then 1 else 0, |n.id|)
  }

  /** `a` is a better survivor than `b`: without a chunk suffix rather than with one, else with the shorter id. */
  predicate Preferred(a: Node, b: Node) {
    if HasChunkSuffix(a.id) == HasChunkSuffix(b.id) then |a.id| < |b.id| else HasChunkSuffix(b.id)
  }

  /** The survivor of a group: the first node that no other one beats. */
  function PickWinner(nodes: seq<Node>): (w: Node)
    requires nodes != []
    ensures w in nodes
    ensures forall n :: n in nodes ==> !Preferred(n, w)
    ensures exists k :: 0 <= k < |nodes| && nodes[k] == w && forall i :: 0 <= i < k ==> Preferred(w, nodes[i])
  {
    Cheapest(nodes, Cost)
  }

  /** An id without a chunk suffix survives one with it; among equals the shorter id does. */
  lemma PreferenceIs(a: Node, b: Node)
    ensures !HasChunkSuffix(a.id) && HasChunkSuffix(b.id) ==> Preferred(a, b) && !Preferred(b, a)
    ensures HasChunkSuffix(a.id) == HasChunkSuffix(b.id) ==> (Preferred(a, b) <==> |a.id| < |b.id|)
  {
  }

  // ---- what the guards compare ----

  /** Leading zeros do not count, and a run of nothing but zeros is one zero. */
  lemma {:induction false} PaddingIsStripped(zeros: string, run: string)
    requires forall i :: 0 <= i < |zeros| ==> zeros[i] == '0'
    ensures run != "" ==> StripZeros(zeros + run) == StripZeros(run)
    ensures run != "" && run[0] != '0' ==> StripZeros(run) == run
    ensures StripZeros(zeros) == "0"
  {
    if zeros == "" {
      assert zeros + run == run;
    } else {
      assert (zeros + run)[1..] == zeros[1..] + run;
      PaddingIsStripped(zeros[1..], run);
    }
  }

  lemma {:induction false} NumbersNone(s: string)
    requires forall c :: c in s ==> !IsDigit(c)
    ensures NumbersFrom(s, "") == multiset{}
  {
    if s != "" { NumbersNone(s[1..]); }
  }

  lemma {:induction false} NumbersPrefix(p: string, rest: string, run: string)
    requires p != "" && !IsDigit(p[|p| - 1])
    ensures NumbersFrom(p + rest, run) == NumbersFrom(p, run) + NumbersFrom(rest, "")
  {
    assert (p + rest)[1..] == p[1..] + rest;
    if |p| == 1 {
      assert p[1..] == "" && p[1..] + rest == rest;
    } else {
      NumbersPrefix(p[1..], rest, if IsDigit(p[0]) then run + [p[0]] else "");
    }
  }

  lemma {:induction false} NumbersRun(d: string, q: string, run: string)
    requires (forall c :: c in d ==> IsDigit(c)) && (q != "" ==> !IsDigit(q[0])) && run + d != ""
    ensures NumbersFrom(d + q, run) == multiset{StripZeros(run + d)} + NumbersFrom(q, "")
  {
    if d == "" {
      assert d + q == q && run + d == run;
    } else {
      assert (d + q)[1..] == d[1..] + q && run + [d[0]] + d[1..] == run + d;
      NumbersRun(d[1..], q, run + [d[0]]);
    }
  }

  /** A run of digits between other text counts as one number, whatever stands around it. */
  lemma NumbersSplit(p: string, d: string, q: string)
    requires d != "" && (forall c :: c in d ==> IsDigit(c))
    requires (p != "" ==> !IsDigit(p[|p| - 1])) && (q != "" ==> !IsDigit(q[0]))
    ensures NumbersFrom(p + d + q, "") == NumbersFrom(p, "") + multiset{StripZeros(d)} + NumbersFrom(q, "")
  {
    assert p + d + q == p + (d + q) && "" + d == d;
    NumbersRun(d, q, "");
    if p == "" {
      assert p + (d + q) == d + q;
    } else {
      NumbersPrefix(p, d + q, "");
    }
  }

  /** Labels that differ in one number only, not in its padding, are never comparable. */
  lemma OneNumberApart(sim: Similarity, a: Node, b: Node, p: string, d: string, e: string, q: string)
    requires sim.norm(a.Label()) == p + d + q && sim.norm(b.Label()) == p + e + q
    requires d != "" && e != "" && (forall c :: c in d ==> IsDigit(c)) && (forall c :: c in e ==> IsDigit(c))
    requires (p != "" ==> !IsDigit(p[|p| - 1])) && (q != "" ==> !IsDigit(q[0]))
    requires StripZeros(d) != StripZeros(e)
    ensures !Comparable(sim, a, b)
  {
    NumbersSplit(p, d, q);
    NumbersSplit(p, e, q);
    DifferByOne(NumbersFrom(p, ""), NumbersFrom(q, ""), StripZeros(d), StripZeros(e));
    assert NumericTokensDiffer(p + d + q, p + e + q);
  }

  lemma DifferByOne<T>(a: multiset<T>, b: multiset<T>, x: T, y: T)
    requires x != y
    ensures a + multiset{x} + b != a + multiset{y} + b
  {
    assert (a + multiset{x} + b)[x] == (a + multiset{y} + b)[x] + 1;
  }

  /** `i` ends the longest stem with a variant suffix behind it. */
  ghost predicate IsStem(s: string, i: int) {
    && 0 < i <= |s| && IsLower(s[i - 1]) && IsVariantSuffix(s[i..])
    && forall k :: i < k <= |s| ==> !(IsLower(s[k - 1]) && IsVariantSuffix(s[k..]))
  }

  /** Two variants of one name. */
  ghost predicate Siblings(x: string, y: string) {
    x != y && exists i :: IsStem(x, i) && IsStem(y, i) && x[..i] == y[..i]
  }

  lemma StemIsStart(s: string, i: int)
    ensures IsStem(s, i) <==> SuffixStart(s, |s|) == Some(i)
  {
  }

  lemma VariantsAreSiblings(x: string, y: string)
    requires |x| < 12 && |y| < 12
    ensures IsVariantPair(x, y) <==> Siblings(x, y)
  {
    var i, j := SuffixStart(x, |x|), SuffixStart(y, |y|);
    if i.Some? && j.Some? {
      StemIsStart(x, i.value);
      StemIsStart(y, j.value);
      assert |x[..i.value]| == i.value && |y[..j.value]| == j.value;
      assert x == x[..i.value] + x[i.value..] && y == y[..j.value] + y[j.value..];
    }
    if k :| IsStem(x, k) && IsStem(y, k) && x[..k] == y[..k] {
      StemIsStart(x, k);
      StemIsStart(y, k);
    }
  }

  /** A run of digits and a run of lower-case letters; without digits it takes two letters. */
  ghost predicate DigitsThenLetters(s: string, d: string, w: string) {
    s == d + w && AllDigit(d) && (forall c :: c in w ==> 'a' <= c <= 'z') && (d != "" || |w| >= 2)
  }

  lemma VariantSuffixIff(s: string)
    ensures IsVariantSuffix(s) <==> exists d, w :: DigitsThenLetters(s, d, w)
  {
    if IsVariantSuffix(s) { var d, w := SuffixReads(s); }
    forall d, w | DigitsThenLetters(s, d, w)
      ensures IsVariantSuffix(s)
    {
      ReadsAsSuffix(s, d, w);
    }
  }

  lemma SuffixReads(s: string) returns (d: string, w: string)
    requires IsVariantSuffix(s)
    ensures DigitsThenLetters(s, d, w)
  {
    if |s| >= 2 && forall c :: c in s ==> IsLower(c) {
      d, w := "", s;
    } else {
      var k :| 0 < k <= |s| && (forall c :: c in s[..k] ==> IsDigit(c)) && (forall c :: c in s[k..] ==> IsLower(c));
      d, w := s[..k], s[k..];
    }
  }

  lemma ReadsAsSuffix(s: string, d: string, w: string)
    requires DigitsThenLetters(s, d, w)
    ensures IsVariantSuffix(s)
  {
    if d == "" {
      assert s == w;
    } else {
      assert s[..|d|] == d && s[|d|..] == w;
    }
  }

  /** When two entities may be compared: anchored ones in one file only; different labels only with the same numbers and
      neither a start of the other; labels under twelve characters only when they are no siblings and all but equal. */
  lemma ComparableIff(sim: Similarity, a: Node, b: Node)
    ensures var x, y := sim.norm(a.Label()), sim.norm(b.Label());
            Comparable(sim, a, b) <==>
              && (a.file == b.file || (a.kind !in {"rationale", "document"} && b.kind !in {"rationale", "document"}))
              && (x == y || (NumbersFrom(x, "") == NumbersFrom(y, "") && !(x <= y) && !(y <= x)))
              && (|x| >= 12 || |y| >= 12 ||
                  (!Siblings(x, y) && BaseScore(sim, a, b) >= 97.0 && |x| == |y| && sim.editDistance(x, y) <= 1))
  {
    var x, y := sim.norm(a.Label()), sim.norm(b.Label());
    if |x| < 12 && |y| < 12 { VariantsAreSiblings(x, y); }
  }

  /** Across files labels of which one has twelve characters are compared without the bonus for a common start; one
      community adds five points when both labels are long. */
  lemma ScoresAre(sim: Similarity, community: map<string, int>, a: Node, b: Node)
    ensures var x, y, base := sim.norm(a.Label()), sim.norm(b.Label()), BaseScore(sim, a, b);
            var boosted := BoostedScore(sim, community, a, b);
            && (a.file == b.file || (|x| < 12 && |y| < 12) ==> base == 100.0 * sim.jaroWinkler(x, y))
            && (a.file != b.file && (|x| >= 12 || |y| >= 12) ==> base == 100.0 * sim.jaro(x, y))
            && (boosted == base || boosted == base + 5.0)
            && (boosted > base <==> |x| >= 12 && |y| >= 12 && a.id in community && b.id in community
                                    && community[a.id] == community[b.id])
  {
  }

  /** Scores of comparable entities: from 92 on they merge, unless only their label is the same; from 75 on they are asked
      about; below they stay apart. */
  lemma ScoresDecide(sim: Similarity, community: map<string, int>, a: Node, b: Node)
    ensures var score := BoostedScore(sim, community, a, b);
            && (FuzzyPair(sim, community, a, b) <==>
                  && Comparable(sim, a, b) && score >= 92.0
                  && (a.file == b.file || sim.norm(a.Label()) != sim.norm(b.Label())))
            && (AmbiguousPair(sim, community, a, b) <==> Comparable(sim, a, b) && 75.0 <= score < 92.0)
            && !(FuzzyPair(sim, community, a, b) && AmbiguousPair(sim, community, a, b))
  {
  }

  /** Entities merged without a score: neither is code, and both have one nonempty label and one nonempty file. */
  lemma ExactPairsAgree(sim: Similarity, a: Node, b: Node, c: Node)
    ensures ExactPair(sim, a, b) <==> ExactPair(sim, b, a)
    ensures ExactPair(sim, a, b) && ExactPair(sim, b, c) ==> ExactPair(sim, a, c)
    ensures ExactPair(sim, a, a) <==> a.kind != "code" && a.file != "" && sim.norm(a.text.GetOr(a.id)) != ""
    ensures ExactPair(sim, a, b) <==>
            ExactPair(sim, a, a) && ExactPair(sim, b, b) && (a.file, sim.norm(a.Label())) == (b.file, sim.norm(b.Label()))
  {
  }

  lemma {:induction false} TrailingDigitsOf(front: string, d: string)
    requires (forall c :: c in d ==> IsDigit(c)) && (front == "" || !IsDigit(front[|front| - 1]))
    ensures TrailingDigits(front + d) == |d|
  {
    if d == "" {
      assert front + d == front;
    } else {
      assert (front + d)[..|front + d| - 1] == front + d[..|d| - 1];
      TrailingDigitsOf(front, d[..|d| - 1]);
    }
  }

  lemma {:induction false} TrailingAreDigits(s: string)
    ensures forall c :: c in s[|s| - TrailingDigits(s)..] ==> IsDigit(c)
  {
    if s != "" && IsDigit(s[|s| - 1]) {
      var front := s[..|s| - 1];
      TrailingAreDigits(front);
      assert s[|s| - TrailingDigits(s)..] == front[|front| - TrailingDigits(front)..] + [s[|s| - 1]];
    }
  }

  /** The id ends in `_c` and digits. */
  ghost predicate EndsInChunk(s: string) {
    exists stem, d :: d != "" && AllDigit(d) && s == stem + "_c" + d
  }

  predicate AllDigit(d: string) {
    forall c :: c in d ==> IsDigit(c)
  }

  lemma ChunkSuffixIff(id: string)
    ensures HasChunkSuffix(id) <==>
            EndsInChunk(if id != "" && id[|id| - 1] == '\n' then id[..|id| - 1] else id)
  {
    var s := if id != "" && id[|id| - 1] == '\n' then id[..|id| - 1] else id;
    var k := TrailingDigits(s);
    TrailingAreDigits(s);
    if HasChunkSuffix(id) {
      var stem, d := s[..|s| - k - 2], s[|s| - k..];
      assert s == stem + "_c" + d && AllDigit(d);
    }
    if stem, d :| d != "" && AllDigit(d) && s == stem + "_c" + d {
      TrailingDigitsOf(stem + "_c", d);
      assert s[|s| - k - 2..|s| - k] == "_c";
    }
  }
}
