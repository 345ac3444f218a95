/** Normalising a changelog line by line: list markers outside fences, introductions in the newest release. */
module ChangelogLines {

  /** What the two passes ask about lines; `S` is the state of the fence tracker. */
  datatype Rules<!L, !S(==)> = Rules(
    outside: S,                // no fence is open
    advance: (S, L) -> S,
    fence: L -> bool,          // the line looks like a fence
    mark: L -> L,              // the list marker replaced
    level: L -> nat,           // 2 or 3 for the headings that matter, else 0
    blank: L -> bool,
    listed: L -> bool,         // starts like a heading or a list item
    intro: L -> L,             // the sentence for a heading
    gap: L)                    // the empty line around it
  {
    /** The fence state after some lines. */
    function Run(s: S, ls: seq<L>): S {
      if ls == [] then s else Run(advance(s, ls[0]), ls[1..])
    }

    // ---- first pass: list markers ----

    function MarkedLine(s: S, l: L): L {
      if s == outside && !fence(l) then mark(l) else l
    }

    function Marked(s: S, ls: seq<L>): (r: seq<L>)
      ensures |r| == |ls|
    {
      if ls == [] then [] else [MarkedLine(s, ls[0])] + Marked(advance(s, ls[0]), ls[1..])
    }

    // ---- second pass: introductions ----

    /** How many blank lines come first. */
    function Blanks(ls: seq<L>): (n: nat)
      ensures n <= |ls| && forall i :: 0 <= i < n ==> blank(ls[i])
      ensures n < |ls| ==> !blank(ls[n])
    {
      if ls == [] || !blank(ls[0]) then 0 else 1 + Blanks(ls[1..])
    }

    /** The heading is followed directly by a list or another heading. */
    predicate NeedsIntro(s: S, ls: seq<L>)
      requires ls != []
    {
      var n := Blanks(ls[1..]);
      s == outside && level(ls[0]) > 0 && n + 1 < |ls| && listed(ls[n + 1])
    }

    function Fill(s: S, ls: seq<L>): seq<L> {
      if ls == [] then []
      else if NeedsIntro(s, ls) then
        [ls[0], gap, intro(ls[0]), gap] + Fill(advance(s, ls[0]), ls[Blanks(ls[1..]) + 1..])
      else [ls[0]] + Fill(advance(s, ls[0]), ls[1..])
    }

    /** Where the first release heading outside fences is. */
    function Scan(s: S, ls: seq<L>): (n: nat)
      ensures n <= |ls|
    {
      if ls == [] || (s == outside && level(ls[0]) == 2) then 0 else 1 + Scan(advance(s, ls[0]), ls[1..])
    }

    /** The newest release section of a list of lines. */
    function Start(ls: seq<L>): (n: nat)
      ensures n <= |ls|
    {
      Scan(outside, ls)
    }

    function End(ls: seq<L>): (n: nat)
      ensures Start(ls) <= n <= |ls|
    {
      var a := Start(ls);
      if a == |ls| then a else a + 1 + Scan(advance(outside, ls[a]), ls[a + 1..])
    }

    function Introduced(ls: seq<L>): seq<L> {
      ls[..Start(ls)] + Fill(outside, ls[Start(ls)..End(ls)]) + ls[End(ls)..]
    }

    function Normalized(ls: seq<L>): seq<L> {
      Introduced(Marked(outside, ls))
    }
  }

  /** Neither fence nor heading nor marked item. */
  ghost predicate Quiet<L, S(!new)>(r: Rules<L, S>, l: L) {
    !r.fence(l) && r.level(l) == 0 && r.mark(l) == l && forall s :: r.advance(s, l) == s
  }

  /** What the regular expressions guarantee. */
  ghost predicate Lawful<L(!new), S(!new)>(r: Rules<L, S>) {
    && (forall l :: r.blank(l) ==> Quiet(r, l))
    && r.blank(r.gap)
    && (forall l :: r.level(l) > 0 ==> !r.blank(l) && !r.fence(l) && r.mark(l) == l && forall s :: r.advance(s, l) == s)
    && (forall l :: r.level(l) > 0 ==> Quiet(r, r.intro(l)) && !r.blank(r.intro(l)) && !r.listed(r.intro(l)))
    && (forall l :: !r.fence(l) ==> !r.fence(r.mark(l)) && r.mark(r.mark(l)) == r.mark(l) && r.level(r.mark(l)) == r.level(l))
    && (forall l, s :: !r.fence(l) ==> r.advance(s, l) == s && r.advance(s, r.mark(l)) == s)
  }

  // ---- states and scans over concatenations ----

  lemma {:induction false} RunAppend<L, S>(r: Rules<L, S>, s: S, a: seq<L>, b: seq<L>)
    ensures r.Run(s, a + b) == r.Run(r.Run(s, a), b)
  {
    if a == [] {
      assert a + b == b;
    } else {
      assert (a + b)[1..] == a[1..] + b;
      RunAppend(r, r.advance(s, a[0]), a[1..], b);
    }
  }

  lemma {:induction false} ScanAppend<L, S>(r: Rules<L, S>, s: S, a: seq<L>, b: seq<L>)
    ensures r.Scan(s, a + b) == if r.Scan(s, a) < |a| then r.Scan(s, a) else |a| + r.Scan(r.Run(s, a), b)
  {
    if a == [] {
      assert a + b == b;
    } else {
      assert (a + b)[1..] == a[1..] + b;
      ScanAppend(r, r.advance(s, a[0]), a[1..], b);
    }
  }

  lemma {:induction false} ScanStops<L, S>(r: Rules<L, S>, s: S, ls: seq<L>)
    ensures var n := r.Scan(s, ls);
            && r.Scan(s, ls[..n]) == n
            && (n < |ls| ==> r.level(ls[n]) == 2 && r.Run(s, ls[..n]) == r.outside)
  {
    var n := r.Scan(s, ls);
    if n > 0 {
      ScanStops(r, r.advance(s, ls[0]), ls[1..]);
      assert ls[..n][1..] == ls[1..][..n - 1];
    }
  }

  lemma {:induction false} MarkedAppend<L, S>(r: Rules<L, S>, s: S, a: seq<L>, b: seq<L>)
    ensures r.Marked(s, a + b) == r.Marked(s, a) + r.Marked(r.Run(s, a), b)
  {
    if a == [] {
      assert a + b == b;
    } else {
      assert (a + b)[1..] == a[1..] + b;
      MarkedAppend(r, r.advance(s, a[0]), a[1..], b);
    }
  }

  // ---- the first pass is idempotent and keeps the fences ----

  lemma {:induction false} MarkedTwice<L(!new), S(!new)>(r: Rules<L, S>, s: S, ls: seq<L>)
    requires Lawful(r)
    ensures r.Run(s, r.Marked(s, ls)) == r.Run(s, ls)
    ensures r.Marked(s, r.Marked(s, ls)) == r.Marked(s, ls)
  {
    if ls != [] {
      var first, rest := r.MarkedLine(s, ls[0]), r.Marked(r.advance(s, ls[0]), ls[1..]);
      assert ([first] + rest)[1..] == rest;
      MarkedTwice(r, r.advance(s, ls[0]), ls[1..]);
    }
  }

  // ---- the second pass ----

  /** Blank lines change no state, contain no heading and no marker. */
  lemma {:induction false} BlanksAreQuiet<L(!new), S(!new)>(r: Rules<L, S>, s: S, ls: seq<L>)
    requires Lawful(r) && forall i :: 0 <= i < |ls| ==> Quiet(r, ls[i])
    ensures r.Run(s, ls) == s && r.Marked(s, ls) == ls && r.Scan(s, ls) == |ls|
  {
    if ls != [] {
      BlanksAreQuiet(r, s, ls[1..]);
    }
  }

  /** The lines put in place of a heading and its blanks. */
  lemma HeadIsQuiet<L(!new), S(!new)>(r: Rules<L, S>, s: S, h: L)
    requires Lawful(r) && r.level(h) > 0
    ensures var added := [r.gap, r.intro(h), r.gap];
            r.Run(s, added) == s && r.Marked(s, added) == added && r.Scan(s, added) == 3
            && forall rest :: r.Blanks(added + rest) == 1
  {
    var added := [r.gap, r.intro(h), r.gap];
    BlanksAreQuiet(r, s, added);
    forall rest
      ensures r.Blanks(added + rest) == 1
    {
      assert (added + rest)[0] == r.gap && (added + rest)[1..][0] == r.intro(h);
    }
  }

  /** Leading blank lines can be dropped from everything but the text. */
  lemma LeadingBlanks<L(!new), S(!new)>(r: Rules<L, S>, s: S, ls: seq<L>)
    requires Lawful(r)
    ensures var n := r.Blanks(ls);
            && r.Run(s, ls) == r.Run(s, ls[n..])
            && r.Marked(s, ls) == ls[..n] + r.Marked(s, ls[n..])
            && r.Scan(s, ls) == n + r.Scan(s, ls[n..])
  {
    var n := r.Blanks(ls);
    assert ls == ls[..n] + ls[n..];
    BlanksAreQuiet(r, s, ls[..n]);
    RunAppend(r, s, ls[..n], ls[n..]);
    MarkedAppend(r, s, ls[..n], ls[n..]);
    ScanAppend(r, s, ls[..n], ls[n..]);
  }

  /** The parts of a filled list, when an introduction is added. */
  lemma FillAdds<L(!new), S(!new)>(r: Rules<L, S>, s: S, ls: seq<L>)
    requires Lawful(r) && ls != [] && r.NeedsIntro(s, ls)
    ensures r.advance(s, ls[0]) == s
    ensures r.Fill(s, ls) == [ls[0]] + [r.gap, r.intro(ls[0]), r.gap] + r.Fill(s, ls[r.Blanks(ls[1..]) + 1..])
    ensures ls[r.Blanks(ls[1..]) + 1..] == ls[1..][r.Blanks(ls[1..])..]
  {
    var rest := r.Fill(s, ls[r.Blanks(ls[1..]) + 1..]);
    assert [ls[0], r.gap, r.intro(ls[0]), r.gap] + rest == [ls[0]] + [r.gap, r.intro(ls[0]), r.gap] + rest;
  }

  /** Introductions open and close no fence. */
  lemma {:induction false} FillKeepsRun<L(!new), S(!new)>(r: Rules<L, S>, s: S, ls: seq<L>)
    requires Lawful(r)
    ensures r.Run(s, r.Fill(s, ls)) == r.Run(s, ls)
    decreases |ls|
  {
    if ls == [] {
    } else if r.NeedsIntro(s, ls) {
      FillAdds(r, s, ls);
      HeadIsQuiet(r, s, ls[0]);
      var rest, added := ls[r.Blanks(ls[1..]) + 1..], [r.gap, r.intro(ls[0]), r.gap];
      FillKeepsRun(r, s, rest);
      LeadingBlanks(r, s, ls[1..]);
      RunAppend(r, s, [ls[0]] + added, r.Fill(s, rest));
      RunAppend(r, s, [ls[0]], added);
    } else {
      FillKeepsRun(r, r.advance(s, ls[0]), ls[1..]);
      RunAppend(r, s, [ls[0]], r.Fill(r.advance(s, ls[0]), ls[1..]));
    }
  }

  /** Introductions need no marking. */
  lemma {:induction false} FillKeepsMarked<L(!new), S(!new)>(r: Rules<L, S>, s: S, ls: seq<L>)
    requires Lawful(r) && r.Marked(s, ls) == ls
    ensures r.Marked(s, r.Fill(s, ls)) == r.Fill(s, ls)
    decreases |ls|
  {
    if ls == [] {
    } else if r.NeedsIntro(s, ls) {
      FillAdds(r, s, ls);
      HeadIsQuiet(r, s, ls[0]);
      var rest, added := ls[r.Blanks(ls[1..]) + 1..], [r.gap, r.intro(ls[0]), r.gap];
      LeadingBlanks(r, s, ls[1..]);
      MarkedTail(r, s, ls);
      FillKeepsMarked(r, s, rest);
      MarkedAppend(r, s, [ls[0]] + added, r.Fill(s, rest));
      MarkedAppend(r, s, [ls[0]], added);
      RunAppend(r, s, [ls[0]], added);
    } else {
      FillKeepsMarked(r, r.advance(s, ls[0]), ls[1..]);
      MarkedAppend(r, s, [ls[0]], r.Fill(r.advance(s, ls[0]), ls[1..]));
    }
  }

  lemma MarkedTail<L(!new), S(!new)>(r: Rules<L, S>, s: S, ls: seq<L>)
    requires Lawful(r) && r.Marked(s, ls) == ls && ls != [] && r.advance(s, ls[0]) == s
    ensures var rest := ls[1..][r.Blanks(ls[1..])..]; r.Marked(s, rest) == rest
    ensures r.MarkedLine(s, ls[0]) == ls[0]
  {
    var n := r.Blanks(ls[1..]);
    assert r.Marked(s, ls)[1..] == r.Marked(s, ls[1..]);
    LeadingBlanks(r, s, ls[1..]);
    assert r.Marked(s, ls[1..])[n..] == r.Marked(s, ls[1..][n..]);
  }

  /** Introductions are no release headings. */
  lemma {:induction false} FillKeepsScan<L(!new), S(!new)>(r: Rules<L, S>, s: S, ls: seq<L>)
    requires Lawful(r) && r.Scan(s, ls) == |ls|
    ensures r.Scan(s, r.Fill(s, ls)) == |r.Fill(s, ls)|
    decreases |ls|
  {
    if ls == [] {
    } else if r.NeedsIntro(s, ls) {
      FillAdds(r, s, ls);
      HeadIsQuiet(r, s, ls[0]);
      var rest, added := ls[r.Blanks(ls[1..]) + 1..], [r.gap, r.intro(ls[0]), r.gap];
      LeadingBlanks(r, s, ls[1..]);
      FillKeepsScan(r, s, rest);
      ScanAppend(r, s, [ls[0]] + added, r.Fill(s, rest));
      ScanAppend(r, s, [ls[0]], added);
      RunAppend(r, s, [ls[0]], added);
    } else {
      FillKeepsScan(r, r.advance(s, ls[0]), ls[1..]);
      ScanAppend(r, s, [ls[0]], r.Fill(r.advance(s, ls[0]), ls[1..]));
    }
  }

  lemma OneMoreBlank<L, S>(r: Rules<L, S>, l: L, rest: seq<L>)
    requires r.blank(l)
    ensures r.Blanks([l] + rest) == 1 + r.Blanks(rest)
    ensures r.Blanks(rest) < |rest| ==> ([l] + rest)[1 + r.Blanks(rest)] == rest[r.Blanks(rest)]
  {
    assert ([l] + rest)[1..] == rest;
  }

  /** The first line that is not blank stays the first. */
  lemma {:induction false} FillKeepsNext<L(!new), S(!new)>(r: Rules<L, S>, s: S, ls: seq<L>)
    requires Lawful(r)
    ensures var n, m := r.Blanks(ls), r.Blanks(r.Fill(s, ls));
            (m < |r.Fill(s, ls)| <==> n < |ls|) && (n < |ls| ==> r.Fill(s, ls)[m] == ls[n])
    decreases |ls|
  {
    if ls != [] && !r.NeedsIntro(s, ls) && r.blank(ls[0]) {
      var rest := r.Fill(r.advance(s, ls[0]), ls[1..]);
      FillKeepsNext(r, r.advance(s, ls[0]), ls[1..]);
      OneMoreBlank(r, ls[0], rest);
      OneMoreBlank(r, ls[0], ls[1..]);
      HeadAndTail(ls);
    }
  }

  /** A heading that was left alone is left alone again. */
  lemma StillFine<L(!new), S(!new)>(r: Rules<L, S>, s: S, ls: seq<L>)
    requires Lawful(r) && ls != [] && !r.NeedsIntro(s, ls)
    ensures !r.NeedsIntro(s, [ls[0]] + r.Fill(r.advance(s, ls[0]), ls[1..]))
  {
    var rest := r.Fill(r.advance(s, ls[0]), ls[1..]);
    FillKeepsNext(r, r.advance(s, ls[0]), ls[1..]);
    assert ([ls[0]] + rest)[1..] == rest;
  }

  /** Filling in introductions twice is filling them in once. */
  lemma {:induction false} FillTwice<L(!new), S(!new)>(r: Rules<L, S>, s: S, ls: seq<L>)
    requires Lawful(r)
    ensures r.Fill(s, r.Fill(s, ls)) == r.Fill(s, ls)
    decreases |ls|
  {
    if ls == [] {
    } else if r.NeedsIntro(s, ls) {
      FillTwice(r, s, ls[r.Blanks(ls[1..]) + 1..]);
      var rest := r.Fill(s, ls[r.Blanks(ls[1..]) + 1..]);
      FilledHead(r, s, ls[0], rest);
      FourLines(ls[0], r.gap, r.intro(ls[0]), r.gap, rest);
    } else {
      StillFine(r, s, ls);
      FillTwice(r, r.advance(s, ls[0]), ls[1..]);
      var rest := r.Fill(r.advance(s, ls[0]), ls[1..]);
      assert ([ls[0]] + rest)[1..] == rest;
    }
  }

  lemma FourLines<T>(a: T, b: T, c: T, d: T, rest: seq<T>)
    ensures [a, b, c, d] + rest == [a] + ([b] + ([c] + ([d] + rest)))
  {
  }

  /** A heading with its introduction is left alone. */
  lemma FilledHead<L(!new), S(!new)>(r: Rules<L, S>, s: S, h: L, rest: seq<L>)
    requires Lawful(r) && r.level(h) > 0 && r.Fill(s, rest) == rest
    ensures var ls := [h] + ([r.gap] + ([r.intro(h)] + ([r.gap] + rest))); r.Fill(s, ls) == ls
  {
    var c := [r.gap] + rest;
    var b := [r.intro(h)] + c;
    var a := [r.gap] + b;
    KeepsLine(r, s, r.gap, rest);
    KeepsLine(r, s, r.intro(h), c);
    KeepsLine(r, s, r.gap, b);
    assert a[1..] == b && b[0] == r.intro(h) && a[1] == b[0];
    assert r.Blanks(a) == 1;
    assert ([h] + a)[1..] == a && ([h] + a)[2] == a[1];
    KeepsLine(r, s, h, a);
  }

  lemma KeepsLine<L(!new), S(!new)>(r: Rules<L, S>, s: S, l: L, rest: seq<L>)
    requires r.advance(s, l) == s && !r.NeedsIntro(s, [l] + rest) && r.Fill(s, rest) == rest
    ensures r.Fill(s, [l] + rest) == [l] + rest
  {
    assert ([l] + rest)[1..] == rest;
  }

  // ---- the newest release section ----

  /** Three parts: no release heading, a section that starts with the only one, and nothing or the next release. */
  ghost predicate Parts<L, S>(r: Rules<L, S>, pre: seq<L>, section: seq<L>, post: seq<L>) {
    && r.Scan(r.outside, pre) == |pre| && r.Run(r.outside, pre) == r.outside
    && section != [] && r.level(section[0]) == 2
    && r.Scan(r.outside, section[1..]) == |section| - 1
    && (post != [] ==> r.level(post[0]) == 2 && r.Run(r.outside, section[1..]) == r.outside)
  }

  lemma Split<L(!new), S(!new)>(r: Rules<L, S>, ls: seq<L>)
    requires Lawful(r)
    ensures var a, b := r.Start(ls), r.End(ls);
            && ls == ls[..a] + ls[a..b] + ls[b..]
            && (a < |ls| ==> Parts(r, ls[..a], ls[a..b], ls[b..]))
            && (a == |ls| ==> r.Introduced(ls) == ls)
  {
    if r.Start(ls) < |ls| { PartsOf(r, ls); }
  }

  lemma PartsOf<L(!new), S(!new)>(r: Rules<L, S>, ls: seq<L>)
    requires Lawful(r) && r.Start(ls) < |ls|
    ensures Parts(r, ls[..r.Start(ls)], ls[r.Start(ls)..r.End(ls)], ls[r.End(ls)..])
  {
    var a := r.Start(ls);
    var tail := ls[a + 1..];
    var n := r.Scan(r.outside, tail);
    ScanStops(r, r.outside, ls);
    ScanStops(r, r.outside, tail);
    CutOut(ls, a, n);
  }

  lemma CutOut<T>(s: seq<T>, a: nat, n: nat)
    requires a + 1 + n <= |s|
    ensures s[a..a + 1 + n][1..] == s[a + 1..][..n] && s[a..a + 1 + n][0] == s[a]
    ensures a + 1 + n < |s| ==> s[a + 1 + n..][0] == s[a + 1..][n]
  {
  }

  /** Three such parts are found again. */
  lemma Rejoin<L(!new), S(!new)>(r: Rules<L, S>, pre: seq<L>, section: seq<L>, post: seq<L>)
    requires Lawful(r) && Parts(r, pre, section, post)
    ensures r.Start(pre + section + post) == |pre|
    ensures r.End(pre + section + post) == |pre + section|
  {
    PutTogether(pre, section, post);
    ScanAppend(r, r.outside, pre, section + post);
    ScanAppend(r, r.outside, section[1..], post);
  }

  lemma PutTogether<T>(a: seq<T>, b: seq<T>, c: seq<T>)
    requires b != []
    ensures a + b + c == a + (b + c) && (a + b + c)[|a| + 1..] == b[1..] + c && (a + b + c)[|a|] == b[0] == (b + c)[0]
    ensures (a + b + c)[..|a|] == a && (a + b + c)[|a|..|a + b|] == b && (a + b + c)[|a + b|..] == c
  {
  }

  lemma IntroducedParts<L(!new), S(!new)>(r: Rules<L, S>, pre: seq<L>, section: seq<L>, post: seq<L>)
    requires Lawful(r) && Parts(r, pre, section, post)
    ensures r.Introduced(pre + section + post) == pre + r.Fill(r.outside, section) + post
  {
    Rejoin(r, pre, section, post);
    PutTogether(pre, section, post);
  }

  lemma TailAfterIntro<L(!new), S(!new)>(r: Rules<L, S>, s: S, section: seq<L>)
    requires Lawful(r) && section != [] && r.NeedsIntro(s, section) && r.Scan(s, section[1..]) == |section| - 1
    ensures var filled := r.Fill(s, section);
            && filled != [] && filled[0] == section[0]
            && r.Scan(s, filled[1..]) == |filled| - 1 && r.Run(s, filled[1..]) == r.Run(s, section[1..])
  {
    FillAdds(r, s, section);
    HeadIsQuiet(r, s, section[0]);
    var rest, added := section[r.Blanks(section[1..]) + 1..], [r.gap, r.intro(section[0]), r.gap];
    LeadingBlanks(r, s, section[1..]);
    FillKeepsScan(r, s, rest);
    FillKeepsRun(r, s, rest);
    TailOf(section[0], added, r.Fill(s, rest));
    ScanAppend(r, s, added, r.Fill(s, rest));
    RunAppend(r, s, added, r.Fill(s, rest));
  }

  lemma TailOf<T>(x: T, a: seq<T>, b: seq<T>)
    ensures ([x] + a + b)[0] == x && ([x] + a + b)[1..] == a + b
  {
  }

  lemma TailWithoutIntro<L(!new), S(!new)>(r: Rules<L, S>, s: S, section: seq<L>)
    requires Lawful(r) && section != [] && !r.NeedsIntro(s, section) && r.Scan(s, section[1..]) == |section| - 1
    requires r.advance(s, section[0]) == s
    ensures var filled := r.Fill(s, section);
            && filled != [] && filled[0] == section[0]
            && r.Scan(s, filled[1..]) == |filled| - 1 && r.Run(s, filled[1..]) == r.Run(s, section[1..])
  {
    FillKeepsScan(r, s, section[1..]);
    FillKeepsRun(r, s, section[1..]);
    assert r.Fill(s, section)[1..] == r.Fill(s, section[1..]);
  }

  /** The filled section still starts with the only release heading, and ends in the same state. */
  lemma FillKeepsParts<L(!new), S(!new)>(r: Rules<L, S>, pre: seq<L>, section: seq<L>, post: seq<L>)
    requires Lawful(r) && Parts(r, pre, section, post)
    ensures Parts(r, pre, r.Fill(r.outside, section), post)
  {
    if r.NeedsIntro(r.outside, section) {
      TailAfterIntro(r, r.outside, section);
    } else {
      TailWithoutIntro(r, r.outside, section);
    }
  }

  lemma IntroducedTwice<L(!new), S(!new)>(r: Rules<L, S>, ls: seq<L>)
    requires Lawful(r)
    ensures r.Introduced(r.Introduced(ls)) == r.Introduced(ls)
  {
    Split(r, ls);
    var a, b := r.Start(ls), r.End(ls);
    if a < |ls| {
      var pre, section, post := ls[..a], ls[a..b], ls[b..];
      FillKeepsParts(r, pre, section, post);
      IntroducedParts(r, pre, r.Fill(r.outside, section), post);
      FillTwice(r, r.outside, section);
    }
  }

  /** Introductions leave nothing to mark. */
  lemma IntroducedStaysMarked<L(!new), S(!new)>(r: Rules<L, S>, ls: seq<L>)
    requires Lawful(r) && r.Marked(r.outside, ls) == ls
    ensures r.Marked(r.outside, r.Introduced(ls)) == r.Introduced(ls)
  {
    Split(r, ls);
    var s, a, b := r.outside, r.Start(ls), r.End(ls);
    if a < |ls| {
      var pre, section, post := ls[..a], ls[a..b], ls[b..];
      var filled := r.Fill(s, section);
      MarkedAppend(r, s, pre + section, post);
      MarkedAppend(r, s, pre, section);
      RunAppend(r, s, pre, section);
      ThreeParts(r.Marked(s, pre), r.Marked(s, section), r.Marked(r.Run(s, section), post), pre, section, post);
      FillKeepsMarked(r, s, section);
      FillKeepsRun(r, s, section);
      MarkedAppend(r, s, pre + filled, post);
      MarkedAppend(r, s, pre, filled);
      RunAppend(r, s, pre, filled);
    }
  }

  lemma ThreeParts<T>(a: seq<T>, b: seq<T>, c: seq<T>, a': seq<T>, b': seq<T>, c': seq<T>)
    requires a + b + c == a' + b' + c' && |a| == |a'| && |b| == |b'|
    ensures a == a' && b == b' && c == c'
  {
    assert a == (a + b + c)[..|a|] && b == (a + b + c)[|a|..|a| + |b|] && c == (a + b + c)[|a| + |b|..];
    assert a' == (a' + b' + c')[..|a|] && b' == (a' + b' + c')[|a|..|a| + |b|] && c' == (a' + b' + c')[|a| + |b|..];
  }

  /** Normalising the lines twice is normalising them once. */
  lemma NormalizedTwice<L(!new), S(!new)>(r: Rules<L, S>, ls: seq<L>)
    requires Lawful(r)
    ensures r.Normalized(r.Normalized(ls)) == r.Normalized(ls)
  {
    var marked := r.Marked(r.outside, ls);
    MarkedTwice(r, r.outside, ls);
    IntroducedStaysMarked(r, marked);
    IntroducedTwice(r, marked);
  }

  // ---- what is left alone ----

  /** The lines inside fences, with the fences. */
  function Fenced<L, S(==)>(r: Rules<L, S>, s: S, ls: seq<L>): seq<L> {
    if ls == [] then []
    else (if s != r.outside || r.fence(ls[0]) then [ls[0]] else []) + Fenced(r, r.advance(s, ls[0]), ls[1..])
  }

  lemma {:induction false} FencedAppend<L, S>(r: Rules<L, S>, s: S, a: seq<L>, b: seq<L>)
    ensures Fenced(r, s, a + b) == Fenced(r, s, a) + Fenced(r, r.Run(s, a), b)
  {
    if a == [] {
      assert a + b == b;
    } else {
      assert (a + b)[1..] == a[1..] + b;
      FencedAppend(r, r.advance(s, a[0]), a[1..], b);
    }
  }

  lemma {:induction false} MarkedKeepsFenced<L(!new), S(!new)>(r: Rules<L, S>, s: S, ls: seq<L>)
    requires Lawful(r)
    ensures Fenced(r, s, r.Marked(s, ls)) == Fenced(r, s, ls)
  {
    if ls != [] {
      var first, rest := r.MarkedLine(s, ls[0]), r.Marked(r.advance(s, ls[0]), ls[1..]);
      assert ([first] + rest)[1..] == rest;
      MarkedKeepsFenced(r, r.advance(s, ls[0]), ls[1..]);
    }
  }

  /** Quiet lines outside fences are not fenced. */
  lemma {:induction false} QuietUnfenced<L(!new), S(!new)>(r: Rules<L, S>, ls: seq<L>)
    requires forall i :: 0 <= i < |ls| ==> Quiet(r, ls[i])
    ensures Fenced(r, r.outside, ls) == [] && r.Run(r.outside, ls) == r.outside
  {
    if ls != [] { QuietUnfenced(r, ls[1..]); }
  }

  /** Dropping quiet lines in front drops nothing fenced. */
  lemma UnfencedFront<L(!new), S(!new)>(r: Rules<L, S>, front: seq<L>, rest: seq<L>)
    requires forall i :: 0 <= i < |front| ==> Quiet(r, front[i])
    ensures Fenced(r, r.outside, front + rest) == Fenced(r, r.outside, rest)
  {
    QuietUnfenced(r, front);
    FencedAppend(r, r.outside, front, rest);
  }

  lemma HeadingUnfenced<L(!new), S(!new)>(r: Rules<L, S>, h: L, rest: seq<L>)
    requires Lawful(r) && r.level(h) > 0
    ensures Fenced(r, r.outside, [h] + rest) == Fenced(r, r.outside, rest)
  {
    assert ([h] + rest)[1..] == rest;
  }

  lemma {:induction false} FillKeepsFenced<L(!new), S(!new)>(r: Rules<L, S>, s: S, ls: seq<L>)
    requires Lawful(r)
    ensures Fenced(r, s, r.Fill(s, ls)) == Fenced(r, s, ls)
    decreases |ls|
  {
    if ls == [] {
    } else if r.NeedsIntro(s, ls) {
      var n := r.Blanks(ls[1..]);
      FillKeepsFenced(r, s, ls[n + 1..]);
      IntroUnfenced(r, ls, r.Fill(s, ls[n + 1..]));
    } else {
      FillKeepsFenced(r, r.advance(s, ls[0]), ls[1..]);
      FencedAppend(r, s, [ls[0]], r.Fill(r.advance(s, ls[0]), ls[1..]));
    }
  }

  lemma IntroUnfenced<L(!new), S(!new)>(r: Rules<L, S>, ls: seq<L>, filled: seq<L>)
    requires Lawful(r) && ls != [] && r.NeedsIntro(r.outside, ls)
    ensures Fenced(r, r.outside, ls) == Fenced(r, r.outside, ls[r.Blanks(ls[1..]) + 1..])
    ensures Fenced(r, r.outside, [ls[0], r.gap, r.intro(ls[0]), r.gap] + filled) == Fenced(r, r.outside, filled)
  {
    var n := r.Blanks(ls[1..]);
    UnfencedFront(r, ls[1..][..n], ls[n + 1..]);
    assert ls[1..] == ls[1..][..n] + ls[n + 1..];
    AddedUnfenced(r, ls[0], filled);
  }

  lemma AddedUnfenced<L(!new), S(!new)>(r: Rules<L, S>, h: L, filled: seq<L>)
    requires Lawful(r) && r.level(h) > 0
    ensures Fenced(r, r.outside, [h, r.gap, r.intro(h), r.gap] + filled) == Fenced(r, r.outside, filled)
  {
    var added := [r.gap, r.intro(h), r.gap];
    UnfencedFront(r, added, filled);
    HeadingUnfenced(r, h, added + filled);
    assert [h] + (added + filled) == [h, r.gap, r.intro(h), r.gap] + filled;
  }

  /** Fenced code is never altered, dropped or moved. */
  lemma FencedCodeIsUntouched<L(!new), S(!new)>(r: Rules<L, S>, ls: seq<L>)
    requires Lawful(r)
    ensures Fenced(r, r.outside, r.Normalized(ls)) == Fenced(r, r.outside, ls)
  {
    var s, marked := r.outside, r.Marked(r.outside, ls);
    MarkedKeepsFenced(r, s, ls);
    Split(r, marked);
    var a, b := r.Start(marked), r.End(marked);
    if a < |marked| {
      var pre, section, post := marked[..a], marked[a..b], marked[b..];
      FillKeepsFenced(r, s, section);
      FillKeepsRun(r, s, section);
      FencedAppend(r, s, pre + section, post);
      FencedAppend(r, s, pre, section);
      RunAppend(r, s, pre, section);
      FencedAppend(r, s, pre + r.Fill(s, section), post);
      FencedAppend(r, s, pre, r.Fill(s, section));
      RunAppend(r, s, pre, r.Fill(s, section));
    }
  }

  ghost predicate IsIntro<L(!new), S>(r: Rules<L, S>, l: L) {
    exists h :: r.level(h) > 0 && l == r.intro(h)
  }

  /** The lines that are neither blank nor introductions. */
  ghost function Prose<L(!new), S>(r: Rules<L, S>, ls: seq<L>): seq<L> {
    if ls == [] then [] else (if r.blank(ls[0]) || IsIntro(r, ls[0]) then [] else [ls[0]]) + Prose(r, ls[1..])
  }

  lemma {:induction false} ProseAppend<L(!new), S>(r: Rules<L, S>, a: seq<L>, b: seq<L>)
    ensures Prose(r, a + b) == Prose(r, a) + Prose(r, b)
  {
    if a == [] {
      assert a + b == b;
    } else {
      assert (a + b)[1..] == a[1..] + b;
      ProseAppend(r, a[1..], b);
    }
  }

  lemma {:induction false} NoProse<L(!new), S>(r: Rules<L, S>, ls: seq<L>)
    requires forall i :: 0 <= i < |ls| ==> r.blank(ls[i]) || IsIntro(r, ls[i])
    ensures Prose(r, ls) == []
  {
    if ls != [] { NoProse(r, ls[1..]); }
  }

  lemma ProselessFront<L(!new), S>(r: Rules<L, S>, front: seq<L>, rest: seq<L>)
    requires forall i :: 0 <= i < |front| ==> r.blank(front[i]) || IsIntro(r, front[i])
    ensures Prose(r, front + rest) == Prose(r, rest)
  {
    NoProse(r, front);
    ProseAppend(r, front, rest);
  }

  lemma IntroProseless<L(!new), S>(r: Rules<L, S>, h: L, front: seq<L>, rest: seq<L>, filled: seq<L>)
    requires r.level(h) > 0 && r.blank(r.gap) && forall i :: 0 <= i < |front| ==> r.blank(front[i])
    requires Prose(r, filled) == Prose(r, rest)
    ensures Prose(r, [h, r.gap, r.intro(h), r.gap] + filled) == Prose(r, [h] + (front + rest))
  {
    var added := [r.gap, r.intro(h), r.gap];
    assert IsIntro(r, added[1]);
    ProselessFront(r, added, filled);
    ProselessFront(r, front, rest);
    ProseAppend(r, [h], added + filled);
    ProseAppend(r, [h], front + rest);
    assert [h] + (added + filled) == [h, r.gap, r.intro(h), r.gap] + filled;
  }

  lemma {:induction false} FillKeepsProse<L(!new), S(!new)>(r: Rules<L, S>, s: S, ls: seq<L>)
    requires Lawful(r)
    ensures Prose(r, r.Fill(s, ls)) == Prose(r, ls)
    decreases |ls|
  {
    if ls == [] {
    } else if r.NeedsIntro(s, ls) {
      var n := r.Blanks(ls[1..]);
      var front, rest := ls[1..][..n], ls[n + 1..];
      FillKeepsProse(r, s, rest);
      IntroProseless(r, ls[0], front, rest, r.Fill(s, rest));
      TailSplits(ls, n);
      HeadAndTail(ls);
    } else {
      FillKeepsProse(r, r.advance(s, ls[0]), ls[1..]);
      SameTailProse(r, ls[0], r.Fill(r.advance(s, ls[0]), ls[1..]), ls[1..]);
      HeadAndTail(ls);
    }
  }

  lemma SameTailProse<L(!new), S>(r: Rules<L, S>, l: L, a: seq<L>, b: seq<L>)
    requires Prose(r, a) == Prose(r, b)
    ensures Prose(r, [l] + a) == Prose(r, [l] + b)
  {
    assert ([l] + a)[1..] == a && ([l] + b)[1..] == b;
  }

  lemma TailSplits<T>(s: seq<T>, n: nat)
    requires n < |s|
    ensures s[1..][..n] + s[n + 1..] == s[1..]
  {
  }

  lemma HeadAndTail<T>(s: seq<T>)
    requires s != []
    ensures [s[0]] + s[1..] == s
  {
  }

  /** Nothing but blank lines and introductions comes or goes: every other line stays, in order, up to its marker. */
  lemma ProseIsKept<L(!new), S(!new)>(r: Rules<L, S>, ls: seq<L>)
    requires Lawful(r)
    ensures Prose(r, r.Normalized(ls)) == Prose(r, r.Marked(r.outside, ls))
  {
    var marked := r.Marked(r.outside, ls);
    Split(r, marked);
    var a, b := r.Start(marked), r.End(marked);
    var pre, section, post := marked[..a], marked[a..b], marked[b..];
    FillKeepsProse(r, r.outside, section);
    ProseAppend(r, pre + section, post);
    ProseAppend(r, pre, section);
    ProseAppend(r, pre + r.Fill(r.outside, section), post);
    ProseAppend(r, pre, r.Fill(r.outside, section));
  }

  lemma {:induction false} MarkedKeepsScan<L(!new), S(!new)>(r: Rules<L, S>, s: S, ls: seq<L>)
    requires Lawful(r)
    ensures r.Scan(s, r.Marked(s, ls)) == r.Scan(s, ls)
  {
    if ls != [] {
      var first, rest := r.MarkedLine(s, ls[0]), r.Marked(r.advance(s, ls[0]), ls[1..]);
      assert ([first] + rest)[1..] == rest;
      MarkedKeepsScan(r, r.advance(s, ls[0]), ls[1..]);
    }
  }

  lemma {:induction false} MarkedAt<L, S>(r: Rules<L, S>, s: S, ls: seq<L>, i: nat)
    requires i < |ls|
    ensures r.Marked(s, ls)[i] == r.MarkedLine(r.Run(s, ls[..i]), ls[i])
    ensures r.Marked(s, ls)[i + 1..] == r.Marked(r.advance(r.Run(s, ls[..i]), ls[i]), ls[i + 1..])
  {
    if i > 0 {
      MarkedAt(r, r.advance(s, ls[0]), ls[1..], i - 1);
      assert ls[..i][1..] == ls[1..][..i - 1] && ls[1..][i..] == ls[i + 1..];
    }
  }

  /** Outside the newest release section only list markers change. */
  lemma OlderReleasesKeepTheirText<L(!new), S(!new)>(r: Rules<L, S>, ls: seq<L>)
    requires Lawful(r)
    ensures var marked, after, a, k := r.Marked(r.outside, ls), r.Normalized(ls), r.Start(ls), |ls| - r.End(ls);
            && a + k <= |after|
            && after[..a] == marked[..a]
            && after[|after| - k..] == marked[|ls| - k..]
  {
    SameSection(r, ls);
    var marked := r.Marked(r.outside, ls);
    var pre, filled, post := marked[..r.Start(ls)], r.Fill(r.outside, marked[r.Start(ls)..r.End(ls)]), marked[r.End(ls)..];
    assert (pre + filled + post)[..|pre|] == pre && (pre + filled + post)[|pre + filled|..] == post;
  }

  /** Marking does not move the newest release section. */
  lemma SameSection<L(!new), S(!new)>(r: Rules<L, S>, ls: seq<L>)
    requires Lawful(r)
    ensures var marked := r.Marked(r.outside, ls); r.Start(marked) == r.Start(ls) && r.End(marked) == r.End(ls)
  {
    var a := r.Start(ls);
    MarkedKeepsScan(r, r.outside, ls);
    if a < |ls| {
      ScanStops(r, r.outside, ls);
      MarkedAt(r, r.outside, ls, a);
      MarkedKeepsScan(r, r.advance(r.outside, ls[a]), ls[a + 1..]);
    }
  }

  /** What normalising keeps: fenced code exactly, every line but blanks and introductions up to its marker, and outside
      the newest release everything but list markers. */
  ghost predicate KeepsText<L(!new), S>(r: Rules<L, S>, before: seq<L>, after: seq<L>) {
    var marked, a, k := r.Marked(r.outside, before), r.Start(before), |before| - r.End(before);
    && Fenced(r, r.outside, after) == Fenced(r, r.outside, before)
    && Prose(r, after) == Prose(r, marked)
    && a + k <= |after| && after[..a] == marked[..a] && after[|after| - k..] == marked[|before| - k..]
  }

  lemma NormalizedKeepsText<L(!new), S(!new)>(r: Rules<L, S>, ls: seq<L>)
    requires Lawful(r)
    ensures KeepsText(r, ls, r.Normalized(ls))
  {
    FencedCodeIsUntouched(r, ls);
    ProseIsKept(r, ls);
    OlderReleasesKeepTheirText(r, ls);
  }

  // ---- lines that a text splits into ----

  /** Every line is sound, and every line but the last is closed by its line break. */
  predicate Broken<L>(sound: L -> bool, closed: L -> bool, ls: seq<L>) {
    ls == [] || (sound(ls[0]) && (|ls| > 1 ==> closed(ls[0])) && Broken(sound, closed, ls[1..]))
  }

  predicate AllClosed<L>(sound: L -> bool, closed: L -> bool, ls: seq<L>) {
    forall i :: 0 <= i < |ls| ==> sound(ls[i]) && closed(ls[i])
  }

  lemma {:induction false} BrokenAppend<L>(sound: L -> bool, closed: L -> bool, a: seq<L>, b: seq<L>)
    ensures Broken(sound, closed, a + b) <==>
            if b == [] then Broken(sound, closed, a) else AllClosed(sound, closed, a) && Broken(sound, closed, b)
  {
    if a == [] || b == [] {
      assert a + b == if a == [] then b else a;
    } else {
      assert (a + b)[1..] == a[1..] + b;
      BrokenAppend(sound, closed, a[1..], b);
      assert AllClosed(sound, closed, a) <==> sound(a[0]) && closed(a[0]) && AllClosed(sound, closed, a[1..]);
    }
  }

  /** What is inserted is closed. */
  ghost predicate ClosedInserts<L(!new), S>(r: Rules<L, S>, sound: L -> bool, closed: L -> bool) {
    && sound(r.gap) && closed(r.gap)
    && forall h :: r.level(h) > 0 ==> sound(r.intro(h)) && closed(r.intro(h))
  }

  lemma {:induction false} FillKeepsBroken<L(!new), S(!new)>(r: Rules<L, S>, sound: L -> bool, closed: L -> bool, s: S, ls: seq<L>)
    requires Lawful(r) && ClosedInserts(r, sound, closed)
    ensures r.Fill(s, ls) == [] <==> ls == []
    ensures Broken(sound, closed, ls) ==> Broken(sound, closed, r.Fill(s, ls))
    ensures AllClosed(sound, closed, ls) ==> AllClosed(sound, closed, r.Fill(s, ls))
    decreases |ls|
  {
    if ls == [] {
    } else if r.NeedsIntro(s, ls) {
      var n := r.Blanks(ls[1..]);
      var front, rest := ls[..n + 1], ls[n + 1..];
      FillKeepsBroken(r, sound, closed, s, rest);
      assert ls == front + rest && front[0] == ls[0];
      ReplaceFront(sound, closed, front, [ls[0], r.gap, r.intro(ls[0]), r.gap], rest, r.Fill(s, rest));
    } else {
      FillKeepsBroken(r, sound, closed, r.advance(s, ls[0]), ls[1..]);
      ReplaceFront(sound, closed, [ls[0]], [ls[0]], ls[1..], r.Fill(r.advance(s, ls[0]), ls[1..]));
      assert [ls[0]] + ls[1..] == ls;
    }
  }

  lemma ReplaceFront<L>(sound: L -> bool, closed: L -> bool, front: seq<L>, added: seq<L>, rest: seq<L>, filled: seq<L>)
    requires rest == [] <==> filled == []
    requires rest == [] ==> front == added
    requires AllClosed(sound, closed, front) ==> AllClosed(sound, closed, added)
    requires Broken(sound, closed, rest) ==> Broken(sound, closed, filled)
    requires AllClosed(sound, closed, rest) ==> AllClosed(sound, closed, filled)
    ensures Broken(sound, closed, front + rest) ==> Broken(sound, closed, added + filled)
    ensures AllClosed(sound, closed, front + rest) ==> AllClosed(sound, closed, added + filled)
  {
    BrokenAppend(sound, closed, front, rest);
    BrokenAppend(sound, closed, added, filled);
    ClosedTogether(sound, closed, front, rest);
    ClosedTogether(sound, closed, added, filled);
  }

  lemma IntroducedKeepsBroken<L(!new), S(!new)>(r: Rules<L, S>, sound: L -> bool, closed: L -> bool, ls: seq<L>)
    requires Lawful(r) && ClosedInserts(r, sound, closed) && Broken(sound, closed, ls)
    ensures Broken(sound, closed, r.Introduced(ls))
  {
    Split(r, ls);
    var pre, section, post := ls[..r.Start(ls)], ls[r.Start(ls)..r.End(ls)], ls[r.End(ls)..];
    FillKeepsBroken(r, sound, closed, r.outside, section);
    BrokenAppend(sound, closed, pre + section, post);
    BrokenAppend(sound, closed, pre, section);
    BrokenAppend(sound, closed, pre + r.Fill(r.outside, section), post);
    BrokenAppend(sound, closed, pre, r.Fill(r.outside, section));
    ClosedTogether(sound, closed, pre, section);
    ClosedTogether(sound, closed, pre, r.Fill(r.outside, section));
  }

  /** Every line at its place: sound, and closed unless it is the last. */
  lemma {:induction false} BrokenAt<L>(sound: L -> bool, closed: L -> bool, ls: seq<L>)
    ensures Broken(sound, closed, ls) <==> forall i :: 0 <= i < |ls| ==> sound(ls[i]) && (i < |ls| - 1 ==> closed(ls[i]))
  {
    if ls != [] {
      BrokenAt(sound, closed, ls[1..]);
      assert forall i :: 0 <= i < |ls| - 1 ==> ls[1..][i] == ls[i + 1];
      assert forall i :: 0 < i < |ls| ==> ls[i] == ls[1..][i - 1];
    }
  }

  /** Blank lines are as they come out of a text. */
  ghost predicate BlanksFit<L, S>(r: Rules<L, S>, sound: L -> bool, closed: L -> bool, ls: seq<L>) {
    forall i :: 0 <= i < |ls| && r.blank(ls[i]) ==> sound(ls[i]) && (i < |ls| - 1 ==> closed(ls[i]))
  }

  /** Introductions hide no missing line break: they only replace blank lines. */
  lemma {:induction false} FillShowsBroken<L(!new), S(!new)>(r: Rules<L, S>, sound: L -> bool, closed: L -> bool, s: S, ls: seq<L>)
    requires Lawful(r) && ClosedInserts(r, sound, closed) && BlanksFit(r, sound, closed, ls)
    ensures Broken(sound, closed, r.Fill(s, ls)) ==> Broken(sound, closed, ls)
    ensures AllClosed(sound, closed, r.Fill(s, ls)) ==> AllClosed(sound, closed, ls)
    decreases |ls|
  {
    if ls == [] {
    } else if r.NeedsIntro(s, ls) {
      var n := r.Blanks(ls[1..]);
      var front, rest := ls[..n + 1], ls[n + 1..];
      var added := [ls[0], r.gap, r.intro(ls[0]), r.gap];
      FillShowsBroken(r, sound, closed, s, rest);
      FillKeepsBroken(r, sound, closed, s, rest);
      assert ls == front + rest;
      forall i | 0 < i < |front|
        ensures sound(front[i]) && closed(front[i])
      {
        assert front[i] == ls[1..][i - 1] == ls[i];
      }
      assert AllClosed(sound, closed, added) ==> sound(added[0]) && closed(added[0]);
      ReplaceFront(sound, closed, added, front, r.Fill(s, rest), rest);
    } else {
      var rest := r.Fill(r.advance(s, ls[0]), ls[1..]);
      FillShowsBroken(r, sound, closed, r.advance(s, ls[0]), ls[1..]);
      FillKeepsBroken(r, sound, closed, r.advance(s, ls[0]), ls[1..]);
      ReplaceFront(sound, closed, [ls[0]], [ls[0]], rest, ls[1..]);
      assert [ls[0]] + ls[1..] == ls;
    }
  }

  lemma IntroducedShowsBroken<L(!new), S(!new)>(r: Rules<L, S>, sound: L -> bool, closed: L -> bool, ls: seq<L>)
    requires Lawful(r) && ClosedInserts(r, sound, closed) && BlanksFit(r, sound, closed, ls)
    requires Broken(sound, closed, r.Introduced(ls))
    ensures Broken(sound, closed, ls)
  {
    Split(r, ls);
    var pre, section, post := ls[..r.Start(ls)], ls[r.Start(ls)..r.End(ls)], ls[r.End(ls)..];
    FillKeepsBroken(r, sound, closed, r.outside, section);
    FillShowsBroken(r, sound, closed, r.outside, section);
    BrokenAppend(sound, closed, pre + section, post);
    BrokenAppend(sound, closed, pre, section);
    BrokenAppend(sound, closed, pre + r.Fill(r.outside, section), post);
    BrokenAppend(sound, closed, pre, r.Fill(r.outside, section));
    ClosedTogether(sound, closed, pre, section);
    ClosedTogether(sound, closed, pre, r.Fill(r.outside, section));
  }

  lemma ClosedTogether<L>(sound: L -> bool, closed: L -> bool, a: seq<L>, b: seq<L>)
    ensures AllClosed(sound, closed, a + b) <==> AllClosed(sound, closed, a) && AllClosed(sound, closed, b)
  {
    assert forall i :: 0 <= i < |a| ==> (a + b)[i] == a[i];
    assert forall i :: 0 <= i < |b| ==> (a + b)[|a| + i] == b[i];
  }

  // ---- when introductions change anything ----

  /** No heading of the section waits for an introduction. */
  predicate AllIntroduced<L, S(==)>(r: Rules<L, S>, s: S, ls: seq<L>) {
    ls == [] || (!r.NeedsIntro(s, ls) && AllIntroduced(r, r.advance(s, ls[0]), ls[1..]))
  }

  function Weight<L>(w: L -> nat, ls: seq<L>): nat {
    if ls == [] then 0 else w(ls[0]) + Weight(w, ls[1..])
  }

  lemma {:induction false} WeightAppend<L>(w: L -> nat, a: seq<L>, b: seq<L>)
    ensures Weight(w, a + b) == Weight(w, a) + Weight(w, b)
  {
    if a == [] {
      assert a + b == b;
    } else {
      assert (a + b)[1..] == a[1..] + b;
      WeightAppend(w, a[1..], b);
    }
  }

  lemma {:induction false} Weightless<L>(w: L -> nat, ls: seq<L>)
    requires forall i :: 0 <= i < |ls| ==> w(ls[i]) == 0
    ensures Weight(w, ls) == 0
  {
    if ls != [] { Weightless(w, ls[1..]); }
  }

  /** When blank lines weigh nothing and introductions something, filling keeps the weight exactly when nothing was missing,
      and then it keeps every line. */
  lemma {:induction false} FillWeighs<L(!new), S(!new)>(r: Rules<L, S>, w: L -> nat, s: S, ls: seq<L>)
    requires Lawful(r) && (forall l :: r.blank(l) ==> w(l) == 0) && forall h :: r.level(h) > 0 ==> w(r.intro(h)) > 0
    ensures Weight(w, r.Fill(s, ls)) >= Weight(w, ls)
    ensures Weight(w, r.Fill(s, ls)) == Weight(w, ls) <==> AllIntroduced(r, s, ls)
    ensures AllIntroduced(r, s, ls) ==> r.Fill(s, ls) == ls
    decreases |ls|
  {
    if ls == [] {
    } else if r.NeedsIntro(s, ls) {
      var n := r.Blanks(ls[1..]);
      var rest := ls[n + 1..];
      FillWeighs(r, w, s, rest);
      Weightless(w, ls[1..][..n]);
      WeightAppend(w, ls[1..][..n], rest);
      TailSplits(ls, n);
      FourWeights(w, ls[0], r.gap, r.intro(ls[0]), r.gap, r.Fill(s, rest));
    } else {
      var rest := r.Fill(r.advance(s, ls[0]), ls[1..]);
      FillWeighs(r, w, r.advance(s, ls[0]), ls[1..]);
      assert ([ls[0]] + rest)[1..] == rest;
      HeadAndTail(ls);
    }
  }

  lemma FourWeights<L>(w: L -> nat, a: L, b: L, c: L, d: L, rest: seq<L>)
    ensures Weight(w, [a, b, c, d] + rest) == w(a) + w(b) + w(c) + w(d) + Weight(w, rest)
  {
    assert ([d] + rest)[1..] == rest;
    assert ([c, d] + rest)[1..] == [d] + rest;
    assert ([b, c, d] + rest)[1..] == [c, d] + rest && Weight(w, [b, c, d] + rest) == w(b) + Weight(w, [c, d] + rest);
    assert ([a, b, c, d] + rest)[1..] == [b, c, d] + rest;
  }

  /** The newest release section has its introductions. */
  predicate SectionIntroduced<L, S(==)>(r: Rules<L, S>, ls: seq<L>) {
    AllIntroduced(r, r.outside, ls[r.Start(ls)..r.End(ls)])
  }

  lemma IntroducedWeighs<L(!new), S(!new)>(r: Rules<L, S>, w: L -> nat, ls: seq<L>)
    requires Lawful(r) && (forall l :: r.blank(l) ==> w(l) == 0) && forall h :: r.level(h) > 0 ==> w(r.intro(h)) > 0
    ensures Weight(w, r.Introduced(ls)) == Weight(w, ls) <==> SectionIntroduced(r, ls)
    ensures SectionIntroduced(r, ls) ==> r.Introduced(ls) == ls
  {
    var pre, section, post := ls[..r.Start(ls)], ls[r.Start(ls)..r.End(ls)], ls[r.End(ls)..];
    CutInThree(ls, r.Start(ls), r.End(ls));
    FillWeighs(r, w, r.outside, section);
    WeightAppend(w, pre + section, post);
    WeightAppend(w, pre, section);
    WeightAppend(w, pre + r.Fill(r.outside, section), post);
    WeightAppend(w, pre, r.Fill(r.outside, section));
  }

  // ---- every heading is served ----

  /** The heading at `i` stands outside fences, and the first line behind it that is not blank, at `j`, starts a list. */
  ghost predicate HeadsList<L, S>(r: Rules<L, S>, s: S, ls: seq<L>, i: nat, j: nat)
    requires i < j < |ls|
  {
    && r.Run(s, ls[..i]) == r.outside && r.level(ls[i]) > 0
    && (forall k :: i < k < j ==> r.blank(ls[k])) && !r.blank(ls[j]) && r.listed(ls[j])
  }

  lemma NeedsIntroIff<L, S>(r: Rules<L, S>, s: S, ls: seq<L>)
    requires ls != []
    ensures r.NeedsIntro(s, ls) <==> exists j :: 0 < j < |ls| && HeadsList(r, s, ls, 0, j)
  {
    var n := r.Blanks(ls[1..]);
    assert forall k :: 0 < k < |ls| ==> ls[1..][k - 1] == ls[k];
    if r.NeedsIntro(s, ls) { assert HeadsList(r, s, ls, 0, n + 1); }
    if j :| 0 < j < |ls| && HeadsList(r, s, ls, 0, j) { assert n == j - 1; }
  }

  lemma HeadsListTail<L, S>(r: Rules<L, S>, s: S, ls: seq<L>, i: nat, j: nat)
    requires 0 < i < j < |ls|
    ensures HeadsList(r, s, ls, i, j) <==> HeadsList(r, r.advance(s, ls[0]), ls[1..], i - 1, j - 1)
  {
    assert ls[..i][1..] == ls[1..][..i - 1];
    assert forall k :: i < k <= j ==> ls[1..][k - 1] == ls[k];
    if HeadsList(r, r.advance(s, ls[0]), ls[1..], i - 1, j - 1) {
      forall k | i < k < j
        ensures r.blank(ls[k])
      {
        assert r.blank(ls[1..][k - 1]);
      }
    }
  }

  /** Introductions are complete exactly when no heading outside fences is followed directly by a list. */
  lemma {:induction false} AllIntroducedIff<L, S>(r: Rules<L, S>, s: S, ls: seq<L>)
    ensures AllIntroduced(r, s, ls) <==> forall i, j :: 0 <= i < j < |ls| ==> !HeadsList(r, s, ls, i, j)
  {
    if ls != [] {
      var t := r.advance(s, ls[0]);
      AllIntroducedIff(r, t, ls[1..]);
      NeedsIntroIff(r, s, ls);
      forall i, j | 0 < i < j < |ls|
        ensures HeadsList(r, s, ls, i, j) <==> HeadsList(r, t, ls[1..], i - 1, j - 1)
      {
        HeadsListTail(r, s, ls, i, j);
      }
      if i, j :| 0 <= i < j < |ls[1..]| && HeadsList(r, t, ls[1..], i, j) {
        assert HeadsList(r, s, ls, i + 1, j + 1);
      }
    }
  }

  /** After normalising, the newest release section has no heading that is followed directly by a list. */
  lemma NormalizedIsIntroduced<L(!new), S(!new)>(r: Rules<L, S>, ls: seq<L>)
    requires Lawful(r)
    ensures var after := r.Normalized(ls);
            var section := after[r.Start(after)..r.End(after)];
            forall i, j :: 0 <= i < j < |section| ==> !HeadsList(r, r.outside, section, i, j)
  {
    var marked := r.Marked(r.outside, ls);
    IntroducedTwice(r, marked);
    IntroducedWeighs(r, l => if r.blank(l) then 0 else 1, r.Normalized(ls));
    var after := r.Normalized(ls);
    AllIntroducedIff(r, r.outside, after[r.Start(after)..r.End(after)]);
  }

  /** A release heading outside fences. */
  ghost predicate IsRelease<L, S>(r: Rules<L, S>, s: S, ls: seq<L>, i: nat)
    requires i < |ls|
  {
    r.Run(s, ls[..i]) == r.outside && r.level(ls[i]) == 2
  }

  lemma {:induction false} ScanIsFirst<L, S>(r: Rules<L, S>, s: S, ls: seq<L>)
    ensures var n := r.Scan(s, ls);
            (n < |ls| ==> IsRelease(r, s, ls, n)) && forall i :: 0 <= i < n ==> !IsRelease(r, s, ls, i)
  {
    if ls != [] && !(s == r.outside && r.level(ls[0]) == 2) {
      ScanIsFirst(r, r.advance(s, ls[0]), ls[1..]);
      forall i | 0 < i < |ls|
        ensures IsRelease(r, s, ls, i) <==> IsRelease(r, r.advance(s, ls[0]), ls[1..], i - 1)
      {
        assert ls[..i][1..] == ls[1..][..i - 1];
      }
    }
  }

  /** The newest section goes from the first release heading outside fences to the next one, or to the end. */
  lemma SectionIs<L, S>(r: Rules<L, S>, ls: seq<L>)
    ensures var a, b := r.Start(ls), r.End(ls);
            && (a < |ls| ==> IsRelease(r, r.outside, ls, a)) && (b < |ls| ==> a < b && IsRelease(r, r.outside, ls, b))
            && forall i :: 0 <= i < b && i != a ==> !IsRelease(r, r.outside, ls, i)
  {
    var a := r.Start(ls);
    ScanIsFirst(r, r.outside, ls);
    if a < |ls| {
      var t := r.advance(r.outside, ls[a]);
      ScanIsFirst(r, t, ls[a + 1..]);
      forall i | a < i < |ls|
        ensures IsRelease(r, r.outside, ls, i) <==> IsRelease(r, t, ls[a + 1..], i - a - 1)
      {
        assert ls[..i] == ls[..a] + ([ls[a]] + ls[a + 1..][..i - a - 1]);
        RunAppend(r, r.outside, ls[..a], [ls[a]] + ls[a + 1..][..i - a - 1]);
        assert ([ls[a]] + ls[a + 1..][..i - a - 1])[1..] == ls[a + 1..][..i - a - 1];
      }
    }
  }

  lemma CutInThree<T>(s: seq<T>, a: nat, b: nat)
    requires a <= b <= |s|
    ensures s[..a] + s[a..b] + s[b..] == s
  {
  }

  // ---- the loops ----

  /** Replace the list markers outside fences. */
  method MarkLines<L, S(==)>(r: Rules<L, S>, ls: seq<L>) returns (marked: seq<L>)
    ensures marked == r.Marked(r.outside, ls)
  {
    marked := [];
    var state := r.outside;
    for i := 0 to |ls|
      invariant marked + r.Marked(state, ls[i..]) == r.Marked(r.outside, ls)
    {
      var wasFenced := state != r.outside;
      var line := ls[i];
      if !wasFenced && !r.fence(ls[i]) {
        line := r.mark(line);
      }
      assert ls[i..][1..] == ls[i + 1..];
      marked := marked + [line];
      state := r.advance(state, ls[i]);
    }
  }

  /** Where the newest release section starts and ends. */
  method FindSection<L, S(==)>(r: Rules<L, S>, ls: seq<L>) returns (start: nat, end: nat)
    ensures start == r.Start(ls) && end == r.End(ls)
  {
    start, end := |ls|, |ls|;
    var state, found, i := r.outside, false, 0;
    while i < |ls|
      invariant i <= |ls| && end == |ls|
      invariant !found ==> start == |ls| && r.Start(ls) == i + r.Scan(state, ls[i..])
      invariant found ==> start == r.Start(ls) < |ls| && r.End(ls) == i + r.Scan(state, ls[i..])
    {
      assert ls[i..][1..] == ls[i + 1..];
      if state == r.outside && r.level(ls[i]) == 2 {
        if !found {
          found, start := true, i;
        } else {
          end := i;
          return;
        }
      }
      state := r.advance(state, ls[i]);
      i := i + 1;
    }
  }

  method SkipBlanks<L, S(==)>(r: Rules<L, S>, ls: seq<L>, from: nat) returns (k: nat)
    requires from <= |ls|
    ensures k == from + r.Blanks(ls[from..])
  {
    k := from;
    while k < |ls| && r.blank(ls[k])
      invariant from <= k <= |ls|
      invariant from + r.Blanks(ls[from..]) == k + r.Blanks(ls[k..])
    {
      assert ls[k..][1..] == ls[k + 1..];
      k := k + 1;
    }
  }

  /** Insert an introduction after every heading that has none, in the newest release only. */
  method EnsureLatestReleaseIntros<L, S(==)>(r: Rules<L, S>, ls: seq<L>) returns (result: seq<L>)
    ensures result == r.Introduced(ls)
  {
    var start, end := FindSection(r, ls);
    if start == |ls| {
      return ls;
    }
    var filled := FillLoop(r, ls[start..end]);
    result := ls[..start] + filled + ls[end..];
  }

  lemma FillStep<L, S>(r: Rules<L, S>, s: S, ls: seq<L>, i: nat, k: nat)
    requires i < |ls| && k == i + 1 + r.Blanks(ls[i + 1..])
    ensures r.Fill(s, ls[i..]) ==
            if s == r.outside && r.level(ls[i]) > 0 && k < |ls| && r.listed(ls[k])
            then [ls[i], r.gap, r.intro(ls[i]), r.gap] + r.Fill(r.advance(s, ls[i]), ls[k..])
            else [ls[i]] + r.Fill(r.advance(s, ls[i]), ls[i + 1..])
  {
    var tail := ls[i..];
    DropMore(ls, i, 1);
    DropMore(ls, i, k - i);
    assert tail[0] == ls[i] && |tail| == |ls| - i;
    assert k < |ls| ==> tail[k - i] == ls[k];
    assert r.NeedsIntro(s, tail) <==> s == r.outside && r.level(ls[i]) > 0 && k < |ls| && r.listed(ls[k]);
  }

  lemma DropMore<T>(s: seq<T>, i: nat, n: nat)
    requires i + n <= |s|
    ensures s[i..][n..] == s[i + n..]
  {
  }

  lemma Regroup<T>(a: seq<T>, b: seq<T>, c: seq<T>)
    ensures a + (b + c) == (a + b) + c
  {
  }

  method FillLoop<L, S(==)>(r: Rules<L, S>, section: seq<L>) returns (result: seq<L>)
    ensures result == r.Fill(r.outside, section)
  {
    result := [];
    var state, i := r.outside, 0;
    while i < |section|
      invariant i <= |section|
      invariant result + r.Fill(state, section[i..]) == r.Fill(r.outside, section)
    {
      var line := section[i];
      var k := SkipBlanks(r, section, i + 1);
      FillStep(r, state, section, i, k);
      var added, next := [line], i + 1;
      if state == r.outside && r.level(line) > 0 && k < |section| && r.listed(section[k]) {
        added, next := [line, r.gap, r.intro(line), r.gap], k;
      }
      state := r.advance(state, line);
      Regroup(result, added, r.Fill(state, section[next..]));
      result := result + added;
      i := next;
    }
  }
}
