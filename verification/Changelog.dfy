/** The changelog normaliser on text: fences after CommonMark 4.5, `*` markers to `-`, introductions. */
module Changelog {
  import opened Common
  import opened ChangelogLines

  /** The fence that is open: its character and its length. */
  type Fence = Option<(char, nat)>

  /** How many leading characters have a property. */
  function Leading(p: char -> bool, l: string): (n: nat)
    ensures n <= |l| && (forall i :: 0 <= i < n ==> p(l[i])) && (n < |l| ==> !p(l[n]))
  {
    if l == "" || !p(l[0]) then 0 else 1 + Leading(p, l[1..])
  }

  function Indent(l: string): (n: nat)
    ensures n <= |l| && (forall i :: 0 <= i < n ==> l[i] == ' ') && (n < |l| ==> l[n] != ' ')
  {
    Leading(c => c == ' ', l)
  }

  // ---- list markers ----

  predicate IsStarred(l: string) {
    var i := Indent(l);
    i <= 3 && i + 1 < |l| && l[i] == '*' && IsSpace(l[i + 1])
  }

  /** The text after the marker and all the white space that follows it. */
  function AfterStar(l: string): string
    requires IsStarred(l)
  {
    var rest := l[Indent(l) + 1..];
    rest[Leading(IsSpace, rest)..]
  }

  function Mark(l: string): string {
    if IsStarred(l) then l[..Indent(l)] + "- " + AfterStar(l) else l
  }

  // ---- fences ----

  /** The fence that a line draws, with what follows it, up to the newline. */
  datatype Drawn = Drawn(sign: char, length: nat, info: string)

  function Chomp(l: string): string {
    if l != "" && l[|l| - 1] == '\n' then l[..|l| - 1] else l
  }

  function DrawnBy(l: string): Option<Drawn> {
    var i := Indent(l);
    if i > 3 || i == |l| || !(l[i] == '`' || l[i] == '~') then None
    else
      var rest := l[i..];
      var n := Leading(c => c == rest[0], rest);
      if n < 3 then None else Some(Drawn(rest[0], n, Chomp(rest[n..])))
  }

  predicate AllSpace(s: string) {
    forall i :: 0 <= i < |s| ==> IsSpace(s[i])
  }

  /** `_advance_fence`: opening fences may not have a backtick after backticks; closing ones must match and stand alone. */
  function Advance(s: Fence, l: string): Fence {
    var d := DrawnBy(l);
    if d.None? then s
    else if s.None? then
      if d.value.sign == '`' && '`' in d.value.info then None else Some((d.value.sign, d.value.length))
    else
      if d.value.sign == s.value.0 && d.value.length >= s.value.1 && AllSpace(d.value.info) then None else s
  }

  // ---- headings ----

  /** `line.rstrip("\r\n")` */
  function TrimBreaks(l: string): string {
    if l != "" && (l[|l| - 1] == '\n' || l[|l| - 1] == '\r') then TrimBreaks(l[..|l| - 1]) else l
  }

  /** 2 or 3 for `## title` and `### title`, else 0. */
  function Level(line: string): nat {
    var l := TrimBreaks(line);
    if |l| >= 4 && l[..2] == "##" && IsSpace(l[2]) then 2
    else if |l| >= 5 && l[..3] == "###" && IsSpace(l[3]) then 3
    else 0
  }

  const RELEASE_INTRO := "Esta se\U{e7}\U{e3}o re\U{fa}ne " + "as altera\U{e7}\U{f5}es " + "publicadas nesta vers\U{e3}o."
  const FEATURE_INTRO := "Os recursos inclu\U{ed}dos " + "nesta vers\U{e3}o s\U{e3}o " + "listados abaixo."
  const FIX_INTRO := "As corre\U{e7}\U{f5}es inclu\U{ed}das " + "nesta vers\U{e3}o s\U{e3}o " + "listadas abaixo."
  const ITEM_INTRO := "Os itens desta " + "se\U{e7}\U{e3}o s\U{e3}o " + "listados abaixo."

  /** The sentence for a heading; `fold` is case folding, and the words looked for cannot straddle the hashes. */
  function HeadingIntro(fold: string -> string, line: string): (r: string)
    ensures r in {RELEASE_INTRO, FEATURE_INTRO, FIX_INTRO, ITEM_INTRO}
  {
    var title := fold(line);
    if Level(line) == 2 then RELEASE_INTRO
    else if Contains(title, "feature") then FEATURE_INTRO
    else if Contains(title, "bug") || Contains(title, "fix") then FIX_INTRO
    else ITEM_INTRO
  }

  /** Which sentence goes with which heading: releases have their own; a section is told by the first of the words that its
      folded title contains. */
  lemma IntroOfHeading(fold: string -> string, line: string)
    ensures var title, intro := fold(line), HeadingIntro(fold, line);
            && (Level(line) == 2 ==> intro == RELEASE_INTRO)
            && (Level(line) == 3 && Within("feature", title) ==> intro == FEATURE_INTRO)
            && (Level(line) == 3 && !Within("feature", title) && (Within("bug", title) || Within("fix", title)) ==> intro == FIX_INTRO)
            && (Level(line) == 3 && !Within("feature", title) && !Within("bug", title) && !Within("fix", title) ==> intro == ITEM_INTRO)
  {
    ContainsIff(fold(line), "feature");
    ContainsIff(fold(line), "bug");
    ContainsIff(fold(line), "fix");
  }

  /** The word stands somewhere in the text. */
  ghost predicate Within(word: string, text: string) {
    exists k :: 0 <= k <= |text| && word <= text[k..]
  }

  ghost predicate HasNoBreak(s: string) {
    forall i :: 0 <= i < |s| ==> !IsBreak(s[i])
  }

  lemma PiecesHaveNoBreak(a: string, b: string, c: string)
    requires a != "" && HasNoBreak(a) && HasNoBreak(b) && HasNoBreak(c)
    ensures HasNoBreak(a + b + c) && (a + b + c)[0] == a[0]
  {
    assert forall i :: 0 <= i < |a + b + c| ==>
             (a + b + c)[i] == if i < |a| then a[i] else if i < |a + b| then b[i - |a|] else c[i - |a + b|];
  }

  ghost predicate IsSentence(s: string) {
    HasNoBreak(s) && s != "" && s[0] in {'E', 'O', 'A'}
  }

  lemma ReleaseIntroIsPlain()
    ensures IsSentence(RELEASE_INTRO)
  {
    PiecesHaveNoBreak("Esta se\U{e7}\U{e3}o re\U{fa}ne ", "as altera\U{e7}\U{f5}es ", "publicadas nesta vers\U{e3}o.");
  }

  lemma FeatureIntroIsPlain()
    ensures IsSentence(FEATURE_INTRO)
  {
    PiecesHaveNoBreak("Os recursos inclu\U{ed}dos ", "nesta vers\U{e3}o s\U{e3}o ", "listados abaixo.");
  }

  lemma FixIntroIsPlain()
    ensures IsSentence(FIX_INTRO)
  {
    PiecesHaveNoBreak("As corre\U{e7}\U{f5}es inclu\U{ed}das ", "nesta vers\U{e3}o s\U{e3}o ", "listadas abaixo.");
  }

  lemma ItemIntroIsPlain()
    ensures IsSentence(ITEM_INTRO)
  {
    PiecesHaveNoBreak("Os itens desta ", "se\U{e7}\U{e3}o s\U{e3}o ", "listados abaixo.");
  }

  lemma IntrosArePlain(intro: string)
    requires intro in {RELEASE_INTRO, FEATURE_INTRO, FIX_INTRO, ITEM_INTRO}
    ensures IsSentence(intro)
  {
    ReleaseIntroIsPlain();
    FeatureIntroIsPlain();
    FixIntroIsPlain();
    ItemIntroIsPlain();
  }

  predicate IsListed(l: string) {
    var t := l[Leading(IsSpace, l)..];
    "#" <= t || "- " <= t || "* " <= t
  }

  function TextRules(fold: string -> string): Rules<string, Fence> {
    Rules(
      None,
      Advance,
      l => DrawnBy(l).Some?,
      Mark,
      Level,
      AllSpace,
      IsListed,
      l => HeadingIntro(fold, l) + "\n",
      "\n")
  }

  // ---- how lines read ----

  /** At most three spaces. */
  ghost predicate Indents(ind: string) {
    |ind| <= 3 && forall i :: 0 <= i < |ind| ==> ind[i] == ' '
  }

  lemma {:induction false} LeadingReads(p: char -> bool, front: string, rest: string)
    requires (forall i :: 0 <= i < |front| ==> p(front[i])) && (rest == "" || !p(rest[0]))
    ensures Leading(p, front + rest) == |front|
  {
    if front == "" {
      assert front + rest == rest;
    } else {
      assert (front + rest)[1..] == front[1..] + rest;
      LeadingReads(p, front[1..], rest);
    }
  }

  /** At most three spaces, a star, and all the white space behind it. */
  ghost predicate ReadsStarred(l: string, ind: string, white: string, rest: string) {
    && l == ind + ("*" + (white + rest)) && Indents(ind)
    && white != "" && AllSpace(white) && (rest == "" || !IsSpace(rest[0]))
  }

  /** A list item with a star becomes one with a dash and a single space, and every other line stays. */
  lemma MarkReads(l: string, ind: string, white: string, rest: string)
    requires ReadsStarred(l, ind, white, rest)
    ensures IsStarred(l) && Mark(l) == ind + "- " + rest
  {
    StarBehind(ind, white + rest);
    LeadingReads(IsSpace, white, rest);
    assert (white + rest)[|white|..] == rest && (white + rest)[0] == white[0];
  }

  lemma StarBehind(ind: string, tail: string)
    requires Indents(ind)
    ensures var l := ind + ("*" + tail); Indent(l) == |ind| && l[..|ind|] == ind && l[|ind|] == '*' && l[|ind| + 1..] == tail
  {
    LeadingReads(c => c == ' ', ind, "*" + tail);
  }

  lemma OthersAreNotMarked(l: string) returns (ind: string, white: string, rest: string)
    ensures IsStarred(l) ==> ReadsStarred(l, ind, white, rest)
    ensures !IsStarred(l) ==> Mark(l) == l
  {
    ind, white, rest := "", "", "";
    if IsStarred(l) {
      var i := Indent(l);
      var tail := l[i + 1..];
      var k := Leading(IsSpace, tail);
      ind, white, rest := l[..i], tail[..k], tail[k..];
      CutAtChar(l, i);
      CutAgain(tail, k);
    }
  }

  lemma CutAtChar(s: string, i: nat)
    requires i < |s|
    ensures s == s[..i] + ([s[i]] + s[i + 1..])
  {
  }

  /** At most three spaces, a run of three or more backticks or tildes, and whatever follows the run. */
  ghost predicate Draws(l: string, ind: string, c: char, n: nat, tail: string) {
    && Indents(ind) && c in {'`', '~'} && n >= 3
    && l == ind + (seq(n, i => c) + tail) && (tail == "" || tail[0] != c)
  }

  lemma DrawnReads(l: string, ind: string, c: char, n: nat, tail: string)
    requires Draws(l, ind, c, n, tail)
    ensures DrawnBy(l) == Some(Drawn(c, n, Chomp(tail)))
  {
    var run := seq(n, i => c);
    var rest := run + tail;
    assert rest[0] == run[0] == c;
    LeadingReads(d => d == ' ', ind, rest);
    assert l[|ind|..] == rest;
    LeadingReads(d => d == rest[0], run, tail);
    assert rest[n..] == tail;
  }

  lemma OthersDrawNothing(l: string) returns (ind: string, tail: string)
    ensures var d := DrawnBy(l); d.Some? ==> Draws(l, ind, d.value.sign, d.value.length, tail) && d.value.info == Chomp(tail)
  {
    ind, tail := "", "";
    if DrawnBy(l).Some? {
      var i := Indent(l);
      var rest := l[i..];
      var n := Leading(c => c == rest[0], rest);
      ind, tail := l[..i], rest[n..];
      RunOf(rest, n);
      CutAgain(l, i);
    }
  }

  lemma RunOf(s: string, n: nat)
    requires 0 < n <= |s| && forall i :: 0 <= i < n ==> s[i] == s[0]
    ensures s == seq(n, i => s[0]) + s[n..]
  {
  }

  lemma CutAgain(s: string, i: nat)
    requires i <= |s|
    ensures s == s[..i] + s[i..]
  {
  }

  /** Outside a fence a line opens one exactly when it draws one and has no backtick behind backticks; inside, it ends the
      fence exactly when it draws the same sign, no shorter, with nothing but white space behind it; else nothing changes. */
  lemma FenceTurns(l: string, ind: string, c: char, n: nat, tail: string, f: (char, nat))
    requires Draws(l, ind, c, n, tail)
    ensures Advance(None, l) == if c == '`' && '`' in tail then None else Some((c, n))
    ensures Advance(Some(f), l) == if c == f.0 && n >= f.1 && AllSpace(tail) then None else Some(f)
  {
    DrawnReads(l, ind, c, n, tail);
    ChompKeeps(tail);
  }

  lemma ChompKeeps(s: string)
    ensures '`' in Chomp(s) <==> '`' in s
    ensures AllSpace(Chomp(s)) <==> AllSpace(s)
  {
    if Chomp(s) != s { assert s == Chomp(s) + ['\n']; }
    assert forall i :: 0 <= i < |Chomp(s)| ==> Chomp(s)[i] == s[i];
  }

  lemma OthersTurnNothing(l: string, s: Fence)
    requires forall ind, c, n, tail :: !Draws(l, ind, c, n, tail)
    ensures Advance(s, l) == s
  {
    var ind, tail := OthersDrawNothing(l);
  }

  /** Nothing but line ends is trimmed, and all of them. */
  lemma {:induction false} TrimReads(l: string)
    ensures TrimBreaks(l) <= l && forall i :: |TrimBreaks(l)| <= i < |l| ==> l[i] in {'\r', '\n'}
    ensures TrimBreaks(l) == "" || TrimBreaks(l)[|TrimBreaks(l)| - 1] !in {'\r', '\n'}
  {
    if l != "" && (l[|l| - 1] == '\n' || l[|l| - 1] == '\r') {
      TrimReads(l[..|l| - 1]);
    }
  }

  /** A heading has two or three hashes, white space and something behind it. */
  lemma LevelReads(line: string)
    ensures forall hashes :: hashes in {"##", "###"} ==>
              (Level(line) == |hashes| <==>
               exists white, title :: TrimBreaks(line) == hashes + [white] + title && IsSpace(white) && title != "")
    ensures Level(line) in {0, 2, 3}
  {
    var l := TrimBreaks(line);
    if Level(line) == 2 {
      assert l == "##" + [l[2]] + l[3..];
    } else if Level(line) == 3 {
      assert l == "###" + [l[3]] + l[4..];
    }
    if white, title :| l == "##" + [white] + title && IsSpace(white) && title != "" {
      assert l[..2] == "##" && l[2] == white;
    }
    if white, title :| l == "###" + [white] + title && IsSpace(white) && title != "" {
      assert l[..3] == "###" && l[3] == white && l[2] == '#';
    }
  }

  /** What calls for an introduction: behind white space, a hash, or a list marker and a space. */
  lemma ListedReads(l: string)
    ensures IsListed(l) <==> exists white, rest :: l == white + rest && AllSpace(white) && StartsList(rest)
  {
    CutAgain(l, Leading(IsSpace, l));
    forall white, rest | l == white + rest && AllSpace(white) && StartsList(rest)
      ensures IsListed(l)
    {
      ListReads(white, rest);
    }
  }

  lemma ListReads(white: string, rest: string)
    requires AllSpace(white) && StartsList(rest)
    ensures IsListed(white + rest)
  {
    LeadingReads(IsSpace, white, rest);
    assert (white + rest)[|white|..] == rest;
  }

  ghost predicate StartsList(s: string) {
    s != "" && (s[0] == '#' || (|s| > 1 && s[0] in {'-', '*'} && s[1] == ' '))
  }

  // ---- the rules are lawful ----

  lemma BlankIsQuiet(fold: string -> string, l: string)
    requires AllSpace(l)
    ensures Quiet(TextRules(fold), l)
  {
    var i := Indent(l);
    TrimmedIsPrefix(l);
  }

  lemma {:induction false} TrimmedIsPrefix(l: string)
    ensures TrimBreaks(l) <= l
  {
    if l != "" && (l[|l| - 1] == '\n' || l[|l| - 1] == '\r') {
      TrimmedIsPrefix(l[..|l| - 1]);
    }
  }

  lemma HeadingIsPlain(fold: string -> string, l: string)
    requires Level(l) > 0
    ensures l != "" && l[0] == '#' && !AllSpace(l) && DrawnBy(l).None? && Mark(l) == l
  {
    TrimmedIsPrefix(l);
    assert TrimBreaks(l)[..2] == "##" || TrimBreaks(l)[..3] == "###";
    assert l[0] == TrimBreaks(l)[0] == '#';
  }

  /** No rule applies to a line that starts with a letter. */
  lemma LetterIsQuiet(fold: string -> string, l: string)
    requires l != "" && l[0] in {'E', 'O', 'A'}
    ensures Quiet(TextRules(fold), l) && !AllSpace(l) && !IsListed(l)
  {
    TrimmedIsPrefix(l);
    assert Indent(l) == 0 && Leading(IsSpace, l) == 0;
    assert l[0..] == l;
  }

  lemma IntroIsQuiet(fold: string -> string, h: string)
    ensures var l := HeadingIntro(fold, h) + "\n"; Quiet(TextRules(fold), l) && !AllSpace(l) && !IsListed(l)
  {
    IntrosArePlain(HeadingIntro(fold, h));
    LetterIsQuiet(fold, HeadingIntro(fold, h) + "\n");
  }

  lemma IndentOf(front: string, c: char, rest: string)
    requires AllSpaces(front) && c != ' '
    ensures Indent(front + [c] + rest) == |front|
  {
    var l := front + [c] + rest;
    assert forall i :: 0 <= i < |front| ==> l[i] == front[i];
    assert l[|front|] == c;
  }

  predicate AllSpaces(s: string) {
    forall i :: 0 <= i < |s| ==> s[i] == ' '
  }

  /** No rule applies to a line whose first character after the indent is a dash, or a star. */
  lemma DashIsPlain(l: string)
    requires Indent(l) < |l| && l[Indent(l)] in {'-', '*'}
    ensures DrawnBy(l).None? && Level(l) == 0
  {
    TrimmedIsPrefix(l);
    assert Indent(l) > 0 ==> l[0] == ' ';
  }

  /** A replaced marker is neither a fence nor a heading nor a marker, and the line it replaced was not a fence either. */
  lemma MarkedIsPlain(l: string)
    requires IsStarred(l)
    ensures DrawnBy(l).None? && Level(l) == 0
    ensures DrawnBy(Mark(l)).None? && Level(Mark(l)) == 0 && !IsStarred(Mark(l))
  {
    var front, rest := l[..Indent(l)], [' '] + AfterStar(l);
    IndentOf(front, '-', rest);
    assert Mark(l) == front + ['-'] + rest;
    DashIsPlain(l);
    DashIsPlain(front + ['-'] + rest);
  }

  lemma RulesAreLawful(fold: string -> string)
    ensures Lawful(TextRules(fold))
  {
    var r := TextRules(fold);
    forall l | r.blank(l)
      ensures Quiet(r, l)
    {
      BlankIsQuiet(fold, l);
    }
    forall l | r.level(l) > 0
      ensures !r.blank(l) && !r.fence(l) && r.mark(l) == l && (forall s :: r.advance(s, l) == s)
      ensures Quiet(r, r.intro(l)) && !r.blank(r.intro(l)) && !r.listed(r.intro(l))
    {
      HeadingIsPlain(fold, l);
      IntroIsQuiet(fold, l);
    }
    forall l | !r.fence(l)
      ensures !r.fence(r.mark(l)) && r.mark(r.mark(l)) == r.mark(l) && r.level(r.mark(l)) == r.level(l)
      ensures forall s :: r.advance(s, l) == s && r.advance(s, r.mark(l)) == s
    {
      if IsStarred(l) { MarkedIsPlain(l); }
    }
  }

  // ---- texts and lines ----

  predicate Closed(l: string) {
    l != "" && IsBreak(l[|l| - 1])
  }

  /** Nonempty, and no line break before the last character. */
  predicate Sound(l: string) {
    l != "" && forall i :: 0 <= i < |l| - 1 ==> !IsBreak(l[i])
  }

  /** The end of the first line. */
  function LineEnd(t: string): (n: nat)
    requires t != ""
    ensures 0 < n <= |t| && (n < |t| ==> IsBreak(t[n - 1])) && forall i :: 0 <= i < n - 1 ==> !IsBreak(t[i])
  {
    var k := Leading(c => !IsBreak(c), t);
    if k < |t| then k + 1 else k
  }

  /** `splitlines(keepends=True)` of a text read with universal newlines. */
  function SplitLines(t: string): seq<string> {
    if t == "" then [] else [t[..LineEnd(t)]] + SplitLines(t[LineEnd(t)..])
  }

  function Flat(ls: seq<string>): string {
    if ls == [] then "" else ls[0] + Flat(ls[1..])
  }

  lemma {:induction false} SplitJoins(t: string)
    ensures Flat(SplitLines(t)) == t
    ensures Broken(Sound, Closed, SplitLines(t))
  {
    if t != "" {
      var n := LineEnd(t);
      SplitJoins(t[n..]);
      assert SplitLines(t)[1..] == SplitLines(t[n..]) && t[..n] + t[n..] == t;
      assert |SplitLines(t)| > 1 ==> n < |t|;
    }
  }

  lemma {:induction false} JoinSplits(ls: seq<string>)
    requires Broken(Sound, Closed, ls)
    ensures SplitLines(Flat(ls)) == ls
  {
    if ls != [] {
      JoinSplits(ls[1..]);
      FirstLine(ls[0], Flat(ls[1..]));
      assert |ls| == 1 ==> Flat(ls[1..]) == "";
    }
  }

  lemma FirstLine(l: string, rest: string)
    requires Sound(l) && (rest != "" ==> Closed(l))
    ensures LineEnd(l + rest) == |l| && (l + rest)[..|l|] == l && (l + rest)[|l|..] == rest
  {
    assert forall i :: 0 <= i < |l| ==> (l + rest)[i] == l[i];
  }

  // ---- the star that swallows its line break ----

  /** A marker with nothing behind it: the pattern takes the line break for white space. */
  predicate Swallows(l: string) {
    IsStarred(l) && AfterStar(l) == "" && Closed(l)
  }

  /** Replacing the marker keeps the line a line, and keeps its break exactly when the marker is not bare. */
  lemma MarkKeepsBreakIff(l: string)
    requires Sound(l)
    ensures Sound(Mark(l)) && (Closed(Mark(l)) <==> Closed(l) && !Swallows(l))
  {
    if IsStarred(l) {
      var i, rest := Indent(l), l[Indent(l) + 1..];
      var k := Leading(IsSpace, rest);
      var front := l[..i] + "- ";
      assert forall j :: 0 <= j < |front| ==> !IsBreak(front[j]);
      assert Mark(l) == front + rest[k..];
      assert forall j :: 0 <= j < |rest| - k ==> rest[k..][j] == l[i + 1 + k + j];
    }
  }

  /** No unfenced bare star is followed by another line. */
  ghost predicate NoBareStar(s: Fence, ls: seq<string>)
    decreases |ls|
  {
    |ls| > 1 ==> (s.None? && DrawnBy(ls[0]).None? ==> !Swallows(ls[0])) && NoBareStar(Advance(s, ls[0]), ls[1..])
  }

  lemma {:induction false} MarkedStaysBroken(fold: string -> string, s: Fence, ls: seq<string>)
    requires Broken(Sound, Closed, ls)
    ensures Broken(Sound, Closed, TextRules(fold).Marked(s, ls)) <==> NoBareStar(s, ls)
    decreases |ls|
  {
    if ls != [] {
      var r := TextRules(fold);
      var rest := r.Marked(Advance(s, ls[0]), ls[1..]);
      MarkedStaysBroken(fold, Advance(s, ls[0]), ls[1..]);
      MarkKeepsBreakIff(ls[0]);
      assert ([r.MarkedLine(s, ls[0])] + rest)[1..] == rest;
    }
  }

  // ---- the whole normaliser ----

  function NormalizeText(fold: string -> string, t: string): string {
    Flat(TextRules(fold).Normalized(SplitLines(t)))
  }

  /** The new text, if it differs from the old. */
  method NormalizeChangelog(fold: string -> string, original: string) returns (changed: Option<string>)
    ensures changed == if NormalizeText(fold, original) == original then None else Some(NormalizeText(fold, original))
    ensures changed.None? <==> Clean(fold, SplitLines(original))
  {
    UnchangedIff(fold, original);
    var rules := TextRules(fold);
    var marked := MarkLines(rules, SplitLines(original));
    var lines := EnsureLatestReleaseIntros(rules, marked);
    var normalized := Flat(lines);
    changed := if normalized == original then None else Some(normalized);
  }

  /** The new text splits into exactly the lines that were produced, exactly when no bare star has swallowed a break. */
  lemma LinesSurvive(fold: string -> string, t: string)
    ensures SplitLines(NormalizeText(fold, t)) == TextRules(fold).Normalized(SplitLines(t)) <==> NoBareStar(None, SplitLines(t))
  {
    var r, marked := TextRules(fold), TextRules(fold).Marked(None, SplitLines(t));
    RulesAreLawful(fold);
    SplitJoins(t);
    MarkedStaysBroken(fold, None, SplitLines(t));
    InsertsAreClosed(fold);
    if NoBareStar(None, SplitLines(t)) {
      IntroducedKeepsBroken(r, Sound, Closed, marked);
      JoinSplits(r.Normalized(SplitLines(t)));
    } else if SplitLines(NormalizeText(fold, t)) == r.Normalized(SplitLines(t)) {
      SplitJoins(NormalizeText(fold, t));
      MarkedBlanksFit(fold, SplitLines(t));
      IntroducedShowsBroken(r, Sound, Closed, marked);
    }
  }

  /** Marking makes no line blank. */
  lemma MarkedBlanksFit(fold: string -> string, ls: seq<string>)
    requires Broken(Sound, Closed, ls)
    ensures BlanksFit(TextRules(fold), Sound, Closed, TextRules(fold).Marked(None, ls))
  {
    var r := TextRules(fold);
    BrokenAt(Sound, Closed, ls);
    forall i | 0 <= i < |ls| && r.blank(r.Marked(None, ls)[i])
      ensures r.Marked(None, ls)[i] == ls[i]
    {
      MarkedAt(r, None, ls, i);
      MarkedIsNotBlank(ls[i]);
    }
  }

  lemma MarkedIsNotBlank(l: string)
    ensures AllSpace(Mark(l)) ==> Mark(l) == l
  {
    if IsStarred(l) { assert Mark(l)[Indent(l)] == '-'; }
  }

  lemma InsertsAreClosed(fold: string -> string)
    ensures ClosedInserts(TextRules(fold), Sound, Closed)
  {
    forall h
      ensures Sound(HeadingIntro(fold, h) + "\n") && Closed(HeadingIntro(fold, h) + "\n")
    {
      IntrosArePlain(HeadingIntro(fold, h));
    }
  }

  /** Running the normaliser twice changes nothing the second time, fenced code and older releases included. */
  lemma NormalizingTwiceChangesNothing(fold: string -> string, t: string)
    requires NoBareStar(None, SplitLines(t))
    ensures NormalizeText(fold, NormalizeText(fold, t)) == NormalizeText(fold, t)
  {
    RulesAreLawful(fold);
    LinesSurvive(fold, t);
    NormalizedTwice(TextRules(fold), SplitLines(t));
  }

  /** What a normalised text keeps: fenced code exactly, and outside the newest release everything but list markers. */
  lemma NormalizingKeepsTheText(fold: string -> string, t: string)
    requires NoBareStar(None, SplitLines(t))
    ensures KeepsText(TextRules(fold), SplitLines(t), SplitLines(NormalizeText(fold, t)))
  {
    RulesAreLawful(fold);
    LinesSurvive(fold, t);
    NormalizedKeepsText(TextRules(fold), SplitLines(t));
  }

  // ---- when the normaliser changes a text ----

  /** No line outside fences starts with a star marker. */
  predicate NoMarker(s: Fence, ls: seq<string>)
    decreases |ls|
  {
    ls == [] || ((s.None? && DrawnBy(ls[0]).None? ==> !IsStarred(ls[0])) && NoMarker(Advance(s, ls[0]), ls[1..]))
  }

  /** A line outside fences, drawing none itself, with a star as its marker. */
  ghost predicate MarkerAt(fold: string -> string, s: Fence, ls: seq<string>, i: nat)
    requires i < |ls|
  {
    TextRules(fold).Run(s, ls[..i]) == None && DrawnBy(ls[i]).None? && IsStarred(ls[i])
  }

  lemma MarkerAtTail(fold: string -> string, s: Fence, ls: seq<string>, i: nat)
    requires 0 < i < |ls|
    ensures MarkerAt(fold, s, ls, i) <==> MarkerAt(fold, Advance(s, ls[0]), ls[1..], i - 1)
  {
    assert ls[..i][1..] == ls[1..][..i - 1];
  }

  lemma {:induction false} NoMarkerIff(fold: string -> string, s: Fence, ls: seq<string>)
    ensures NoMarker(s, ls) <==> forall i :: 0 <= i < |ls| ==> !MarkerAt(fold, s, ls, i)
    decreases |ls|
  {
    if ls != [] {
      var t := Advance(s, ls[0]);
      NoMarkerIff(fold, t, ls[1..]);
      assert MarkerAt(fold, s, ls, 0) <==> s.None? && DrawnBy(ls[0]).None? && IsStarred(ls[0]);
      forall i | 0 < i < |ls|
        ensures MarkerAt(fold, s, ls, i) <==> MarkerAt(fold, t, ls[1..], i - 1)
      {
        MarkerAtTail(fold, s, ls, i);
      }
      if i :| 0 <= i < |ls[1..]| && MarkerAt(fold, t, ls[1..], i) { assert MarkerAt(fold, s, ls, i + 1); }
    }
  }

  /** Nothing to do: no marker outside fences, and an introduction where the newest release needs one. */
  predicate Clean(fold: string -> string, ls: seq<string>) {
    NoMarker(None, ls) && SectionIntroduced(TextRules(fold), ls)
  }

  function Count(p: char -> bool, t: string): nat {
    if t == "" then 0 else (if p(t[0]) then 1 else 0) + Count(p, t[1..])
  }

  lemma {:induction false} CountAppend(p: char -> bool, a: string, b: string)
    ensures Count(p, a + b) == Count(p, a) + Count(p, b)
  {
    if a == "" {
      assert a + b == b;
    } else {
      assert (a + b)[1..] == a[1..] + b;
      CountAppend(p, a[1..], b);
    }
  }

  lemma {:induction false} CountFlat(p: char -> bool, w: string -> nat, ls: seq<string>)
    requires forall l :: w(l) == Count(p, l)
    ensures Count(p, Flat(ls)) == Weight(w, ls)
  {
    if ls != [] {
      CountAppend(p, ls[0], Flat(ls[1..]));
      CountFlat(p, w, ls[1..]);
    }
  }

  lemma {:induction false} CountNone(p: char -> bool, t: string)
    requires forall i :: 0 <= i < |t| ==> !p(t[i])
    ensures Count(p, t) == 0
  {
    if t != "" { CountNone(p, t[1..]); }
  }

  function Ink(l: string): nat {
    Count(c => !IsSpace(c), l)
  }

  function Stars(l: string): nat {
    Count(c => c == '*', l)
  }

  /** A replaced marker leaves as many visible characters and one star less. */
  lemma MarkCounts(l: string)
    requires IsStarred(l)
    ensures Ink(Mark(l)) == Ink(l) && Stars(Mark(l)) < Stars(l)
  {
    var i, rest := Indent(l), l[Indent(l) + 1..];
    var k := Leading(IsSpace, rest);
    MarkedParts(c => !IsSpace(c), l[..i], rest[..k], rest[k..]);
    MarkedParts(c => c == '*', l[..i], rest[..k], rest[k..]);
    CountNone(c => !IsSpace(c), rest[..k]);
    CutAtStar(l, i, k);
  }

  lemma CutAtStar(l: string, i: nat, k: nat)
    requires i < |l| && l[i] == '*' && k <= |l| - i - 1
    ensures var rest := l[i + 1..]; l == l[..i] + "*" + (rest[..k] + rest[k..])
  {
  }

  lemma MarkedParts(p: char -> bool, front: string, gap: string, rest: string)
    ensures Count(p, front + "*" + (gap + rest)) == Count(p, front) + (if p('*') then 1 else 0) + Count(p, gap) + Count(p, rest)
    ensures Count(p, front + "- " + rest) ==
            Count(p, front) + (if p('-') then 1 else 0) + (if p(' ') then 1 else 0) + Count(p, rest)
  {
    CountAppend(p, front + "*", gap + rest);
    CountAppend(p, front, "*");
    CountAppend(p, gap, rest);
    CountAppend(p, front + "- ", rest);
    CountAppend(p, front, "- ");
    assert "*"[1..] == "" && "- "[1..] == " " && " "[1..] == "";
  }

  lemma {:induction false} MarkedCounts(fold: string -> string, s: Fence, ls: seq<string>)
    ensures var marked := TextRules(fold).Marked(s, ls);
            && Weight(Ink, marked) == Weight(Ink, ls) && Weight(Stars, marked) <= Weight(Stars, ls)
            && (Weight(Stars, marked) == Weight(Stars, ls) <==> NoMarker(s, ls))
            && (NoMarker(s, ls) ==> marked == ls)
    decreases |ls|
  {
    if ls != [] {
      var rest := TextRules(fold).Marked(Advance(s, ls[0]), ls[1..]);
      MarkedCounts(fold, Advance(s, ls[0]), ls[1..]);
      assert ([TextRules(fold).MarkedLine(s, ls[0])] + rest)[1..] == rest;
      if IsStarred(ls[0]) { MarkCounts(ls[0]); }
    }
  }

  lemma RulesWeigh(fold: string -> string)
    ensures var r := TextRules(fold);
            (forall l :: r.blank(l) ==> Ink(l) == 0) && forall h :: r.level(h) > 0 ==> Ink(r.intro(h)) > 0
  {
    forall l | AllSpace(l)
      ensures Ink(l) == 0
    {
      CountNone(c => !IsSpace(c), l);
    }
    forall h
      ensures Ink(HeadingIntro(fold, h) + "\n") > 0
    {
      IntrosArePlain(HeadingIntro(fold, h));
    }
  }

  /** The normaliser leaves a text alone exactly when its lines are clean. */
  lemma UnchangedIff(fold: string -> string, t: string)
    ensures NormalizeText(fold, t) == t <==> Clean(fold, SplitLines(t))
  {
    var r, ls := TextRules(fold), SplitLines(t);
    var marked := r.Marked(None, ls);
    RulesAreLawful(fold);
    RulesWeigh(fold);
    SplitJoins(t);
    MarkedCounts(fold, None, ls);
    IntroducedWeighs(r, Ink, marked);
    CountFlat(c => !IsSpace(c), Ink, ls);
    CountFlat(c => !IsSpace(c), Ink, r.Introduced(marked));
    if NormalizeText(fold, t) == t {
      assert r.Introduced(marked) == marked;
      CountFlat(c => c == '*', Stars, ls);
      CountFlat(c => c == '*', Stars, marked);
    }
  }

  /** Running the normaliser twice is safe exactly when the text it wrote splits into clean lines. */
  lemma SafeToRepeatIff(fold: string -> string, t: string)
    ensures var u := NormalizeText(fold, t); NormalizeText(fold, u) == u <==> Clean(fold, SplitLines(u))
    ensures NoBareStar(None, SplitLines(t)) ==> Clean(fold, SplitLines(NormalizeText(fold, t)))
  {
    UnchangedIff(fold, NormalizeText(fold, t));
    if NoBareStar(None, SplitLines(t)) { NormalizingTwiceChangesNothing(fold, t); }
  }

  // ---- what a bare star does ----

  lemma PlainLines(fold: string -> string, ls: seq<string>)
    requires forall l :: l in ls ==> Level(l) == 0
    ensures TextRules(fold).Introduced(ls) == ls
  {
    NoHeading(fold, None, ls);
  }

  lemma {:induction false} NoHeading(fold: string -> string, s: Fence, ls: seq<string>)
    requires forall l :: l in ls ==> Level(l) == 0
    ensures TextRules(fold).Scan(s, ls) == |ls|
    decreases |ls|
  {
    if ls != [] { NoHeading(fold, Advance(s, ls[0]), ls[1..]); }
  }

  lemma StarLine()
    ensures IsLine("*\n") && Mark("*\n") == "- " && DrawnBy("*\n").None? && Level("- ") == 0
  {
    assert Indent("*\n") == 0 && AfterStar("*\n") == "";
  }

  lemma FenceLine()
    ensures IsLine("```\n") && DrawnBy("```\n") == Some(Drawn('`', 3, "")) && Level("```\n") == 0
  {
    assert Indent("```\n") == 0 && "```\n"[0..] == "```\n" && "```\n"[3..] == "\n";
    assert Leading(c => c == '`', "```\n") == 3;
    TrimmedIsPrefix("```\n");
  }

  lemma ItemLine()
    ensures IsLine("* a\n") && IsLine("- a\n") && Mark("* a\n") == "- a\n"
    ensures DrawnBy("* a\n").None? && Level("* a\n") == 0 && Level("- a\n") == 0
  {
    assert Indent("* a\n") == 0 && AfterStar("* a\n") == "a\n";
    TrimmedIsPrefix("* a\n");
    TrimmedIsPrefix("- a\n");
  }

  lemma GluedLine()
    ensures IsPlain("- ```\n")
  {
    assert Indent("- ```\n") == 0;
    TrimmedIsPrefix("- ```\n");
  }

  lemma OpenFenceRun(fold: string -> string, x: string, y: string, z: string)
    requires DrawnBy(x).None? && DrawnBy(y).Some? && Advance(None, y).Some?
    ensures TextRules(fold).Marked(None, [x, y, z]) == [Mark(x), y, z]
  {
    var r, s := TextRules(fold), Advance(None, y);
    assert [x, y, z][1..] == [y, z] && [y, z][1..] == [z] && [z][1..] == [];
    assert r.Marked(s, [z]) == [z];
    assert r.Marked(None, [y, z]) == [y, z];
    assert r.Marked(None, [x, y, z]) == [Mark(x)] + r.Marked(None, [y, z]);
  }

  lemma PlainRun(fold: string -> string, x: string, z: string)
    requires DrawnBy(x).None? && DrawnBy(z).None?
    ensures TextRules(fold).Marked(None, [x, z]) == [Mark(x), Mark(z)]
  {
    assert [x, z][1..] == [z] && [z][1..] == [];
  }

  lemma Glue(x: string, y: string, z: string)
    ensures Flat([x, y, z]) == Flat([x + y, z])
  {
    assert [x, y, z][1..] == [y, z] && [x + y, z][1..] == [z] && [y, z][1..] == [z];
    assert x + (y + Flat([z])) == (x + y) + Flat([z]);
  }

  predicate IsLine(l: string) {
    Sound(l) && Closed(l)
  }

  lemma TwoLines(a: string, b: string)
    requires IsLine(a) && IsLine(b)
    ensures Broken(Sound, Closed, [a, b])
  {
    assert [a, b][1..] == [b] && [b][1..] == [];
  }

  lemma ThreeLines(a: string, b: string, c: string)
    requires IsLine(a) && IsLine(b) && IsLine(c)
    ensures Broken(Sound, Closed, [a, b, c])
  {
    TwoLines(b, c);
    assert [a, b, c][1..] == [b, c];
  }

  /** The line `g` is what a bare star `x` and an opening fence `y` become. */
  ghost predicate Glues(x: string, y: string, g: string) {
    && IsLine(x) && DrawnBy(x).None? && Level(Mark(x)) == 0
    && IsLine(y) && DrawnBy(y).Some? && Advance(None, y).Some? && Level(y) == 0
    && g == Mark(x) + y
  }

  ghost predicate IsPlain(g: string) {
    IsLine(g) && Mark(g) == g && DrawnBy(g).None? && Level(g) == 0
  }

  ghost predicate IsItem(z: string) {
    IsLine(z) && IsLine(Mark(z)) && Mark(z) != z && DrawnBy(z).None? && Level(z) == 0 && Level(Mark(z)) == 0
  }

  /** A bare star, an opening fence, a starred line; `g` is what the first two become. */
  ghost predicate IsTrap(x: string, y: string, z: string, g: string) {
    Glues(x, y, g) && IsPlain(g) && IsItem(z)
  }

  lemma FirstRun(fold: string -> string, x: string, y: string, z: string, g: string)
    requires IsTrap(x, y, z, g)
    ensures NormalizeText(fold, Flat([x, y, z])) == Flat([g, z])
  {
    ThreeLines(x, y, z);
    OpenFenceRun(fold, x, y, z);
    PlainLines(fold, [Mark(x), y, z]);
    NormalizedFlat(fold, [x, y, z], [Mark(x), y, z]);
    Glue(Mark(x), y, z);
  }

  lemma NormalizedFlat(fold: string -> string, ls: seq<string>, marked: seq<string>)
    requires Broken(Sound, Closed, ls) && TextRules(fold).Marked(None, ls) == marked
    requires TextRules(fold).Introduced(marked) == marked
    ensures NormalizeText(fold, Flat(ls)) == Flat(marked)
  {
    JoinSplits(ls);
  }

  lemma SecondRun(fold: string -> string, x: string, y: string, z: string, g: string)
    requires IsTrap(x, y, z, g)
    ensures NormalizeText(fold, Flat([g, z])) == Flat([g, Mark(z)]) != Flat([g, z])
  {
    TwoLines(g, z);
    TwoLines(g, Mark(z));
    JoinSplits([g, z]);
    JoinSplits([g, Mark(z)]);
    PlainRun(fold, g, z);
    PlainLines(fold, [g, Mark(z)]);
    assert [g, z][1] == z && [g, Mark(z)][1] == Mark(z);
  }

  lemma StarFenceGlues()
    ensures Glues("*\n", "```\n", "- ```\n")
  {
    StarLine();
    FenceLine();
    assert "- " + "```\n" == "- ```\n";
  }

  lemma StarIsItem()
    ensures IsItem("* a\n")
  {
    ItemLine();
    assert "* a\n"[0] == '*' && "- a\n"[0] == '-';
  }

  /** There is such a text: a lone star, three backticks, a starred item. */
  lemma StarFenceItem()
    ensures IsTrap("*\n", "```\n", "* a\n", "- ```\n")
  {
    StarFenceGlues();
    GluedLine();
    StarIsItem();
  }

  /** A bare star glues the opening fence behind it to its own line, so the next run changes the code that was fenced. */
  lemma BareStarUnfencesCode(fold: string -> string, x: string, y: string, z: string, g: string)
    requires IsTrap(x, y, z, g)
    ensures var t := Flat([x, y, z]); NormalizeText(fold, NormalizeText(fold, t)) != NormalizeText(fold, t)
  {
    FirstRun(fold, x, y, z, g);
    SecondRun(fold, x, y, z, g);
  }
}
