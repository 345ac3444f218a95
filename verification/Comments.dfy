/** Finding the comments of JavaScript source: a scanner with an explicit stack, against the mutually
    recursive grammar of code, template literals and interpolations. */
module Comments {

  /** A comment, with the line number the scanner reports for it. */
  datatype Comment = Comment(start: nat, end: nat, line: int)

  /** A quoted string, with the number of newlines it escapes. */
  datatype Quoted = Quoted(start: nat, end: nat, escaped: nat)

  /** What a part of the grammar yields: its comments and quoted strings, where it ends, and how many newlines went
      uncounted. */
  datatype Part = Part(comments: seq<Comment>, strings: seq<Quoted>, end: nat, lost: nat) {
    function After(before: Part): Part {
      this.(comments := before.comments + comments, strings := before.strings + strings)
    }
  }

  /** An open construct: a template literal, or an interpolation with its brace depth. */
  datatype Frame = InTemplate | InInterpolation(depth: nat)

  datatype Source = Source(text: string) {

    predicate At(i: nat, a: char, b: char) {
      i + 1 < |text| && text[i] == a && text[i + 1] == b
    }

    function Left(i: nat): nat {
      if i < |text| then |text| - i else 0
    }

    /** The newlines before position `i`. */
    function Newlines(i: nat): nat {
      if i == 0 then 0
      else Newlines(i - 1) + if i <= |text| && text[i - 1] == '\n' then 1 else 0
    }

    /** The line on which position `i` really is. */
    function Line(i: nat): nat {
      1 + Newlines(i)
    }

    /** The end of the line, or of the text. */
    function LineEnd(i: nat): (e: nat)
      requires i <= |text|
      ensures i <= e <= |text| && (e < |text| ==> text[e] == '\n')
      ensures forall k :: i <= k < e ==> text[k] != '\n'
      decreases |text| - i
    {
      if i == |text| || text[i] == '\n' then i else LineEnd(i + 1)
    }

    /** Where the comment closed by the first terminator from `i` on ends; the end of the text without one. */
    function BlockEnd(i: nat): (e: nat)
      requires i <= |text|
      ensures i <= e <= |text|
      ensures (i <= e - 2 && At(e - 2, '*', '/') && forall k: nat :: i <= k < e - 2 ==> !At(k, '*', '/'))
              || (e == |text| && forall k: nat :: i <= k < |text| ==> !At(k, '*', '/'))
      decreases |text| - i
    {
      if i == |text| then i else if At(i, '*', '/') then i + 2 else BlockEnd(i + 1)
    }

    /** The position after a quoted string whose body starts at `i`, and the escaped newlines in it. */
    function QuotedEnd(i: nat, quote: char): (r: (nat, nat))
      ensures r.0 > i
      decreases Left(i)
    {
      if i >= |text| || text[i] == quote then (i + 1, 0)
      else if text[i] == '\\' then
        var (e, lost) := QuotedEnd(i + 2, quote);
        (e, lost + if i + 1 < |text| && text[i + 1] == '\n' then 1 else 0)
      else QuotedEnd(i + 1, quote)
    }

    // ---- the grammar ----

    /** What starts at a code position, other than braces, templates and plain characters. */
    predicate Opens(i: nat) {
      i < |text| && (text[i] == '\'' || text[i] == '"' || At(i, '/', '/') || At(i, '/', '*'))
    }

    /** One string or comment. */
    function Token(i: nat, lost: nat): (p: Part)
      requires Opens(i)
      ensures p.end > i
    {
      if text[i] == '\'' || text[i] == '"' then
        var (e, more) := QuotedEnd(i + 1, text[i]);
        Part([], [Quoted(i, e, more)], e, lost + more)
      else
        var e := if At(i, '/', '/') then LineEnd(i) else BlockEnd(i + 2);
        Part([Comment(i, e, Line(i) - lost)], [], e, lost)
    }

    /** Top-level code, to the end of the text. */
    function Code(i: nat, lost: nat): (p: Part)
      ensures p.end >= i && p.end >= |text|
      decreases Left(i), 0
    {
      if i >= |text| then Part([], [], i, lost)
      else if Opens(i) then
        var t := Token(i, lost);
        Code(t.end, t.lost).After(t)
      else if text[i] == '`' then
        var t := Template(i + 1, lost);
        Code(t.end, t.lost).After(t)
      else Code(i + 1, lost)
    }

    /** The inside of a template literal, up to and including its closing backtick. */
    function Template(i: nat, lost: nat): (p: Part)
      ensures p.end >= i
      decreases Left(i), 0
    {
      if i >= |text| then Part([], [], i, lost)
      else if text[i] == '\\' then Template(i + 2, lost)
      else if text[i] == '`' then Part([], [], i + 1, lost)
      else if At(i, '$', '{') then
        var t := Interpolation(i + 2, 1, lost);
        Template(t.end, t.lost).After(t)
      else Template(i + 1, lost)
    }

    /** The inside of an interpolation with `depth` braces open, up to and including the last one. */
    function Interpolation(i: nat, depth: nat, lost: nat): (p: Part)
      requires depth >= 1
      ensures p.end >= i
      decreases Left(i), 0
    {
      if i >= |text| then Part([], [], i, lost)
      else if Opens(i) then
        var t := Token(i, lost);
        Interpolation(t.end, depth, t.lost).After(t)
      else if text[i] == '`' then
        var t := Template(i + 1, lost);
        Interpolation(t.end, depth, t.lost).After(t)
      else if text[i] == '{' then Interpolation(i + 1, depth + 1, lost)
      else if text[i] == '}' then (if depth == 1 then Part([], [], i + 1, lost) else Interpolation(i + 1, depth - 1, lost))
      else Interpolation(i + 1, depth, lost)
    }

    // ---- the stack ----

    /** Templates and interpolations alternate from the bottom, and every brace depth is positive. */
    predicate WellNested(stack: seq<Frame>) {
      forall k :: 0 <= k < |stack| ==>
        if k % 2 == 0 then stack[k].InTemplate? else stack[k].InInterpolation? && stack[k].depth >= 1
    }

    /** Finish the construct on top of the stack, then the one below it, and so on to the code. */
    function Unwind(i: nat, lost: nat, stack: seq<Frame>): (p: Part)
      requires WellNested(stack)
      decreases |stack|
    {
      if stack == [] then Code(i, lost)
      else
        var top, rest := stack[|stack| - 1], stack[..|stack| - 1];
        var t := if top.InTemplate? then Template(i, lost) else Interpolation(i, top.depth, lost);
        Unwind(t.end, t.lost, rest).After(t)
    }

    // ---- the scanner's loop ----

    lemma UnwindPush(i: nat, lost: nat, stack: seq<Frame>, top: Frame)
      requires WellNested(stack) && WellNested(stack + [top])
      ensures Unwind(i, lost, stack + [top]) ==
              var t := if top.InTemplate? then Template(i, lost) else Interpolation(i, top.depth, lost);
              Unwind(t.end, t.lost, stack).After(t)
    {
      assert (stack + [top])[..|stack|] == stack;
    }

    /** At the end of the text every open construct ends, without further comments. */
    lemma {:induction false} UnwindAtEnd(i: nat, lost: nat, stack: seq<Frame>)
      requires i >= |text| && WellNested(stack)
      ensures Unwind(i, lost, stack).comments == []
      decreases |stack|
    {
      if stack != [] { UnwindAtEnd(i, lost, stack[..|stack| - 1]); }
    }

    lemma CodeToken(i: nat, lost: nat)
      requires Opens(i)
      ensures Code(i, lost) == Code(Token(i, lost).end, Token(i, lost).lost).After(Token(i, lost))
    {
    }

    lemma InterpolationToken(i: nat, depth: nat, lost: nat)
      requires Opens(i) && depth >= 1
      ensures Interpolation(i, depth, lost) ==
              Interpolation(Token(i, lost).end, depth, Token(i, lost).lost).After(Token(i, lost))
    {
    }

    lemma AfterAfter(p: Part, a: Part, b: Part)
      ensures p.After(b).After(a) == p.After(b.After(a))
    {
    }

    /** In code or an interpolation, a string or comment is read and the construct goes on. */
    lemma UnwindToken(i: nat, lost: nat, stack: seq<Frame>)
      requires WellNested(stack) && Opens(i) && (stack != [] ==> stack[|stack| - 1].InInterpolation?)
      ensures Unwind(i, lost, stack) == Unwind(Token(i, lost).end, Token(i, lost).lost, stack).After(Token(i, lost))
    {
      var t := Token(i, lost);
      if stack == [] {
        CodeToken(i, lost);
      } else {
        var depth, rest := stack[|stack| - 1].depth, stack[..|stack| - 1];
        var whole, left := Interpolation(i, depth, lost), Interpolation(t.end, depth, t.lost);
        InterpolationToken(i, depth, lost);
        assert whole == left.After(t);
        AfterAfter(Unwind(left.end, left.lost, rest), t, left);
      }
    }

    /** A backtick in code or an interpolation opens a template. */
    lemma UnwindOpenTemplate(i: nat, lost: nat, stack: seq<Frame>)
      requires WellNested(stack) && i < |text| && text[i] == '`' && (stack != [] ==> stack[|stack| - 1].InInterpolation?)
      ensures WellNested(stack + [InTemplate])
      ensures Unwind(i, lost, stack) == Unwind(i + 1, lost, stack + [InTemplate])
    {
      UnwindPush(i + 1, lost, stack, InTemplate);
    }

    /** `${` in a template opens an interpolation of depth one. */
    lemma UnwindOpenInterpolation(i: nat, lost: nat, stack: seq<Frame>)
      requires WellNested(stack) && stack != [] && stack[|stack| - 1].InTemplate? && At(i, '$', '{')
      ensures WellNested(stack + [InInterpolation(1)])
      ensures Unwind(i, lost, stack) == Unwind(i + 2, lost, stack + [InInterpolation(1)])
    {
      UnwindPush(i + 2, lost, stack, InInterpolation(1));
    }
  }

  function CountNewlines(s: string): nat {
    if s == "" then 0 else CountNewlines(s[..|s| - 1]) + if s[|s| - 1] == '\n' then 1 else 0
  }

  lemma {:induction false} CountIsDifference(src: Source, i: nat, e: nat)
    requires i <= e <= |src.text|
    ensures CountNewlines(src.text[i..e]) == src.Newlines(e) - src.Newlines(i)
    decreases e - i
  {
    if i < e {
      CountIsDifference(src, i, e - 1);
      assert src.text[i..e][..e - i - 1] == src.text[i..e - 1];
    }
  }

  /** Skip a quoted string whose body starts at `start`, counting the newlines that are not escaped. */
  method SkipQuoted(src: Source, start: nat, quote: char) returns (end: nat, newlines: nat)
    requires start <= |src.text| && quote != '\n'
    ensures end == src.QuotedEnd(start, quote).0
    ensures newlines == src.Newlines(end) - src.Newlines(start) - src.QuotedEnd(start, quote).1
  {
    var i := start;
    newlines := 0;
    ghost var lost := 0;
    while i < |src.text| && src.text[i] != quote
      invariant i >= start
      invariant var (e, more) := src.QuotedEnd(i, quote); src.QuotedEnd(start, quote) == (e, lost + more)
      invariant newlines + lost == src.Newlines(i) - src.Newlines(start)
      decreases src.Left(i)
    {
      if src.text[i] == '\\' {
        if i + 1 < |src.text| && src.text[i + 1] == '\n' { lost := lost + 1; }
        i := i + 1;
      } else if src.text[i] == '\n' {
        newlines := newlines + 1;
      }
      i := i + 1;
    }
    end := i + 1;
  }

  /** Line and text of each comment, as the scanner reports them. */
  function Report(src: Source, comments: seq<Comment>): seq<(int, string)> {
    if comments == [] then []
    else
      var c := comments[|comments| - 1];
      Report(src, comments[..|comments| - 1]) + [(c.line, if c.start <= c.end <= |src.text| then src.text[c.start..c.end] else "")]
  }

  /** The state of the scanner between two iterations: what it has found, followed by what the grammar
      still finds from its stack, is what the grammar finds in the whole text. */
  ghost predicate Scanning(src: Source, i: nat, lineno: int, stack: seq<Frame>, out: seq<(int, string)>,
                           found: seq<Comment>, lost: nat)
  {
    && src.WellNested(stack)
    && lineno == src.Line(i) - lost
    && out == Report(src, found)
    && found + src.Unwind(i, lost, stack).comments == src.Code(0, 0).comments
  }

  predicate InTemplateMode(stack: seq<Frame>) {
    stack != [] && stack[|stack| - 1].InTemplate?
  }

  /** One plain character, brace or backtick; strings and comments are handled apart. */
  function Advance(src: Source, i: nat, stack: seq<Frame>): (r: (nat, seq<Frame>))
    requires i < |src.text| && src.WellNested(stack)
    ensures src.WellNested(r.1) && r.0 > i
  {
    var ch := src.text[i];
    var top := if stack == [] then InTemplate else stack[|stack| - 1];
    if ch == '\n' then (i + 1, stack)
    else if InTemplateMode(stack) then
      if ch == '\\' then (i + 2, stack)
      else if ch == '`' then (i + 1, stack[..|stack| - 1])
      else if src.At(i, '$', '{') then (i + 2, stack + [InInterpolation(1)])
      else (i + 1, stack)
    else if ch == '`' then (i + 1, stack + [InTemplate])
    else if stack != [] && ch == '{' then (i + 1, stack[|stack| - 1 := InInterpolation(top.depth + 1)])
    else if stack != [] && ch == '}' then
      (i + 1, if top.depth == 1 then stack[..|stack| - 1] else stack[|stack| - 1 := InInterpolation(top.depth - 1)])
    else (i + 1, stack)
  }

  /** Advancing follows the grammar. */
  lemma AdvanceUnwinds(src: Source, i: nat, lost: nat, stack: seq<Frame>)
    requires i < |src.text| && src.WellNested(stack)
    requires src.text[i] != '\n' && !InTemplateMode(stack) ==> !src.Opens(i)
    ensures src.Unwind(i, lost, stack).comments == src.Unwind(Advance(src, i, stack).0, lost, Advance(src, i, stack).1).comments
  {
    var (j, next) := Advance(src, i, stack);
    if next == stack + [InTemplate] {
      src.UnwindOpenTemplate(i, lost, stack);
    } else if next == stack + [InInterpolation(1)] {
      src.UnwindOpenInterpolation(i, lost, stack);
    } else if stack != [] && |next| == |stack| {
      assert next[..|stack| - 1] == stack[..|stack| - 1];
    }
  }

  /** Read one string or comment: where it ends, the newlines it adds to the count, and what it reports. */
  method ScanToken(src: Source, i: nat, lineno: int, ghost lost: nat)
    returns (end: nat, newlines: int, report: seq<(int, string)>)
    requires src.Opens(i) && lineno == src.Line(i) - lost
    ensures var t := src.Token(i, lost);
            && end == t.end && report == Report(src, t.comments)
            && lineno + newlines == src.Line(t.end) - t.lost
  {
    var ch := src.text[i];
    if ch == '\'' || ch == '"' {
      end, newlines := SkipQuoted(src, i + 1, ch);
      return end, newlines, [];
    }
    end := if src.At(i, '/', '/') then src.LineEnd(i) else src.BlockEnd(i + 2);
    CountIsDifference(src, i, end);
    newlines := if src.At(i, '/', '/') then 0 else CountNewlines(src.text[i..end]);
    if src.At(i, '/', '/') { NoNewlines(src, i, end); }
    report := [(lineno, src.text[i..end])];
    assert Report(src, [Comment(i, end, lineno)]) == report by { assert [Comment(i, end, lineno)][..0] == []; }
  }

  lemma AdvanceKeepsScanning(src: Source, i: nat, lineno: int, stack: seq<Frame>, out: seq<(int, string)>,
                             found: seq<Comment>, lost: nat)
    requires Scanning(src, i, lineno, stack, out, found, lost) && i < |src.text|
    requires src.text[i] == '\n' || InTemplateMode(stack) || !src.Opens(i)
    ensures var (j, next) := Advance(src, i, stack);
            var counted := src.text[i] == '\n' ||
                           (InTemplateMode(stack) && src.text[i] == '\\' && i + 1 < |src.text| && src.text[i + 1] == '\n');
            Scanning(src, j, if counted then lineno + 1 else lineno, next, out, found, lost)
  {
    AdvanceUnwinds(src, i, lost, stack);
    var (j, next) := Advance(src, i, stack);
    assert src.Newlines(i + 1) == src.Newlines(i) + if src.text[i] == '\n' then 1 else 0;
    assert i + 1 < |src.text| && src.text[i] != '\n' ==>
        src.Newlines(i + 2) == src.Newlines(i) + if src.text[i + 1] == '\n' then 1 else 0;
  }

  /** After a string or comment the scanner is where the grammar is. */
  lemma TokenKeepsScanning(src: Source, i: nat, lineno: int, stack: seq<Frame>, out: seq<(int, string)>,
                           found: seq<Comment>, lost: nat, newlines: int)
    requires Scanning(src, i, lineno, stack, out, found, lost) && src.Opens(i) && !InTemplateMode(stack)
    requires lineno + newlines == src.Line(src.Token(i, lost).end) - src.Token(i, lost).lost
    ensures var t := src.Token(i, lost);
            Scanning(src, t.end, lineno + newlines, stack, out + Report(src, t.comments), found + t.comments, t.lost)
  {
    var t := src.Token(i, lost);
    src.UnwindToken(i, lost, stack);
    if t.comments == [] {
      assert found + t.comments == found && out + Report(src, t.comments) == out;
    } else {
      ReportOne(src, found, t.comments[0]);
      assert t.comments == [t.comments[0]];
    }
    var rest := src.Unwind(t.end, t.lost, stack).comments;
    assert found + (t.comments + rest) == found + t.comments + rest;
  }

  /** All comments of a JavaScript text with their line numbers. */
  method JsComments(text: string) returns (out: seq<(int, string)>)
    ensures out == Report(Source(text), Source(text).Code(0, 0).comments)
  {
    var src := Source(text);
    var lineno: int, i: nat := 1, 0;
    var stack: seq<Frame> := [];
    out := [];
    ghost var found: seq<Comment>, lost := [], 0;
    assert found + src.Unwind(0, 0, stack).comments == src.Code(0, 0).comments;
    while i < |text|
      invariant Scanning(src, i, lineno, stack, out, found, lost)
      decreases src.Left(i)
    {
      var ch := text[i];
      if ch == '\n' || InTemplateMode(stack) || !src.Opens(i) {
        AdvanceKeepsScanning(src, i, lineno, stack, out, found, lost);
        if ch == '\n' || (InTemplateMode(stack) && ch == '\\' && i + 1 < |text| && text[i + 1] == '\n') {
          lineno := lineno + 1;
        }
        var (next, nextStack) := Advance(src, i, stack);
        i, stack := next, nextStack;
      } else {
        var end, newlines, report := ScanToken(src, i, lineno, lost);
        TokenKeepsScanning(src, i, lineno, stack, out, found, lost, newlines);
        ghost var t := src.Token(i, lost);
        i, lineno, out := end, lineno + newlines, out + report;
        found, lost := found + t.comments, t.lost;
      }
    }
    src.UnwindAtEnd(i, lost, stack);
    assert found + [] == found;
  }

  lemma ReportOne(src: Source, found: seq<Comment>, c: Comment)
    ensures Report(src, found + [c]) == Report(src, found) + Report(src, [c])
  {
    assert (found + [c])[..|found|] == found && [c][..0] == [];
  }

  lemma {:induction false} NoNewlines(src: Source, i: nat, e: nat)
    requires i <= e <= |src.text| && forall k :: i <= k < e ==> src.text[k] != '\n'
    ensures src.Newlines(e) == src.Newlines(i)
    decreases e - i
  {
    if i < e { NoNewlines(src, i, e - 1); }
  }

  // ---- what the reported comments are ----

  /** Text that is a line comment up to its line's end, or a block comment up to its first terminator. */
  predicate IsComment(src: Source, c: Comment) {
    && c.start + 2 <= c.end <= |src.text|
    && if src.At(c.start, '/', '/') then c.end == src.LineEnd(c.start)
       else src.At(c.start, '/', '*') && c.end == src.BlockEnd(c.start + 2)
  }

  /** A string in quotes, up to its closing quote, with its escaped newlines. */
  predicate IsQuoted(src: Source, q: Quoted) {
    && q.start < |src.text| && (src.text[q.start] == '\'' || src.text[q.start] == '"')
    && (q.end, q.escaped) == src.QuotedEnd(q.start + 1, src.text[q.start])
  }

  /** The newlines escaped in strings that start before a position. */
  function Escaped(strings: seq<Quoted>, pos: nat): nat {
    if strings == [] then 0
    else
      var q := strings[|strings| - 1];
      Escaped(strings[..|strings| - 1], pos) + if q.start < pos then q.escaped else 0
  }

  lemma {:induction false} EscapedPlus(a: seq<Quoted>, b: seq<Quoted>, pos: nat)
    ensures Escaped(a + b, pos) == Escaped(a, pos) + Escaped(b, pos)
  {
    if b == [] {
      assert a + b == a;
    } else {
      assert (a + b)[..|a + b| - 1] == a + b[..|b| - 1];
      EscapedPlus(a, b[..|b| - 1], pos);
    }
  }

  /** Moving the position only matters if some string starts in between. */
  lemma {:induction false} EscapedAgree(strings: seq<Quoted>, p: nat, q: nat)
    requires forall i :: 0 <= i < |strings| ==> (strings[i].start < p <==> strings[i].start < q)
    ensures Escaped(strings, p) == Escaped(strings, q)
  {
    if strings != [] { EscapedAgree(strings[..|strings| - 1], p, q); }
  }

  /** Some string that starts before a position escapes a newline. */
  predicate Continues(strings: seq<Quoted>, pos: nat) {
    exists i :: 0 <= i < |strings| && strings[i].start < pos && strings[i].escaped > 0
  }

  lemma {:induction false} EscapedIff(strings: seq<Quoted>, pos: nat)
    ensures Escaped(strings, pos) > 0 <==> Continues(strings, pos)
  {
    if strings != [] {
      var n := |strings| - 1;
      EscapedIff(strings[..n], pos);
      if Continues(strings[..n], pos) {
        var i :| 0 <= i < n && strings[..n][i].start < pos && strings[..n][i].escaped > 0;
        assert strings[i].start < pos && strings[i].escaped > 0;
      }
    }
  }

  /** Real comments and strings between `from` and `to`, the comments in order and disjoint, each with a line that lags
      behind the real one by `lost` and the newlines escaped in strings before it; `later` is the lag at the end. */
  ghost predicate Spans(src: Source, cs: seq<Comment>, qs: seq<Quoted>, from: nat, to: nat, lost: nat, later: nat) {
    && later == lost + Escaped(qs, to)
    && (forall k :: 0 <= k < |cs| ==>
          && IsComment(src, cs[k]) && from <= cs[k].start && cs[k].end <= to
          && src.Line(cs[k].start) - cs[k].line == lost + Escaped(qs, cs[k].start))
    && (forall k :: 0 <= k < |qs| ==> IsQuoted(src, qs[k]) && from <= qs[k].start < to)
    && (forall k, m :: 0 <= k < m < |cs| ==> cs[k].end <= cs[m].start)
  }

  ghost predicate PartSpans(src: Source, p: Part, from: nat, lost: nat) {
    Spans(src, p.comments, p.strings, from, p.end, lost, p.lost)
  }

  lemma EscapedSides(a: seq<Quoted>, b: seq<Quoted>, mid: nat, pos: nat)
    requires forall i :: 0 <= i < |a| ==> a[i].start < mid
    requires forall i :: 0 <= i < |b| ==> mid <= b[i].start
    ensures Escaped(a + b, pos) == if pos <= mid then Escaped(a, pos) else Escaped(a, mid) + Escaped(b, pos)
  {
    EscapedPlus(a, b, pos);
    if pos <= mid {
      EscapedAgree(b, pos, 0);
      EscapedIff(b, 0);
    } else {
      EscapedAgree(a, mid, pos);
    }
  }

  lemma SpansJoin(src: Source, p: Part, q: Part, from: nat, mid: nat, lost: nat)
    requires PartSpans(src, p, mid, lost) && PartSpans(src, q, p.end, p.lost) && from <= mid <= p.end <= q.end
    ensures PartSpans(src, q.After(p), from, lost)
  {
    var whole := q.After(p);
    EscapedSides(p.strings, q.strings, p.end, q.end);
    EscapedAgree(q.strings, p.end, 0);
    EscapedIff(q.strings, 0);
    forall k | 0 <= k < |whole.comments|
      ensures src.Line(whole.comments[k].start) - whole.comments[k].line ==
              lost + Escaped(whole.strings, whole.comments[k].start)
    {
      EscapedSides(p.strings, q.strings, p.end, whole.comments[k].start);
      if whole.comments[k].start == p.end { EscapedAgree(q.strings, p.end, 0); }
    }
    forall k | 0 <= k < |whole.strings|
      ensures IsQuoted(src, whole.strings[k]) && from <= whole.strings[k].start < whole.end
    {
    }
  }

  /** The same from an earlier position. */
  lemma SpansEarlier(src: Source, p: Part, from: nat, mid: nat, lost: nat)
    requires PartSpans(src, p, mid, lost) && from <= mid
    ensures PartSpans(src, p, from, lost)
  {
  }

  lemma {:induction false} LineEndAfterSlashes(src: Source, i: nat)
    requires src.At(i, '/', '/')
    ensures src.LineEnd(i) >= i + 2
  {
    assert src.LineEnd(i) == src.LineEnd(i + 1) == src.LineEnd(i + 2);
  }

  lemma TokenSpans(src: Source, i: nat, lost: nat)
    requires src.Opens(i)
    ensures PartSpans(src, src.Token(i, lost), i, lost)
  {
    if src.At(i, '/', '/') { LineEndAfterSlashes(src, i); }
    var t := src.Token(i, lost);
    if t.strings != [] {
      assert t.strings[..0] == [];
      assert Escaped(t.strings, t.end) == t.strings[0].escaped;
    }
  }

  lemma {:induction false} CodeSpans(src: Source, i: nat, lost: nat)
    ensures PartSpans(src, src.Code(i, lost), i, lost)
    decreases src.Left(i), 0
  {
    if i < |src.text| {
      if src.Opens(i) {
        var t := src.Token(i, lost);
        TokenSpans(src, i, lost);
        CodeSpans(src, t.end, t.lost);
        SpansJoin(src, t, src.Code(t.end, t.lost), i, i, lost);
      } else if src.text[i] == '`' {
        var t := src.Template(i + 1, lost);
        TemplateSpans(src, i + 1, lost);
        CodeSpans(src, t.end, t.lost);
        SpansJoin(src, t, src.Code(t.end, t.lost), i, i + 1, lost);
      } else {
        CodeSpans(src, i + 1, lost);
        SpansEarlier(src, src.Code(i + 1, lost), i, i + 1, lost);
      }
    }
  }

  lemma {:induction false} TemplateSpans(src: Source, i: nat, lost: nat)
    ensures PartSpans(src, src.Template(i, lost), i, lost)
    decreases src.Left(i), 0
  {
    if i < |src.text| {
      if src.text[i] == '\\' {
        TemplateSpans(src, i + 2, lost);
        SpansEarlier(src, src.Template(i + 2, lost), i, i + 2, lost);
      } else if src.text[i] == '`' {
      } else if src.At(i, '$', '{') {
        var t := src.Interpolation(i + 2, 1, lost);
        InterpolationSpans(src, i + 2, 1, lost);
        TemplateSpans(src, t.end, t.lost);
        SpansJoin(src, t, src.Template(t.end, t.lost), i, i + 2, lost);
      } else {
        TemplateSpans(src, i + 1, lost);
        SpansEarlier(src, src.Template(i + 1, lost), i, i + 1, lost);
      }
    }
  }

  lemma {:induction false} InterpolationSpans(src: Source, i: nat, depth: nat, lost: nat)
    requires depth >= 1
    ensures PartSpans(src, src.Interpolation(i, depth, lost), i, lost)
    decreases src.Left(i), 0
  {
    if i < |src.text| {
      if src.Opens(i) {
        var t := src.Token(i, lost);
        TokenSpans(src, i, lost);
        InterpolationSpans(src, t.end, depth, t.lost);
        SpansJoin(src, t, src.Interpolation(t.end, depth, t.lost), i, i, lost);
      } else if src.text[i] == '`' {
        var t := src.Template(i + 1, lost);
        TemplateSpans(src, i + 1, lost);
        InterpolationSpans(src, t.end, depth, t.lost);
        SpansJoin(src, t, src.Interpolation(t.end, depth, t.lost), i, i + 1, lost);
      } else if !(src.text[i] == '}' && depth == 1) {
        var inner := if src.text[i] == '{' then depth + 1 else if src.text[i] == '}' then depth - 1 else depth;
        InterpolationSpans(src, i + 1, inner, lost);
        SpansEarlier(src, src.Interpolation(i + 1, inner, lost), i, i + 1, lost);
      }
    }
  }

  /** The comments and quoted strings of a whole text. */
  function Found(text: string): Part {
    Source(text).Code(0, 0)
  }

  /** One report for each comment, in order: its line and its text. */
  lemma {:induction false} ReportAt(src: Source, comments: seq<Comment>)
    requires forall k :: 0 <= k < |comments| ==> IsComment(src, comments[k])
    ensures |Report(src, comments)| == |comments|
    ensures forall k :: 0 <= k < |comments| ==>
              IsComment(src, comments[k])
              && Report(src, comments)[k] == (comments[k].line, src.text[comments[k].start..comments[k].end])
  {
    if comments != [] {
      var n := |comments| - 1;
      ReportAt(src, comments[..n]);
      forall k | 0 <= k < n
        ensures Report(src, comments)[k] == Report(src, comments[..n])[k]
      {
      }
    }
  }

  /** What is reported are real comments, disjoint and in order. A reported line is right exactly when no quoted string
      before the comment escapes a newline, and otherwise too small by the number of newlines escaped. */
  lemma ReportedComments(text: string)
    ensures var src := Source(text);
            var p := Found(text);
            && (forall k :: 0 <= k < |p.comments| ==>
                  && IsComment(src, p.comments[k])
                  && p.comments[k].line == src.Line(p.comments[k].start) - Escaped(p.strings, p.comments[k].start)
                  && (p.comments[k].line == src.Line(p.comments[k].start) <==> !Continues(p.strings, p.comments[k].start)))
            && (forall k, m :: 0 <= k < m < |p.comments| ==> p.comments[k].end <= p.comments[m].start)
            && (forall q :: q in p.strings ==> IsQuoted(src, q))
            && |Report(src, p.comments)| == |p.comments|
            && forall k :: 0 <= k < |p.comments| ==>
                 Report(src, p.comments)[k] == (p.comments[k].line, text[p.comments[k].start..p.comments[k].end])
  {
    var p := Found(text);
    CodeSpans(Source(text), 0, 0);
    ReportAt(Source(text), p.comments);
    forall k | 0 <= k < |p.comments|
      ensures Escaped(p.strings, p.comments[k].start) > 0 <==> Continues(p.strings, p.comments[k].start)
    {
      EscapedIff(p.strings, p.comments[k].start);
    }
  }

  /** All lines are right exactly when no quoted string before the last comment escapes a newline. */
  lemma AllLinesRightIff(text: string)
    ensures var src := Source(text);
            var p := Found(text);
            (forall k :: 0 <= k < |p.comments| ==> p.comments[k].line == src.Line(p.comments[k].start))
            <==> p.comments == [] || !Continues(p.strings, p.comments[|p.comments| - 1].start)
  {
    ReportedComments(text);
    var p := Found(text);
    var last := |p.comments| - 1;
    forall k | 0 <= k < |p.comments| && Continues(p.strings, p.comments[k].start)
      ensures Continues(p.strings, p.comments[last].start)
    {
      var i :| 0 <= i < |p.strings| && p.strings[i].start < p.comments[k].start && p.strings[i].escaped > 0;
      assert k < last ==> p.comments[k].end <= p.comments[last].start;
    }
  }

  /** Such texts exist: after a quoted line continuation, a comment on line 2 is reported on line 1. */
  lemma ContinuationShiftsLines()
    ensures var src := Source("'\\\n'//");
            src.Code(0, 0).comments == [Comment(4, 6, 1)] && src.Line(4) == 2
  {
    var src := Source("'\\\n'//");
    assert src.QuotedEnd(3, '\'') == (4, 0);
    assert src.QuotedEnd(1, '\'') == (4, 1);
    assert src.Newlines(2) == 0 && src.Newlines(3) == 1 && src.Newlines(4) == 1;
    assert src.LineEnd(5) == 6 && src.LineEnd(4) == 6;
    assert src.Code(6, 1) == Part([], [], 6, 1);
    assert src.Token(4, 1) == Part([Comment(4, 6, 1)], [], 6, 1);
    assert src.Code(4, 1).comments == [Comment(4, 6, 1)];
    assert src.Token(0, 0) == Part([], [Quoted(0, 4, 1)], 4, 1);
  }

  // ---- what strings, templates and interpolations are ----

  /** The backslashes directly before `k`, counted down to `i`. */
  function Slashes(src: Source, i: nat, k: nat): nat {
    if k <= i || k > |src.text| || src.text[k - 1] != '\\' then 0 else 1 + Slashes(src, i, k - 1)
  }

  /** An odd number of backslashes stands before it. */
  predicate IsEscaped(src: Source, i: nat, k: nat) {
    Slashes(src, i, k) % 2 == 1
  }

  function EscapedNewlines(src: Source, i: nat, k: nat): nat {
    if k <= i then 0
    else
      EscapedNewlines(src, i, k - 1) +
      if k <= |src.text| && src.text[k - 1] == '\n' && IsEscaped(src, i, k - 1) then 1 else 0
  }

  lemma {:induction false} AfterPlain(src: Source, i: nat, k: nat)
    requires i < |src.text| && src.text[i] != '\\' && k > i
    ensures Slashes(src, i, k) == Slashes(src, i + 1, k) && EscapedNewlines(src, i, k) == EscapedNewlines(src, i + 1, k)
  {
    if k > i + 1 { AfterPlain(src, i, k - 1); }
  }

  lemma {:induction false} AfterBackslash(src: Source, i: nat, k: nat)
    requires i < |src.text| && src.text[i] == '\\' && k >= i + 2
    ensures IsEscaped(src, i, k) == IsEscaped(src, i + 2, k)
    ensures EscapedNewlines(src, i, k) ==
            EscapedNewlines(src, i + 2, k) + if i + 1 < |src.text| && src.text[i + 1] == '\n' then 1 else 0
  {
    assert Slashes(src, i, i) == 0 && Slashes(src, i, i + 1) == 1;
    assert EscapedNewlines(src, i, i) == 0 && EscapedNewlines(src, i, i + 1) == 0;
    if k > i + 2 { AfterBackslash(src, i, k - 1); }
  }

  /** A quoted string ends at the first quote before which an even number of backslashes stands, and loses the newlines
      before which an odd number stands. */
  lemma {:induction false} QuotedEndsAtUnescapedQuote(src: Source, i: nat, quote: char)
    requires quote != '\\'
    ensures var e := src.QuotedEnd(i, quote).0 - 1;
            && e >= i && (e < |src.text| ==> src.text[e] == quote && !IsEscaped(src, i, e))
            && (forall k :: i <= k < e && k < |src.text| && src.text[k] == quote ==> IsEscaped(src, i, k))
            && src.QuotedEnd(i, quote).1 == EscapedNewlines(src, i, e)
    decreases src.Left(i)
  {
    var e := src.QuotedEnd(i, quote).0 - 1;
    if i < |src.text| && src.text[i] == '\\' {
      QuotedEndsAtUnescapedQuote(src, i + 2, quote);
      forall k | i + 2 <= k <= e
        ensures IsEscaped(src, i, k) == IsEscaped(src, i + 2, k)
      {
        AfterBackslash(src, i, k);
      }
      assert Slashes(src, i, i) == 0 && Slashes(src, i, i + 1) == 1;
      AfterBackslash(src, i, e);
    } else if i < |src.text| && src.text[i] != quote {
      QuotedEndsAtUnescapedQuote(src, i + 1, quote);
      forall k | i + 1 <= k <= e
        ensures IsEscaped(src, i, k) == IsEscaped(src, i + 1, k)
      {
        AfterPlain(src, i, k);
      }
      AfterPlain(src, i, e);
    }
  }

  /** Neither a string nor a comment nor a template starts in this stretch. */
  predicate Plain(src: Source, i: nat, j: nat) {
    j <= |src.text| && forall k :: i <= k < j ==> !src.Opens(k) && src.text[k] != '`'
  }

  /** The braces opened less the braces closed. */
  function Braces(src: Source, i: nat, j: nat): int
    requires j <= |src.text|
  {
    if j <= i then 0 else Braces(src, i, j - 1) + if src.text[j - 1] == '{' then 1 else if src.text[j - 1] == '}' then -1 else 0
  }

  lemma {:induction false} BracesCons(src: Source, i: nat, j: nat)
    requires i < j <= |src.text|
    ensures Braces(src, i, j) == (if src.text[i] == '{' then 1 else if src.text[i] == '}' then -1 else 0) + Braces(src, i + 1, j)
  {
    if j > i + 1 { BracesCons(src, i, j - 1); }
  }

  /** Code is skipped as it is, and an interpolation goes on as long as some brace of it is open. */
  lemma {:induction false} PlainIsSkipped(src: Source, i: nat, j: nat, depth: nat, lost: nat)
    requires i <= j && Plain(src, i, j)
    ensures src.Code(i, lost) == src.Code(j, lost)
    ensures depth >= 1 && (forall k :: i <= k <= j ==> depth + Braces(src, i, k) >= 1) ==>
              src.Interpolation(i, depth, lost) == src.Interpolation(j, depth + Braces(src, i, j), lost)
    decreases j - i
  {
    if i < j {
      var d := if src.text[i] == '{' then 1 else if src.text[i] == '}' then -1 else 0;
      assert Braces(src, i, i) == 0 && Braces(src, i, i + 1) == d;
      if depth >= 1 && forall k :: i <= k <= j ==> depth + Braces(src, i, k) >= 1 {
        forall k | i + 1 <= k <= j
          ensures Braces(src, i, k) == d + Braces(src, i + 1, k)
        {
          BracesCons(src, i, k);
        }
        assert depth + Braces(src, i, i + 1) >= 1;
        var next := i + 1;
        forall k | next <= k <= j
          ensures depth + d + Braces(src, next, k) >= 1
        {
          assert depth + Braces(src, i, k) >= 1;
        }
        PlainIsSkipped(src, i + 1, j, depth + d, lost);
        assert src.Interpolation(i, depth, lost) == src.Interpolation(i + 1, depth + d, lost);
      } else {
        PlainIsSkipped(src, i + 1, j, 0, lost);
      }
    }
  }

  /** An interpolation ends at the brace that closes the one it was opened with, not at a balanced one inside. */
  lemma InterpolationEndsAtItsBrace(src: Source, i: nat, j: nat, lost: nat)
    requires i <= j < |src.text| && Plain(src, i, j) && src.text[j] == '}'
    requires (forall k :: i <= k <= j ==> Braces(src, i, k) >= 0) && Braces(src, i, j) == 0
    ensures src.Interpolation(i, 1, lost) == Part([], [], j + 1, lost)
  {
    PlainIsSkipped(src, i, j, 1, lost);
  }

  /** Plain template text. */
  predicate IsDull(src: Source, k: nat) {
    k < |src.text| && src.text[k] != '\\' && src.text[k] != '`' && !src.At(k, '$', '{')
  }

  /** A template is skipped up to an escape, its closing backtick or an interpolation: nothing in it is a string or comment. */
  lemma {:induction false} TemplateTextIsSkipped(src: Source, i: nat, j: nat, lost: nat)
    requires i <= j <= |src.text| && forall k: nat :: i <= k < j ==> IsDull(src, k)
    ensures src.Template(i, lost) == src.Template(j, lost)
    decreases j - i
  {
    if i < j {
      assert IsDull(src, i);
      TemplateTextIsSkipped(src, i + 1, j, lost);
    }
  }

  /** A template without interpolations ends at its first backtick before which an even number of backslashes stands. */
  lemma {:induction false} TemplateEndsAtUnescapedBacktick(src: Source, i: nat, j: nat, lost: nat)
    requires i <= j < |src.text| && src.text[j] == '`' && !IsEscaped(src, i, j)
    requires forall k: nat :: i <= k < j && (src.text[k] == '`' || src.At(k, '$', '{')) ==> IsEscaped(src, i, k)
    ensures src.Template(i, lost) == Part([], [], j + 1, lost)
    decreases j - i
  {
    assert Slashes(src, i, i) == 0;
    if i < j && src.text[i] == '\\' {
      assert Slashes(src, i, i + 1) == 1;
      forall k | i + 2 <= k <= j
        ensures IsEscaped(src, i, k) == IsEscaped(src, i + 2, k)
      {
        AfterBackslash(src, i, k);
      }
      TemplateEndsAtUnescapedBacktick(src, i + 2, j, lost);
    } else if i < j {
      forall k | i + 1 <= k <= j
        ensures IsEscaped(src, i, k) == IsEscaped(src, i + 1, k)
      {
        AfterPlain(src, i, k);
      }
      TemplateEndsAtUnescapedBacktick(src, i + 1, j, lost);
    }
  }

  /** An interpolation in a template is read as code up to its brace, and the template goes on behind it. */
  lemma TemplateGoesOn(src: Source, i: nat, inner: nat, j: nat, lost: nat)
    requires src.At(i, '$', '{') && inner == i + 2 <= j < |src.text| && Plain(src, inner, j) && src.text[j] == '}'
    requires (forall k :: inner <= k <= j ==> Braces(src, inner, k) >= 0) && Braces(src, inner, j) == 0
    ensures src.Template(i, lost) == src.Template(j + 1, lost)
  {
    InterpolationEndsAtItsBrace(src, inner, j, lost);
  }

  /** What stands in code is found: a comment in its place, nothing in a string. */
  lemma CodeFindsToken(src: Source, i: nat, j: nat, lost: nat)
    requires i <= j && Plain(src, i, j) && src.Opens(j)
    ensures src.Code(i, lost) == src.Code(src.Token(j, lost).end, src.Token(j, lost).lost).After(src.Token(j, lost))
    ensures src.text[j] == '/' <==> src.Token(j, lost).comments != []
    ensures src.text[j] == '/' ==> src.Token(j, lost).comments[0].start == j && IsComment(src, src.Token(j, lost).comments[0])
  {
    PlainIsSkipped(src, i, j, 0, lost);
    TokenSpans(src, j, lost);
  }
}
