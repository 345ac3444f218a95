/** Splitting expression text into tokens, and the round trip from syntax tree to text and back. */
module ExprLexer {
  import opened Common
  import opened ExprLaws
  import opened ExprParser
  import opened ExprPrinter
  import opened ExprTrees

  function SpaceRun(s: string): (k: nat)
    ensures k <= |s| && (k < |s| ==> !IsSpace(s[k]))
  {
    if s == "" || !IsSpace(s[0]) then 0 else 1 + SpaceRun(s[1..])
  }

  function WordRun(s: string): (k: nat)
    ensures k <= |s|
  {
    if s == "" || !IsWordPart(s[0]) then 0 else 1 + WordRun(s[1..])
  }

  /** The position of the first quote. */
  function FindQuote(s: string): (k: nat)
    ensures k <= |s|
  {
    if s == "" || s[0] == '\'' then 0 else 1 + FindQuote(s[1..])
  }

  function NumberRun(s: string): (k: nat)
    ensures k <= |s|
  {
    var k := DigitRun(s);
    if 0 < k < |s| && s[k] == '.' && DigitRun(s[k + 1..]) > 0 then k + 1 + DigitRun(s[k + 1..]) else k
  }

  /** The length of the token at the front of `s`, or 0 when none starts there. */
  function LexLength(s: string): (n: nat)
    ensures n <= |s|
  {
    if s == "" then 0
    else if |s| >= 2 && s[..2] in PAIRS then 2
    else if s[0] in SINGLES then 1
    else if s[0] == '\'' then (var k := FindQuote(s[1..]); if k < |s[1..]| then k + 2 else 0)
    else if IsWordStart(s[0]) then WordRun(s)
    else NumberRun(s)
  }

  function Prepend(front: seq<string>, r: Result<seq<string>, Fault>): Result<seq<string>, Fault> {
    if r.Err? then r else Ok(front + r.value)
  }

  function TokensOf(s: string): Result<seq<string>, Fault>
    decreases |s|
  {
    var k := SpaceRun(s);
    if k == |s| then Ok([])
    else
      var left := s[k..];
      var n := LexLength(left);
      if n == 0 then Err(UnknownSyntax) else Prepend([left[..n]], TokensOf(left[n..]))
  }

  lemma PrependTwice(whole: Result<seq<string>, Fault>, tokens: seq<string>, t: string, r: Result<seq<string>, Fault>)
    requires whole == Prepend(tokens, Prepend([t], r))
    ensures whole == Prepend(tokens + [t], r)
  {
    assert r.Ok? ==> tokens + ([t] + r.value) == tokens + [t] + r.value;
  }

  lemma {:induction false} TokensStep(s: string, left: string, n: nat)
    requires SpaceRun(s) < |s| && left == s[SpaceRun(s)..] && n == LexLength(left) > 0
    ensures TokensOf(s) == Prepend([left[..n]], TokensOf(left[n..]))
  {
  }

  lemma Further(s: string, i: nat, k: nat, n: nat)
    requires i + k + n <= |s|
    ensures s[i..][k..][n..] == s[i + k + n..]
  {
  }

  lemma OneTokenMore(source: string, position: nat, tokens: seq<string>, k: nat, n: nat)
    requires position <= |source| && k == SpaceRun(source[position..]) < |source[position..]|
    requires n == LexLength(source[position..][k..]) && n > 0
    requires TokensOf(source) == Prepend(tokens, TokensOf(source[position..]))
    ensures position + k + n <= |source| && source[position..][k..][n..] == source[position + k + n..]
    ensures TokensOf(source) == Prepend(tokens + [source[position..][k..][..n]], TokensOf(source[position..][k..][n..]))
  {
    var left := source[position..][k..];
    TokensStep(source[position..], left, n);
    PrependTwice(TokensOf(source), tokens, left[..n], TokensOf(left[n..]));
    Further(source, position, k, n);
  }

  method Tokenize(source: string) returns (r: Result<seq<string>, Fault>)
    ensures r == TokensOf(source)
  {
    var tokens: seq<string> := [];
    var position, rest := 0, source;
    assert source[0..] == source;
    assert TokensOf(source).Ok? ==> [] + TokensOf(source).value == TokensOf(source).value;
    while position < |source|
      invariant position <= |source| && rest == source[position..]
      invariant TokensOf(source) == Prepend(tokens, TokensOf(rest))
    {
      var k := SpaceRun(rest);
      if k == |rest| { break; }
      var left := rest[k..];
      var n := LexLength(left);
      if n == 0 { return Err(UnknownSyntax); }
      OneTokenMore(source, position, tokens, k, n);
      tokens := tokens + [left[..n]];
      position, rest := position + k + n, left[n..];
    }
    assert TokensOf(rest) == Ok([]) && tokens + [] == tokens;
    r := Ok(tokens);
  }

  /** The value of an expression given as text. */
  function Evaluated(source: string, context: map<string, Value>, host: Host): Result<Value, Fault> {
    var ts := TokensOf(source);
    if ts.Err? then Err(ts.error) else Input(ts.value, context, host).Whole()
  }

  method Evaluate(source: string, context: map<string, Value>, host: Host) returns (r: Result<Value, Fault>)
    ensures r == Evaluated(source, context, host)
  {
    var ts := Tokenize(source);
    if ts.Err? { return Err(ts.error); }
    var parser := new Parser(Input(ts.value, context, host));
    r := parser.Parse();
  }

  // ---- text with arbitrary legal spacing ----

  /** Characters that would be read as part of the token before them. */
  predicate Glues(t: string, c: char) {
    (IsWord(t) && IsWordPart(c)) || (IsNumber(t) && (IsDigit(c) || c == '.')) || (t == "!" && c == '=')
  }

  /** `gaps[i]` is the white space before token `i`; the last one is at the end. */
  ghost predicate Spaced(ts: seq<string>, gaps: seq<string>) {
    && |gaps| == |ts| + 1
    && (forall i, c :: 0 <= i < |gaps| && c in gaps[i] ==> IsSpace(c))
    && (forall i :: 0 < i < |ts| && ts[i] != "" && Glues(ts[i - 1], ts[i][0]) ==> gaps[i] != "")
  }

  ghost function Render(ts: seq<string>, gaps: seq<string>): string
    requires |gaps| == |ts| + 1
  {
    if ts == [] then gaps[0] else gaps[0] + (ts[0] + Render(ts[1..], gaps[1..]))
  }

  lemma {:induction false} SpaceRunOf(gap: string, rest: string)
    requires (forall c :: c in gap ==> IsSpace(c)) && (rest != "" ==> !IsSpace(rest[0]))
    ensures SpaceRun(gap + rest) == |gap|
  {
    if gap == "" {
      assert gap + rest == rest;
    } else {
      assert (gap + rest)[1..] == gap[1..] + rest;
      SpaceRunOf(gap[1..], rest);
    }
  }

  lemma {:induction false} WordRunOf(t: string, rest: string)
    requires (forall c :: c in t ==> IsWordPart(c)) && (rest != "" ==> !IsWordPart(rest[0]))
    ensures WordRun(t + rest) == |t|
  {
    if t == "" {
      assert t + rest == rest;
    } else {
      assert (t + rest)[1..] == t[1..] + rest;
      WordRunOf(t[1..], rest);
    }
  }

  lemma {:induction false} FindQuoteOf(t: string, rest: string)
    requires '\'' !in t && rest != "" && rest[0] == '\''
    ensures FindQuote(t + rest) == |t|
  {
    if t == "" {
      assert t + rest == rest;
    } else {
      assert (t + rest)[1..] == t[1..] + rest;
      FindQuoteOf(t[1..], rest);
    }
  }

  lemma {:induction false} DigitRunDigits(t: string)
    ensures forall c :: c in t[..DigitRun(t)] ==> IsDigit(c)
  {
    if t != "" && IsDigit(t[0]) {
      DigitRunDigits(t[1..]);
      assert t[..1 + DigitRun(t[1..])] == [t[0]] + t[1..][..DigitRun(t[1..])];
    }
  }

  lemma NumberRunOf(t: string, rest: string)
    requires IsNumber(t) && (rest != "" ==> !IsDigit(rest[0]) && rest[0] != '.')
    ensures NumberRun(t + rest) == |t|
  {
    var k := DigitRun(t);
    DigitRunDigits(t);
    if k == |t| {
      assert t == t[..k];
      DigitRunOf(t, rest);
    } else {
      assert t + rest == t[..k] + (t[k..] + rest);
      DigitRunOf(t[..k], t[k..] + rest);
      assert (t + rest)[k + 1..] == t[k + 1..] + rest;
      DigitRunOf(t[k + 1..], rest);
    }
  }

  /** A token is read back whole unless the next character glues to it. */
  lemma LexOne(t: string, rest: string)
    requires IsToken(t) && (rest != "" ==> !Glues(t, rest[0]))
    ensures |t| > 0 && LexLength(t + rest) == |t| && !IsSpace(t[0])
  {
    var s := t + rest;
    assert s[0] == t[0];
    if t in PAIRS {
      assert s[..2] == t;
    } else if |t| == 1 && t[0] in SINGLES {
      if |s| >= 2 { assert s[..2] == [t[0], rest[0]]; }
    } else if IsQuoted(t) {
      assert s[1..] == t[1..|t| - 1] + ([t[|t| - 1]] + rest);
      FindQuoteOf(t[1..|t| - 1], [t[|t| - 1]] + rest);
    } else if IsWord(t) {
      WordRunOf(t, rest);
    } else {
      assert IsDigit(t[0]);
      NumberRunOf(t, rest);
    }
  }

  /** Tokens written out with any legal spacing are read back exactly. */
  lemma {:induction false} TokensReadBack(ts: seq<string>, gaps: seq<string>)
    requires (forall t :: t in ts ==> IsToken(t)) && Spaced(ts, gaps)
    ensures TokensOf(Render(ts, gaps)) == Ok(ts)
  {
    if ts == [] {
      SpaceRunOf(gaps[0], "");
      assert gaps[0] + "" == gaps[0];
    } else {
      var t, tail := ts[0], Render(ts[1..], gaps[1..]);
      TailStart(ts, gaps);
      OneTokenRead(gaps[0], t, tail);
      TokensReadBack(ts[1..], gaps[1..]);
      assert [t] + ts[1..] == ts;
    }
  }

  lemma OneTokenRead(gap: string, t: string, tail: string)
    requires IsToken(t) && (forall c :: c in gap ==> IsSpace(c)) && (tail != "" ==> !Glues(t, tail[0]))
    ensures TokensOf(gap + (t + tail)) == Prepend([t], TokensOf(tail))
  {
    var s := gap + (t + tail);
    LexOne(t, tail);
    SpaceRunOf(gap, t + tail);
    var left := s[|gap|..];
    assert left == t + tail && left[..|t|] == t && left[|t|..] == tail;
  }

  lemma TailStart(ts: seq<string>, gaps: seq<string>)
    requires ts != [] && (forall t :: t in ts ==> IsToken(t)) && Spaced(ts, gaps)
    ensures var tail := Render(ts[1..], gaps[1..]); tail != "" ==> !Glues(ts[0], tail[0])
  {
    var tail := Render(ts[1..], gaps[1..]);
    if tail != "" {
      assert gaps[1..][0] == gaps[1];
      if gaps[1] != "" {
        assert tail[0] == gaps[1][0] && gaps[1][0] in gaps[1] && IsSpace(tail[0]);
      } else if |ts| > 1 {
        LexOne(ts[1], "");
        assert tail[0] == ts[1][0];
      }
    }
  }

  lemma {:induction false} ProperAreTokens(tree: Tree)
    requires Proper(tree) && Graded(tree)
    ensures AllTokens(Yield(tree))
  {
    match tree
    case Leaf(_) =>
    case Group(x) => ProperAreTokens(x);
    case Invoke(_, args) => ProperArgsAreTokens(args);
    case Negate(x) => ProperAreTokens(x);
    case Binary(_, l, r) => ProperAreTokens(l); ProperAreTokens(r);
  }

  lemma {:induction false} ProperArgsAreTokens(args: Args)
    requires ProperArgs(args) && GradedArgs(args)
    ensures AllTokens(YieldArgs(args))
  {
    match args
    case NoArgs =>
    case Arg(first, _, rest) => ProperAreTokens(first); ProperArgsAreTokens(rest);
  }

  lemma RenderedAreTokens(e: Expr, ts: seq<string>)
    requires Renders(e, ts)
    ensures AllTokens(ts)
  {
    var tree :| Shows(tree, e, ts);
    ProperAreTokens(tree);
  }

  /** The text of an expression: its tokens, with any parentheses that precedence allows, and any legal spacing. */
  ghost predicate IsTextOf(source: string, e: Expr) {
    exists ts, gaps :: Spaced(ts, gaps) && Renders(e, ts) && source == Render(ts, gaps)
  }

  /** Round trip: any text of an expression evaluates to the meaning of the expression, faults included. */
  lemma TextEvaluates(source: string, e: Expr, context: map<string, Value>, host: Host)
    requires IsTextOf(source, e)
    ensures WellFormed(e) && Evaluated(source, context, host) == Eval(e, context, host)
  {
    var ts, gaps :| Spaced(ts, gaps) && Renders(e, ts) && source == Render(ts, gaps);
    RenderedAreTokens(e, ts);
    TokensReadBack(ts, gaps);
    RenderedEvaluates(e, Input(ts, context, host));
  }

  /** In particular the printed one does. */
  lemma PrintedTextEvaluates(e: Expr, gaps: seq<string>, context: map<string, Value>, host: Host)
    requires WellFormed(e) && Spaced(Print(e), gaps)
    ensures IsTextOf(Render(Print(e), gaps), e)
    ensures Evaluated(Render(Print(e), gaps), context, host) == Eval(e, context, host)
  {
    PrintedTokensEvaluate(e, context, host);
    TextEvaluates(Render(Print(e), gaps), e, context, host);
  }

  // ---- which texts are those of an expression ----

  /** What was skipped before each token, and at the end. */
  function GapsOf(s: string): seq<string>
    decreases |s|
  {
    var k := SpaceRun(s);
    if k == |s| then [s]
    else
      var left := s[k..];
      var n := LexLength(left);
      if n == 0 then [s] else [s[..k]] + GapsOf(left[n..])
  }

  lemma {:induction false} SpaceRunSpaces(s: string)
    ensures forall c :: c in s[..SpaceRun(s)] ==> IsSpace(c)
  {
    if s != "" && IsSpace(s[0]) {
      SpaceRunSpaces(s[1..]);
      assert s[..1 + SpaceRun(s[1..])] == [s[0]] + s[1..][..SpaceRun(s[1..])];
    }
  }

  lemma {:induction false} WordRunParts(s: string)
    ensures forall c :: c in s[..WordRun(s)] ==> IsWordPart(c)
    ensures WordRun(s) < |s| ==> !IsWordPart(s[WordRun(s)])
  {
    if s != "" && IsWordPart(s[0]) {
      WordRunParts(s[1..]);
      assert s[..1 + WordRun(s[1..])] == [s[0]] + s[1..][..WordRun(s[1..])];
    }
  }

  lemma {:induction false} FindQuoteFirst(s: string)
    ensures '\'' !in s[..FindQuote(s)] && (FindQuote(s) < |s| ==> s[FindQuote(s)] == '\'')
  {
    if s != "" && s[0] != '\'' {
      FindQuoteFirst(s[1..]);
      assert s[..1 + FindQuote(s[1..])] == [s[0]] + s[1..][..FindQuote(s[1..])];
    }
  }

  lemma {:induction false} DigitRunEnds(s: string)
    ensures DigitRun(s) < |s| ==> !IsDigit(s[DigitRun(s)])
  {
    if s != "" && IsDigit(s[0]) { DigitRunEnds(s[1..]); }
  }

  lemma NumberRunIsNumber(s: string)
    requires NumberRun(s) > 0
    ensures IsNumber(s[..NumberRun(s)]) && (NumberRun(s) < |s| ==> !IsDigit(s[NumberRun(s)]))
  {
    var k := DigitRun(s);
    DigitRunDigits(s);
    DigitRunEnds(s);
    var n := NumberRun(s);
    if n == k {
      assert s[..k] + "" == s[..k];
      DigitRunOf(s[..k], "");
    } else {
      var rest := s[k + 1..];
      DigitRunDigits(rest);
      DigitRunEnds(rest);
      assert s[..n][k + 1..] == rest[..DigitRun(rest)];
      assert s[..n] == s[..k] + s[k..n];
      DigitRunOf(s[..k], s[k..n]);
    }
  }

  lemma QuoteIsQuoted(s: string)
    requires s != "" && s[0] == '\'' && FindQuote(s[1..]) < |s[1..]|
    ensures IsQuoted(s[..FindQuote(s[1..]) + 2])
  {
    var k := FindQuote(s[1..]);
    FindQuoteFirst(s[1..]);
    assert s[..k + 2][1..k + 1] == s[1..][..k] && s[..k + 2][k + 1] == s[1..][k];
  }

  /** What the lexer takes is a token, as long as it can be. */
  lemma LexedIsToken(s: string)
    requires LexLength(s) > 0
    ensures IsToken(s[..LexLength(s)])
    ensures LexLength(s) < |s| && s[LexLength(s)] != '.' ==> !Glues(s[..LexLength(s)], s[LexLength(s)])
  {
    var n := LexLength(s);
    var t := s[..n];
    assert t[0] == s[0];
    if |s| >= 2 && s[..2] in PAIRS {
    } else if s[0] in SINGLES {
      if n < |s| && s[1] == '=' { assert s[..2] == [s[0], '=']; }
    } else if s[0] == '\'' {
      QuoteIsQuoted(s);
    } else if IsWordStart(s[0]) {
      WordRunParts(s);
    } else {
      NumberRunIsNumber(s);
      assert IsDigit(t[0]);
    }
  }

  lemma TokenStart(t: string)
    requires IsToken(t)
    ensures t != "" && t[0] != '.'
  {
    if IsNumber(t) { assert IsDigit(t[0]); }
  }

  /** Any text that splits into tokens is a legal spacing of them. */
  lemma {:induction false} LexedIsSpaced(s: string)
    requires TokensOf(s).Ok?
    ensures AllTokens(TokensOf(s).value) && Spaced(TokensOf(s).value, GapsOf(s)) && Render(TokensOf(s).value, GapsOf(s)) == s
    decreases |s|
  {
    var k := SpaceRun(s);
    SpaceRunSpaces(s);
    if k == |s| {
      assert s[..k] == s;
    } else {
      var left := s[k..];
      var n := LexLength(left);
      var rest := left[n..];
      TokensStep(s, left, n);
      GapsStep(s, left, n);
      LexedIsSpaced(rest);
      LexedIsToken(left);
      SpacedCons(s[..k], left[..n], TokensOf(rest).value, GapsOf(rest), rest);
      CutText(s, k, n);
    }
  }

  lemma CutText(s: string, k: nat, n: nat)
    requires k + n <= |s|
    ensures s == s[..k] + (s[k..][..n] + s[k..][n..])
  {
    assert s[k..] == s[k..][..n] + s[k..][n..];
  }

  lemma {:induction false} GapsStep(s: string, left: string, n: nat)
    requires SpaceRun(s) < |s| && left == s[SpaceRun(s)..] && n == LexLength(left) > 0
    ensures GapsOf(s) == [s[..SpaceRun(s)]] + GapsOf(left[n..])
  {
  }

  lemma SpacedCons(gap: string, t: string, ts: seq<string>, gaps: seq<string>, rest: string)
    requires (forall c :: c in gap ==> IsSpace(c)) && IsToken(t)
    requires AllTokens(ts) && Spaced(ts, gaps) && Render(ts, gaps) == rest
    requires rest != "" && rest[0] != '.' ==> !Glues(t, rest[0])
    ensures Spaced([t] + ts, [gap] + gaps) && Render([t] + ts, [gap] + gaps) == gap + (t + rest)
  {
    var ts', gaps' := [t] + ts, [gap] + gaps;
    assert ts'[1..] == ts && gaps'[1..] == gaps;
    if ts != [] && gaps[0] == "" {
      TokenStart(ts[0]);
      assert rest == ts[0] + Render(ts[1..], gaps[1..]) && rest[0] == ts[0][0];
    }
    forall i, c | 0 <= i < |gaps'| && c in gaps'[i]
      ensures IsSpace(c)
    {
      assert i > 0 ==> gaps'[i] == gaps[i - 1];
    }
    forall i | 0 < i < |ts'| && ts'[i] != "" && Glues(ts'[i - 1], ts'[i][0])
      ensures gaps'[i] != ""
    {
      assert ts'[i] == ts[i - 1] && gaps'[i] == gaps[i - 1];
    }
  }

  /** The converse of the round trip: a text is that of some expression exactly when it splits into tokens, shows no syntax
      fault, and is tidy. */
  lemma TextIff(source: string)
    ensures (exists e :: IsTextOf(source, e)) <==>
            var ts := TokensOf(source); ts.Ok? && SyntaxTree(ts.value).Some? && Tidy(ts.value)
  {
    if TokensOf(source).Ok? {
      var ts := TokensOf(source).value;
      LexedIsSpaced(source);
      RenderedIffTidy(ts);
      if e :| Renders(e, ts) {
        assert IsTextOf(source, e);
      }
    }
    if e :| IsTextOf(source, e) {
      var ts, gaps :| Spaced(ts, gaps) && Renders(e, ts) && source == Render(ts, gaps);
      RenderedAreTokens(e, ts);
      TokensReadBack(ts, gaps);
      RenderedIffTidy(ts);
    }
  }

  /** Of the texts that evaluate to a value, exactly the tidy ones are texts of expressions. */
  lemma AcceptedIsTextIff(source: string, context: map<string, Value>, host: Host)
    requires Evaluated(source, context, host).Ok?
    ensures (exists e :: IsTextOf(source, e)) <==> Tidy(TokensOf(source).value)
  {
    TextIff(source);
    WholeIsMeaning(Input(TokensOf(source).value, context, host));
  }

  // ---- three accepted texts of no expression ----

  /** A lone operator stands for an empty operand ... */
  lemma AcceptsLoneOperator(gaps: seq<string>, context: map<string, Value>, host: Host)
    requires Spaced(["&&"], gaps) && "&&" !in context
    ensures Evaluated(Render(["&&"], gaps), context, host) == Ok(Str(""))
    ensures !exists e :: IsTextOf(Render(["&&"], gaps), e)
  {
    var ts := ["&&"];
    assert IsToken("&&");
    TokensReadBack(ts, gaps);
    SplitPlain("&&");
    assert Descend(["&&"], Obj(context)) == Str("");
    PrimaryIsWhole(ts, Leaf("&&"));
    WholeIsMeaning(Input(ts, context, host));
    assert !TidyAt(ts, 0);
    TextIff(Render(ts, gaps));
  }

  /** ... a call may lack the comma between its arguments ... */
  lemma AcceptsMissingComma(gaps: seq<string>, context: map<string, Value>, host: Host)
    requires host.lower("startswith") == "startswith" && Spaced(["startswith", "(", "'a'", "'a'", ")"], gaps)
    ensures var text := Render(["startswith", "(", "'a'", "'a'", ")"], gaps);
            Evaluated(text, context, host) == Ok(Bool(true)) && !exists e :: IsTextOf(text, e)
  {
    var ts := ["startswith", "(", "'a'", "'a'", ")"];
    LiteralRead(ts, 2);
    LiteralRead(ts, 3);
    assert ArgsTree(ts, 4) == Ok((NoArgs, 4));
    assert ArgsTree(ts, 3) == Ok((Arg(Leaf("'a'"), false, NoArgs), 4));
    assert ArgsTree(ts, 2) == Ok((Arg(Leaf("'a'"), false, Arg(Leaf("'a'"), false, NoArgs)), 4));
    assert !Due(ts, 3) && !TidyAt(ts, 3);
    CallOfTwo(ts, gaps, context, host);
  }

  /** ... or have one too many. */
  lemma AcceptsTrailingComma(gaps: seq<string>, context: map<string, Value>, host: Host)
    requires host.lower("startswith") == "startswith" && Spaced(["startswith", "(", "'a'", ",", "'a'", ",", ")"], gaps)
    ensures var text := Render(["startswith", "(", "'a'", ",", "'a'", ",", ")"], gaps);
            Evaluated(text, context, host) == Ok(Bool(true)) && !exists e :: IsTextOf(text, e)
  {
    var ts := ["startswith", "(", "'a'", ",", "'a'", ",", ")"];
    LiteralRead(ts, 2);
    LiteralRead(ts, 4);
    assert ArgsTree(ts, 6) == Ok((NoArgs, 6));
    assert ArgsTree(ts, 4) == Ok((Arg(Leaf("'a'"), true, NoArgs), 6));
    assert ArgsTree(ts, 2) == Ok((Arg(Leaf("'a'"), true, Arg(Leaf("'a'"), true, NoArgs)), 6));
    assert !TidyAt(ts, 6);
    CallOfTwo(ts, gaps, context, host);
  }

  lemma LiteralRead(ts: seq<string>, i: nat)
    requires i + 1 < |ts| && ts[i] == "'a'" && ts[i + 1] in ["'a'", ",", ")"]
    ensures TreeFrom(ts, 0, i) == Ok((Leaf("'a'"), i + 1))
  {
    assert IsQuoted("'a'") && ts[i..i + 1] == ["'a'"];
    TreeReads(ts, Leaf("'a'"), 0, i, i + 1);
  }

  lemma CallOfTwo(ts: seq<string>, gaps: seq<string>, context: map<string, Value>, host: Host)
    requires host.lower("startswith") == "startswith" && Spaced(ts, gaps)
    requires |ts| > 4 && ts[0] == "startswith" && ts[1] == "(" && forall i :: 2 <= i < |ts| ==> ts[i] in ["'a'", ",", ")"]
    requires ArgsTree(ts, 2).Ok? && ArgsTree(ts, 2).value.1 == |ts| - 1 && IsTwice(ArgsTree(ts, 2).value.0)
    requires !Tidy(ts)
    ensures Evaluated(Render(ts, gaps), context, host) == Ok(Bool(true)) && !exists e :: IsTextOf(Render(ts, gaps), e)
  {
    assert IsWord("startswith") && IsQuoted("'a'");
    forall t | t in ts
      ensures IsToken(t)
    {
      var i := IndexOf(ts, t);
    }
    TokensReadBack(ts, gaps);
    CallIsWhole(ts);
    WholeIsMeaning(Input(ts, context, host));
    TwiceIsTrue(ArgsTree(ts, 2).value.0, context, host);
    TextIff(Render(ts, gaps));
  }

  lemma CallIsWhole(ts: seq<string>)
    requires |ts| > 4 && ts[0] == "startswith" && ts[1] == "(" && ArgsTree(ts, 2).Ok? && ArgsTree(ts, 2).value.1 == |ts| - 1
    ensures SyntaxTree(ts) == Some(Invoke("startswith", ArgsTree(ts, 2).value.0))
  {
    assert IsWord("startswith") && !IsLiteral("startswith");
    PrimaryIsWhole(ts, Invoke("startswith", ArgsTree(ts, 2).value.0));
  }

  lemma PrimaryIsWhole(ts: seq<string>, tree: Tree)
    requires ts != [] && ts[0] != "!" && PrimaryTree(ts, 0) == Ok((tree, |ts|))
    ensures SyntaxTree(ts) == Some(tree)
  {
    assert TreeFrom(ts, 3, 0) == Ok((tree, |ts|));
    assert TreeFrom(ts, 2, 0) == TreeTail(ts, 2, |ts|, tree) == Ok((tree, |ts|));
    assert TreeFrom(ts, 1, 0) == TreeTail(ts, 1, |ts|, tree) == Ok((tree, |ts|));
    assert TreeFrom(ts, 0, 0) == TreeTail(ts, 0, |ts|, tree) == Ok((tree, |ts|));
  }

  /** The arguments are `'a'` and `'a'`, with or without commas. */
  predicate IsTwice(args: Args) {
    args.Arg? && args.first == Leaf("'a'") && args.rest.Arg? && args.rest.first == Leaf("'a'") && args.rest.rest.NoArgs?
  }

  lemma TwiceIsTrue(args: Args, context: map<string, Value>, host: Host)
    requires host.lower("startswith") == "startswith" && IsTwice(args)
    ensures Meaning(Invoke("startswith", args), context, host) == Ok(Bool(true))
  {
    assert Unquote("'a'") == "a";
    assert [Str("a")] + [] == [Str("a")];
    assert MeaningAll(args.rest, context, host) == Ok([Str("a")]);
    assert MeaningAll(args, context, host) == Ok([Str("a")] + [Str("a")]);
  }
}
