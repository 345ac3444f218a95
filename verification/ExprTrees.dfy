/** The parse tree behind an evaluation: what the parser reads whatever the values are, which token lists it accepts, and
    which of those are the text of an expression. */
module ExprTrees {
  import opened Common
  import opened ExprParser

  /** What the parser can read: any token may end up as an operand, and any argument may or may not have a comma behind it. */
  datatype Tree =
    | Leaf(t: string)
    | Group(inner: Tree)
    | Invoke(name: string, args: Args)
    | Negate(x: Tree)
    | Binary(op: string, l: Tree, r: Tree)

  datatype Args = NoArgs | Arg(first: Tree, comma: bool, rest: Args)

  /** How tightly an operator binds: 0 for `||`, 1 for `&&`, 2 for comparisons. */
  predicate Joins(level: nat, t: string) {
    if level == 0 then t == "||" else if level == 1 then t == "&&" else level == 2 && (t == "==" || t == "!=")
  }

  predicate IsName(t: string) {
    IsWord(t) && t !in KEYWORDS
  }

  type TreeParsed = Result<(Tree, nat), Fault>

  /** No operator of this level or a tighter one comes next, and a name is not left before a parenthesis. */
  predicate Stops(ts: seq<string>, j: nat, level: nat) {
    j < |ts| ==>
      && (level <= 0 ==> !Joins(0, ts[j])) && (level <= 1 ==> !Joins(1, ts[j])) && (level <= 2 ==> !Joins(2, ts[j]))
      && !(ts[j] == "(" && j > 0 && IsName(ts[j - 1]))
  }

  predicate IsLiteral(t: string) {
    (t != "" && t[0] == '\'') || IsNumber(t) || t in KEYWORDS
  }

  /** The parser's reading of a token list, values aside. */
  function TreeFrom(ts: seq<string>, level: nat, i: nat): (p: TreeParsed)
    requires i <= |ts| && level <= 3
    ensures p.Ok? ==> i < p.value.1 <= |ts| && Stops(ts, p.value.1, level)
    decreases |ts| - i, 6 - level
  {
    if level < 3 then
      var a := TreeFrom(ts, level + 1, i);
      if a.Err? then a else TreeTail(ts, level, a.value.1, a.value.0)
    else if i < |ts| && ts[i] == "!" then
      var a := TreeFrom(ts, 3, i + 1);
      if a.Err? then a else Ok((Negate(a.value.0), a.value.1))
    else PrimaryTree(ts, i)
  }

  function TreeTail(ts: seq<string>, level: nat, i: nat, tree: Tree): (p: TreeParsed)
    requires i <= |ts| && level < 3 && Stops(ts, i, level + 1)
    ensures p.Ok? ==> i <= p.value.1 <= |ts| && Stops(ts, p.value.1, level)
    decreases |ts| - i, 0
  {
    if i == |ts| || !Joins(level, ts[i]) then Ok((tree, i))
    else
      var b := TreeFrom(ts, level + 1, i + 1);
      if b.Err? then b else TreeTail(ts, level, b.value.1, Binary(ts[i], tree, b.value.0))
  }

  function PrimaryTree(ts: seq<string>, i: nat): (p: TreeParsed)
    requires i <= |ts|
    ensures p.Ok? ==> i < p.value.1 <= |ts| && Stops(ts, p.value.1, 3)
    decreases |ts| - i, 2
  {
    if i == |ts| then Err(Incomplete)
    else if ts[i] == "(" then
      var a := TreeFrom(ts, 0, i + 1);
      if a.Err? then a
      else if a.value.1 < |ts| && ts[a.value.1] == ")" then Ok((Group(a.value.0), a.value.1 + 1)) else Err(OpenParenthesis)
    else if IsLiteral(ts[i]) then
      LiteralIsNoName(ts[i]);
      Ok((Leaf(ts[i]), i + 1))
    else if i + 1 < |ts| && ts[i + 1] == "(" then
      var args := ArgsTree(ts, i + 2);
      if args.Err? then Err(args.error) else Ok((Invoke(ts[i], args.value.0), args.value.1 + 1))
    else Ok((Leaf(ts[i]), i + 1))
  }

  function ArgsTree(ts: seq<string>, i: nat): (p: Result<(Args, nat), Fault>)
    requires i <= |ts|
    ensures p.Ok? ==> i <= p.value.1 < |ts| && ts[p.value.1] == ")"
    decreases |ts| - i, 7
  {
    if i < |ts| && ts[i] == ")" then Ok((NoArgs, i))
    else
      var a := TreeFrom(ts, 0, i);
      if a.Err? then Err(a.error)
      else
        var comma := a.value.1 < |ts| && ts[a.value.1] == ",";
        var rest := ArgsTree(ts, if comma then a.value.1 + 1 else a.value.1);
        if rest.Err? then rest else Ok((Arg(a.value.0, comma, rest.value.0), rest.value.1))
  }

  lemma LiteralIsNoName(t: string)
    requires IsLiteral(t)
    ensures !IsName(t)
  {
  }

  /** The tree of a whole token list; none when a syntax fault stops the parser. */
  function SyntaxTree(ts: seq<string>): Option<Tree> {
    var a := TreeFrom(ts, 0, 0);
    if a.Ok? && a.value.1 == |ts| then Some(a.value.0) else None
  }

  // ---- what a tree means ----

  function LeafValue(t: string, context: map<string, Value>): Value {
    if t != "" && t[0] == '\'' then Str(Unquote(t))
    else if IsNumber(t) then NumberOf(t)
    else if t in KEYWORDS then KeywordOf(t)
    else Resolve(t, context)
  }

  function JoinOf(op: string, a: Result<Value, Fault>, b: Result<Value, Fault>, host: Host): Result<Value, Fault> {
    if op == "||" then OrOf(a, b) else if op == "&&" then AndOf(a, b) else CompareOf(op, a, b, host)
  }

  function Meaning(tree: Tree, context: map<string, Value>, host: Host): Result<Value, Fault> {
    match tree
    case Leaf(t) => Ok(LeafValue(t, context))
    case Group(x) => Meaning(x, context, host)
    case Invoke(name, args) =>
      var vs := MeaningAll(args, context, host);
      if vs.Err? then Err(vs.error) else Apply(name, vs.value, host)
    case Negate(x) => NotOf(Meaning(x, context, host))
    case Binary(op, l, r) => JoinOf(op, Meaning(l, context, host), Meaning(r, context, host), host)
  }

  function MeaningAll(args: Args, context: map<string, Value>, host: Host): Result<seq<Value>, Fault> {
    match args
    case NoArgs => Ok([])
    case Arg(first, _, rest) =>
      var v := Meaning(first, context, host);
      if v.Err? then Err(v.error)
      else
        var vs := MeaningAll(rest, context, host);
        if vs.Err? then vs else Ok([v.value] + vs.value)
  }

  /** The evaluating parse function of each level, and what it does after its first operand. */
  function ParseAt(inp: Input, level: nat, i: nat): Parsed
    requires i <= |inp.tokens|
  {
    if level == 0 then inp.OrFrom(i)
    else if level == 1 then inp.AndFrom(i)
    else if level == 2 then inp.EqFrom(i)
    else inp.UnaryFrom(i)
  }

  function ContinueAt(inp: Input, level: nat, j: nat, v: Value): Parsed
    requires j <= |inp.tokens|
  {
    if level == 0 then inp.OrTail(j, v)
    else if level == 1 then inp.AndTail(j, v)
    else if level == 2 then inp.EqTail(j, v)
    else Ok((v, j))
  }

  /** Evaluating while reading gives the tree's meaning; it fails when there is no tree. */
  predicate Agrees(inp: Input, p: Parsed, q: TreeParsed) {
    if q.Err? then p.Err?
    else
      var v := Meaning(q.value.0, inp.context, inp.host);
      p == if v.Err? then Err(v.error) else Ok((v.value, q.value.1))
  }

  predicate ArgsAgree(inp: Input, p: Result<(seq<Value>, nat), Fault>, seen: seq<Value>, q: Result<(Args, nat), Fault>) {
    if q.Err? then p.Err?
    else
      var vs := MeaningAll(q.value.0, inp.context, inp.host);
      p == if vs.Err? then Err(vs.error) else Ok((seen + vs.value, q.value.1))
  }

  lemma {:induction false} ParserReadsTree(inp: Input, level: nat, i: nat)
    requires i <= |inp.tokens| && level <= 3
    ensures Agrees(inp, ParseAt(inp, level, i), TreeFrom(inp.tokens, level, i))
    decreases |inp.tokens| - i, 6 - level
  {
    var ts := inp.tokens;
    if level < 3 {
      ParserReadsTree(inp, level + 1, i);
      var a := TreeFrom(ts, level + 1, i);
      if a.Ok? {
        TailReadsTree(inp, level, a.value.1, a.value.0);
      }
    } else if inp.At(i, "!") {
      ParserReadsTree(inp, 3, i + 1);
    } else {
      PrimaryReadsTree(inp, i);
    }
  }

  lemma ContinueStep(inp: Input, level: nat, i: nat, v: Value)
    requires i < |inp.tokens| && Joins(level, inp.tokens[i])
    ensures var b := ParseAt(inp, level + 1, i + 1);
            ContinueAt(inp, level, i, v) ==
            if b.Err? then b
            else ContinueAt(inp, level, b.value.1, JoinOf(inp.tokens[i], Ok(v), Ok(b.value.0), inp.host).value)
  {
  }

  lemma {:induction false} TailReadsTree(inp: Input, level: nat, i: nat, tree: Tree)
    requires i <= |inp.tokens| && level < 3 && Stops(inp.tokens, i, level + 1)
    ensures var v, q := Meaning(tree, inp.context, inp.host), TreeTail(inp.tokens, level, i, tree);
            if v.Ok? then Agrees(inp, ContinueAt(inp, level, i, v.value), q)
            else q.Ok? ==> Meaning(q.value.0, inp.context, inp.host) == v
    decreases |inp.tokens| - i, 0
  {
    var ts := inp.tokens;
    if i < |ts| && Joins(level, ts[i]) {
      ParserReadsTree(inp, level + 1, i + 1);
      if Meaning(tree, inp.context, inp.host).Ok? {
        ContinueStep(inp, level, i, Meaning(tree, inp.context, inp.host).value);
      }
      var b := TreeFrom(ts, level + 1, i + 1);
      if b.Ok? {
        TailReadsTree(inp, level, b.value.1, Binary(ts[i], tree, b.value.0));
      }
    }
  }

  lemma {:induction false} PrimaryReadsTree(inp: Input, i: nat)
    requires i <= |inp.tokens|
    ensures Agrees(inp, inp.PrimaryFrom(i), PrimaryTree(inp.tokens, i))
    decreases |inp.tokens| - i, 2
  {
    var ts := inp.tokens;
    if i < |ts| {
      if ts[i] == "(" {
        ParserReadsTree(inp, 0, i + 1);
      } else if !IsLiteral(ts[i]) && inp.At(i + 1, "(") {
        ArgsReadTree(inp, i + 2, []);
        var q := ArgsTree(ts, i + 2);
        if q.Ok? {
          var vs := MeaningAll(q.value.0, inp.context, inp.host);
          assert vs.Ok? ==> [] + vs.value == vs.value;
        }
      }
    }
  }

  lemma {:induction false} ArgsReadTree(inp: Input, i: nat, seen: seq<Value>)
    requires i <= |inp.tokens|
    ensures ArgsAgree(inp, inp.ArgsFrom(i, seen), seen, ArgsTree(inp.tokens, i))
    decreases |inp.tokens| - i, 7
  {
    var ts := inp.tokens;
    if inp.At(i, ")") {
      assert seen + [] == seen;
    } else {
      ParserReadsTree(inp, 0, i);
      var a := TreeFrom(ts, 0, i);
      if a.Ok? {
        var v := Meaning(a.value.0, inp.context, inp.host);
        var next := if inp.At(a.value.1, ",") then a.value.1 + 1 else a.value.1;
        if v.Ok? {
          ArgsReadTree(inp, next, seen + [v.value]);
          var rest := ArgsTree(ts, next);
          if rest.Ok? {
            var vs := MeaningAll(rest.value.0, inp.context, inp.host);
            assert vs.Ok? ==> seen + [v.value] + vs.value == seen + ([v.value] + vs.value);
          }
        }
      }
    }
  }

  /** The outcome of the parser is the meaning of the tree it reads, and a fault when it reads none. */
  lemma WholeIsMeaning(inp: Input)
    ensures var tree := SyntaxTree(inp.tokens);
            if tree.Some? then inp.Whole() == Meaning(tree.value, inp.context, inp.host) else inp.Whole().Err?
  {
    ParserReadsTree(inp, 0, 0);
  }

  // ---- the text of a tree ----

  function Yield(tree: Tree): seq<string> {
    match tree
    case Leaf(t) => [t]
    case Group(x) => ["("] + Yield(x) + [")"]
    case Invoke(name, args) => [name, "("] + YieldArgs(args) + [")"]
    case Negate(x) => ["!"] + Yield(x)
    case Binary(op, l, r) => Yield(l) + [op] + Yield(r)
  }

  function YieldArgs(args: Args): seq<string> {
    match args
    case NoArgs => []
    case Arg(first, comma, rest) => Yield(first) + (if comma then [","] else []) + YieldArgs(rest)
  }

  /** The level a tree is read at: that of its operator, or 3. */
  function Grade(tree: Tree): nat {
    match tree
    case Binary(op, _, _) => if op == "||" then 0 else if op == "&&" then 1 else 2
    case _ => 3
  }

  /** Operators stand where their precedence allows, grouping to the left. */
  predicate Graded(tree: Tree) {
    match tree
    case Leaf(_) => true
    case Group(x) => Graded(x)
    case Invoke(_, args) => GradedArgs(args)
    case Negate(x) => Graded(x) && Grade(x) == 3
    case Binary(op, l, r) =>
      Joins(Grade(tree), op) && Graded(l) && Graded(r) && Grade(l) >= Grade(tree) && Grade(r) > Grade(tree)
  }

  predicate GradedArgs(args: Args) {
    match args
    case NoArgs => true
    case Arg(first, _, rest) => Graded(first) && GradedArgs(rest)
  }

  /** The tokens of a list from `i` to `j` are the text of the tree. */
  predicate Covers(ts: seq<string>, i: nat, j: nat, text: seq<string>) {
    i <= j <= |ts| && ts[i..j] == text
  }

  lemma CoversJoin(ts: seq<string>, i: nat, j: nat, k: nat, a: seq<string>, b: seq<string>)
    requires Covers(ts, i, j, a) && Covers(ts, j, k, b)
    ensures Covers(ts, i, k, a + b)
  {
    assert ts[i..k] == ts[i..j] + ts[j..k];
  }

  lemma CoversSeparator(ts: seq<string>, i: nat, comma: bool)
    requires i <= |ts| && (comma ==> i < |ts| && ts[i] == ",")
    ensures Covers(ts, i, if comma then i + 1 else i, if comma then [","] else [])
  {
  }

  lemma CoversArgs(ts: seq<string>, i: nat, k: nat, j: nat, first: Tree, comma: bool, rest: Args)
    requires Covers(ts, i, k, Yield(first)) && (comma ==> k < |ts| && ts[k] == ",")
    requires Covers(ts, if comma then k + 1 else k, j, YieldArgs(rest))
    ensures Covers(ts, i, j, YieldArgs(Arg(first, comma, rest)))
  {
    var next, sep := if comma then k + 1 else k, if comma then [","] else [];
    CoversSeparator(ts, k, comma);
    CoversJoin(ts, i, k, next, Yield(first), sep);
    CoversJoin(ts, i, next, j, Yield(first) + sep, YieldArgs(rest));
  }

  lemma CoversOne(ts: seq<string>, i: nat)
    requires i < |ts|
    ensures Covers(ts, i, i + 1, [ts[i]])
  {
  }

  lemma {:induction false} TreeYields(ts: seq<string>, level: nat, i: nat)
    requires i <= |ts| && level <= 3
    ensures var p := TreeFrom(ts, level, i);
            p.Ok? ==> Covers(ts, i, p.value.1, Yield(p.value.0)) && Graded(p.value.0) && Grade(p.value.0) >= level
    decreases |ts| - i, 6 - level
  {
    if level < 3 {
      TreeYields(ts, level + 1, i);
      var a := TreeFrom(ts, level + 1, i);
      if a.Ok? { TailYields(ts, level, i, a.value.1, a.value.0); }
    } else if i < |ts| && ts[i] == "!" {
      TreeYields(ts, 3, i + 1);
      var a := TreeFrom(ts, 3, i + 1);
      if a.Ok? {
        CoversOne(ts, i);
        CoversJoin(ts, i, i + 1, a.value.1, ["!"], Yield(a.value.0));
      }
    } else {
      PrimaryYields(ts, i);
    }
  }

  lemma {:induction false} TailYields(ts: seq<string>, level: nat, start: nat, i: nat, tree: Tree)
    requires i <= |ts| && level < 3 && Stops(ts, i, level + 1)
    requires Covers(ts, start, i, Yield(tree)) && Graded(tree) && Grade(tree) >= level
    ensures var p := TreeTail(ts, level, i, tree);
            p.Ok? ==> Covers(ts, start, p.value.1, Yield(p.value.0)) && Graded(p.value.0) && Grade(p.value.0) >= level
    decreases |ts| - i, 0
  {
    if i < |ts| && Joins(level, ts[i]) {
      TreeYields(ts, level + 1, i + 1);
      var b := TreeFrom(ts, level + 1, i + 1);
      if b.Ok? {
        CoversOne(ts, i);
        CoversJoin(ts, start, i, i + 1, Yield(tree), [ts[i]]);
        CoversJoin(ts, start, i + 1, b.value.1, Yield(tree) + [ts[i]], Yield(b.value.0));
        TailYields(ts, level, start, b.value.1, Binary(ts[i], tree, b.value.0));
      }
    }
  }

  lemma {:induction false} PrimaryYields(ts: seq<string>, i: nat)
    requires i <= |ts|
    ensures var p := PrimaryTree(ts, i);
            p.Ok? ==> Covers(ts, i, p.value.1, Yield(p.value.0)) && Graded(p.value.0) && Grade(p.value.0) == 3
    decreases |ts| - i, 2
  {
    if i < |ts| {
      CoversOne(ts, i);
      if ts[i] == "(" {
        TreeYields(ts, 0, i + 1);
        var a := TreeFrom(ts, 0, i + 1);
        if a.Ok? && a.value.1 < |ts| && ts[a.value.1] == ")" {
          CoversOne(ts, a.value.1);
          CoversJoin(ts, i, i + 1, a.value.1, ["("], Yield(a.value.0));
          CoversJoin(ts, i, a.value.1, a.value.1 + 1, ["("] + Yield(a.value.0), [")"]);
        }
      } else if !IsLiteral(ts[i]) && i + 1 < |ts| && ts[i + 1] == "(" {
        ArgsYield(ts, i + 2);
        var a := ArgsTree(ts, i + 2);
        if a.Ok? {
          assert Covers(ts, i, i + 2, [ts[i], "("]);
          CoversOne(ts, a.value.1);
          CoversJoin(ts, i, i + 2, a.value.1, [ts[i], "("], YieldArgs(a.value.0));
          CoversJoin(ts, i, a.value.1, a.value.1 + 1, [ts[i], "("] + YieldArgs(a.value.0), [")"]);
        }
      }
    }
  }

  lemma {:induction false} ArgsYield(ts: seq<string>, i: nat)
    requires i <= |ts|
    ensures var p := ArgsTree(ts, i); p.Ok? ==> Covers(ts, i, p.value.1, YieldArgs(p.value.0)) && GradedArgs(p.value.0)
    decreases |ts| - i, 7
  {
    if i < |ts| && ts[i] != ")" {
      TreeYields(ts, 0, i);
      var a := TreeFrom(ts, 0, i);
      if a.Ok? {
        var comma := a.value.1 < |ts| && ts[a.value.1] == ",";
        var next := if comma then a.value.1 + 1 else a.value.1;
        ArgsYield(ts, next);
        var rest := ArgsTree(ts, next);
        if rest.Ok? { CoversArgs(ts, i, a.value.1, rest.value.1, a.value.0, comma, rest.value.0); }
      }
    }
  }

  // ---- trees of expressions ----

  predicate IsAtom(t: string) {
    IsQuoted(t) || IsNumber(t) || IsWord(t)
  }

  /** Operands are operands, names are names, and a comma stands exactly between two arguments. */
  predicate Proper(tree: Tree) {
    match tree
    case Leaf(t) => IsAtom(t)
    case Group(x) => Proper(x)
    case Invoke(name, args) => IsName(name) && ProperArgs(args)
    case Negate(x) => Proper(x)
    case Binary(_, l, r) => Proper(l) && Proper(r)
  }

  predicate ProperArgs(args: Args) {
    match args
    case NoArgs => true
    case Arg(first, comma, rest) => Proper(first) && (comma <==> rest != NoArgs) && ProperArgs(rest)
  }

  /** The expression of a tree: its parentheses forgotten. */
  function ExprOf(tree: Tree): Expr {
    match tree
    case Leaf(t) =>
      if t != "" && t[0] == '\'' then Quoted(Unquote(t))
      else if IsNumber(t) then Num(t)
      else if t in KEYWORDS then Keyword(t)
      else Ref(t)
    case Group(x) => ExprOf(x)
    case Invoke(name, args) => Call(name, ExprsOf(args))
    case Negate(x) => Not(ExprOf(x))
    case Binary(op, l, r) =>
      if op == "||" then Or(ExprOf(l), ExprOf(r))
      else if op == "&&" then And(ExprOf(l), ExprOf(r))
      else Compare(op, ExprOf(l), ExprOf(r))
  }

  function ExprsOf(args: Args): seq<Expr> {
    match args
    case NoArgs => []
    case Arg(first, _, rest) => [ExprOf(first)] + ExprsOf(rest)
  }

  lemma {:induction false} MeaningIsEval(tree: Tree, context: map<string, Value>, host: Host)
    ensures Meaning(tree, context, host) == Eval(ExprOf(tree), context, host)
  {
    match tree
    case Leaf(_) =>
    case Group(x) => MeaningIsEval(x, context, host);
    case Invoke(_, args) => MeaningsAreEvals(args, context, host);
    case Negate(x) => MeaningIsEval(x, context, host);
    case Binary(_, l, r) => MeaningIsEval(l, context, host); MeaningIsEval(r, context, host);
  }

  lemma {:induction false} MeaningsAreEvals(args: Args, context: map<string, Value>, host: Host)
    ensures MeaningAll(args, context, host) == EvalAll(ExprsOf(args), context, host)
  {
    match args
    case NoArgs =>
    case Arg(first, _, rest) =>
      MeaningIsEval(first, context, host);
      MeaningsAreEvals(rest, context, host);
      assert ExprsOf(args)[1..] == ExprsOf(rest);
  }

  lemma {:induction false} ProperIsWellFormed(tree: Tree)
    requires Proper(tree) && Graded(tree)
    ensures WellFormed(ExprOf(tree))
  {
    match tree
    case Leaf(t) => LeafIsWellFormed(t);
    case Group(x) => ProperIsWellFormed(x);
    case Invoke(_, args) => ProperAreWellFormed(args);
    case Negate(x) => ProperIsWellFormed(x);
    case Binary(_, l, r) => ProperIsWellFormed(l); ProperIsWellFormed(r);
  }

  lemma LeafIsWellFormed(t: string)
    requires IsAtom(t)
    ensures WellFormed(ExprOf(Leaf(t)))
  {
    if IsQuoted(t) {
      assert Unquote(t) == t[1..|t| - 1];
    } else if IsNumber(t) {
      assert IsDigit(t[0]);
    }
  }

  lemma {:induction false} ProperAreWellFormed(args: Args)
    requires ProperArgs(args) && GradedArgs(args)
    ensures forall e :: e in ExprsOf(args) ==> WellFormed(e)
  {
    match args
    case NoArgs =>
    case Arg(first, _, rest) =>
      ProperIsWellFormed(first);
      ProperAreWellFormed(rest);
  }

  // ---- tidy token lists ----

  /** The token before `i` asks for an operand. */
  predicate Due(ts: seq<string>, i: nat)
    requires i <= |ts|
  {
    i == 0 || ts[i - 1] in ["||", "&&", "==", "!=", "!", "(", ","]
  }

  predicate OpensOperand(t: string) {
    IsAtom(t) || t == "(" || t == "!"
  }

  /** The closing parenthesis of a call without arguments. */
  predicate ClosesEmptyCall(ts: seq<string>, i: nat)
    requires i < |ts|
  {
    i >= 2 && ts[i] == ")" && ts[i - 1] == "(" && IsName(ts[i - 2])
  }

  /** Where an operand is due one starts, unless an empty call ends; elsewhere none starts, unless a name is called. */
  predicate TidyAt(ts: seq<string>, i: nat)
    requires i < |ts|
  {
    if Due(ts, i) then OpensOperand(ts[i]) || ClosesEmptyCall(ts, i)
    else OpensOperand(ts[i]) ==> ts[i] == "(" && IsName(ts[i - 1])
  }

  predicate TidyOn(ts: seq<string>, i: nat, j: nat)
    requires j <= |ts|
  {
    forall k :: i <= k < j ==> TidyAt(ts, k)
  }

  predicate Tidy(ts: seq<string>) {
    TidyOn(ts, 0, |ts|)
  }

  /** An operand has just ended. */
  predicate Ended(ts: seq<string>, j: nat)
    requires j <= |ts|
  {
    j > 0 && (IsAtom(ts[j - 1]) || ts[j - 1] == ")")
  }

  predicate AllTokens(ts: seq<string>) {
    forall t :: t in ts ==> IsToken(t)
  }

  lemma AtomIsNoSign(t: string)
    requires IsAtom(t)
    ensures t !in ["||", "&&", "==", "!=", "!", "(", ",", ")"]
  {
    if IsNumber(t) { assert IsDigit(t[0]); }
  }

  /** What the tree of a stretch says about its tokens. */
  predicate Faithful(ts: seq<string>, i: nat, j: nat, tree: Tree)
    requires j <= |ts|
  {
    (Proper(tree) <==> TidyOn(ts, i, j)) && (Proper(tree) ==> Ended(ts, j))
  }

  lemma {:induction false} TreeIsTidy(ts: seq<string>, level: nat, i: nat)
    requires i <= |ts| && level <= 3 && AllTokens(ts) && Due(ts, i)
    requires i < |ts| ==> !ClosesEmptyCall(ts, i)
    ensures var p := TreeFrom(ts, level, i); p.Ok? ==> Faithful(ts, i, p.value.1, p.value.0)
    decreases |ts| - i, 6 - level
  {
    if level < 3 {
      TreeIsTidy(ts, level + 1, i);
      var a := TreeFrom(ts, level + 1, i);
      if a.Ok? { TailIsTidy(ts, level, i, a.value.1, a.value.0); }
    } else if i < |ts| && ts[i] == "!" {
      TreeIsTidy(ts, 3, i + 1);
    } else {
      PrimaryIsTidy(ts, i);
    }
  }

  lemma {:induction false} TailIsTidy(ts: seq<string>, level: nat, start: nat, i: nat, tree: Tree)
    requires start < i <= |ts| && level < 3 && AllTokens(ts) && Stops(ts, i, level + 1) && Faithful(ts, start, i, tree)
    ensures var p := TreeTail(ts, level, i, tree); p.Ok? ==> Faithful(ts, start, p.value.1, p.value.0)
    decreases |ts| - i, 0
  {
    if i < |ts| && Joins(level, ts[i]) {
      TreeIsTidy(ts, level + 1, i + 1);
      var b := TreeFrom(ts, level + 1, i + 1);
      if b.Ok? {
        JoinIsTidy(ts, start, i, b.value.1, tree, b.value.0);
        TailIsTidy(ts, level, start, b.value.1, Binary(ts[i], tree, b.value.0));
      }
    }
  }

  lemma SignIsTidy(ts: seq<string>, i: nat)
    requires i < |ts| && Ended(ts, i) && ts[i] in ["||", "&&", "==", "!=", ",", ")"]
    ensures TidyAt(ts, i)
  {
    if IsAtom(ts[i - 1]) { AtomIsNoSign(ts[i - 1]); }
    if IsAtom(ts[i]) { AtomIsNoSign(ts[i]); }
  }

  lemma JoinIsTidy(ts: seq<string>, start: nat, i: nat, j: nat, l: Tree, r: Tree)
    requires start < i < j <= |ts| && ts[i] in ["||", "&&", "==", "!="]
    requires Faithful(ts, start, i, l) && Faithful(ts, i + 1, j, r)
    ensures Faithful(ts, start, j, Binary(ts[i], l, r))
  {
    if Proper(l) { SignIsTidy(ts, i); }
  }

  lemma GroupIsTidy(ts: seq<string>, i: nat, k: nat, tree: Tree)
    requires i < k < |ts| && ts[i] == "(" && Due(ts, i) && ts[k] == ")" && Faithful(ts, i + 1, k, tree)
    ensures Faithful(ts, i, k + 1, Group(tree))
  {
    if Proper(tree) { SignIsTidy(ts, k); }
  }

  lemma LeafIsTidy(ts: seq<string>, i: nat)
    requires i < |ts| && Due(ts, i) && IsToken(ts[i]) && ts[i] != "(" && ts[i] != "!" && !ClosesEmptyCall(ts, i)
    ensures IsAtom(ts[i]) <==> TidyAt(ts, i)
    ensures Faithful(ts, i, i + 1, Leaf(ts[i]))
  {
  }

  lemma {:induction false} PrimaryIsTidy(ts: seq<string>, i: nat)
    requires i <= |ts| && AllTokens(ts) && Due(ts, i)
    requires i < |ts| ==> ts[i] != "!" && !ClosesEmptyCall(ts, i)
    ensures var p := PrimaryTree(ts, i); p.Ok? ==> Faithful(ts, i, p.value.1, p.value.0)
    decreases |ts| - i, 2
  {
    if i < |ts| {
      assert ts[i] in ts;
      if ts[i] == "(" {
        if i > 0 && IsName(ts[i - 1]) { AtomIsNoSign(ts[i - 1]); }
        TreeIsTidy(ts, 0, i + 1);
        var a := TreeFrom(ts, 0, i + 1);
        if a.Ok? && a.value.1 < |ts| && ts[a.value.1] == ")" { GroupIsTidy(ts, i, a.value.1, a.value.0); }
      } else {
        LeafIsTidy(ts, i);
        if !IsLiteral(ts[i]) && i + 1 < |ts| && ts[i + 1] == "(" && IsName(ts[i]) { CallIsTidy(ts, i); }
      }
    }
  }

  lemma {:induction false} CallIsTidy(ts: seq<string>, i: nat)
    requires i + 1 < |ts| && AllTokens(ts) && Due(ts, i) && IsName(ts[i]) && ts[i + 1] == "("
    ensures var p := ArgsTree(ts, i + 2); p.Ok? ==> Faithful(ts, i, p.value.1 + 1, Invoke(ts[i], p.value.0))
    decreases |ts| - i, 1
  {
    AtomIsNoSign(ts[i]);
    ArgsAreTidy(ts, i + 2);
    assert TidyAt(ts, i) && TidyAt(ts, i + 1);
  }

  /** A parenthesis may close a call at once or after an argument, not after a comma. */
  lemma ClosingIsTidy(ts: seq<string>, i: nat)
    requires 2 <= i < |ts| && ts[i] == ")"
    requires (ts[i - 1] == "(" && IsName(ts[i - 2])) || ts[i - 1] == "," || Ended(ts, i)
    ensures TidyAt(ts, i) <==> ts[i - 1] != ","
  {
    if IsAtom(ts[i]) { AtomIsNoSign(ts[i]); }
    if IsAtom(ts[i - 1]) { AtomIsNoSign(ts[i - 1]); }
  }

  /** Arguments, read from after the opening parenthesis, after a comma, or after an argument. */
  lemma {:induction false} ArgsAreTidy(ts: seq<string>, i: nat)
    requires 2 <= i <= |ts| && AllTokens(ts)
    requires || (ts[i - 1] == "(" && IsName(ts[i - 2])) || ts[i - 1] == ","
             || (Ended(ts, i) && Stops(ts, i, 0) && (i < |ts| ==> ts[i] != ","))
    ensures var p := ArgsTree(ts, i);
            p.Ok? ==>
              (TidyOn(ts, i, p.value.1 + 1) <==>
               if ts[i - 1] == "(" then ProperArgs(p.value.0)
               else if ts[i - 1] == "," then p.value.0 != NoArgs && ProperArgs(p.value.0)
               else p.value.0 == NoArgs)
    decreases |ts| - i, 8
  {
    if IsAtom(ts[i - 1]) { AtomIsNoSign(ts[i - 1]); }
    if i < |ts| && ts[i] == ")" {
      ClosingIsTidy(ts, i);
      assert TidyOn(ts, i, i + 1) <==> TidyAt(ts, i);
    } else if i < |ts| && Due(ts, i) {
      MoreArgsAreTidy(ts, i);
    } else if i < |ts| {
      assert ts[i] in ts && !TidyAt(ts, i);
    }
  }

  lemma {:induction false} MoreArgsAreTidy(ts: seq<string>, i: nat)
    requires 2 <= i < |ts| && AllTokens(ts) && ts[i] != ")" && Due(ts, i)
    ensures var p := ArgsTree(ts, i); p.Ok? ==> (TidyOn(ts, i, p.value.1 + 1) <==> ProperArgs(p.value.0))
    decreases |ts| - i, 7
  {
    TreeIsTidy(ts, 0, i);
    var a := TreeFrom(ts, 0, i);
    if a.Ok? {
      var comma := a.value.1 < |ts| && ts[a.value.1] == ",";
      var next := if comma then a.value.1 + 1 else a.value.1;
      if Proper(a.value.0) { RestIsTidy(ts, a.value.1, comma); }
      var rest := ArgsTree(ts, next);
      if rest.Ok? { ArgIsTidy(ts, i, a.value.1, rest.value.1, a.value.0, comma, rest.value.0); }
    }
  }

  /** What follows an argument is read after its comma, or directly behind it. */
  lemma {:induction false} RestIsTidy(ts: seq<string>, k: nat, comma: bool)
    requires 2 <= k <= |ts| && AllTokens(ts) && Ended(ts, k) && Stops(ts, k, 0) && (comma <==> k < |ts| && ts[k] == ",")
    ensures var p := ArgsTree(ts, if comma then k + 1 else k);
            p.Ok? ==> (TidyOn(ts, if comma then k + 1 else k, p.value.1 + 1) <==>
                       if comma then p.value.0 != NoArgs && ProperArgs(p.value.0) else p.value.0 == NoArgs)
    decreases |ts| - k, 9
  {
    if comma {
      ArgsAreTidy(ts, k + 1);
    } else {
      if IsAtom(ts[k - 1]) { AtomIsNoSign(ts[k - 1]); }
      ArgsAreTidy(ts, k);
    }
  }

  lemma ArgIsTidy(ts: seq<string>, i: nat, k: nat, j: nat, first: Tree, comma: bool, rest: Args)
    requires i < k <= j < |ts| && Faithful(ts, i, k, first) && (comma <==> ts[k] == ",") && (comma ==> k < j)
    requires Proper(first) ==>
               (TidyOn(ts, if comma then k + 1 else k, j + 1) <==>
                if comma then rest != NoArgs && ProperArgs(rest) else rest == NoArgs)
    ensures TidyOn(ts, i, j + 1) <==> ProperArgs(Arg(first, comma, rest))
  {
    if Proper(first) && comma { SignIsTidy(ts, k); }
  }

  // ---- the text of an expression, with any parentheses ----

  lemma CoversSplit(ts: seq<string>, i: nat, j: nat, a: seq<string>, b: seq<string>)
    requires Covers(ts, i, j, a + b)
    ensures Covers(ts, i, i + |a|, a) && Covers(ts, i + |a|, j, b)
  {
    assert |a + b| == j - i;
    assert ts[i..i + |a|] == ts[i..j][..|a|] && ts[i + |a|..j] == ts[i..j][|a|..];
  }

  lemma CoversStart(ts: seq<string>, i: nat, j: nat, text: seq<string>)
    requires Covers(ts, i, j, text) && text != []
    ensures i < j && ts[i] == text[0] && ts[j - 1] == text[|text| - 1]
  {
    assert ts[i..j][0] == ts[i] && ts[i..j][|text| - 1] == ts[j - 1];
  }

  lemma {:induction false} YieldStarts(tree: Tree)
    requires Proper(tree)
    ensures Yield(tree) != [] && Yield(tree)[0] != ")" && (!tree.Negate? && !tree.Binary? ==> Yield(tree)[0] != "!")
  {
    match tree
    case Leaf(t) => AtomIsNoSign(t);
    case Invoke(name, _) => AtomIsNoSign(name);
    case Binary(_, l, _) => YieldStarts(l);
    case _ =>
  }

  /** The text of a proper tree is read as that tree, and reading goes on with the loop of the level. */
  lemma {:induction false} TreeReads(ts: seq<string>, tree: Tree, level: nat, i: nat, j: nat)
    requires Proper(tree) && Graded(tree) && level <= Grade(tree) && Covers(ts, i, j, Yield(tree)) && Stops(ts, j, level + 1)
    ensures TreeFrom(ts, level, i) == if level == 3 then Ok((tree, j)) else TreeTail(ts, level, j, tree)
    decreases tree, 4 - level
  {
    if level < Grade(tree) {
      TreeReads(ts, tree, level + 1, i, j);
    } else if level < 3 {
      BinaryReads(ts, tree, i, j);
    } else {
      YieldStarts(tree);
      CoversStart(ts, i, j, Yield(tree));
      match tree
      case Leaf(t) => AtomIsNoSign(t);
      case Group(x) => GroupReads(ts, x, i, j);
      case Invoke(name, args) => InvokeReads(ts, name, args, i, j);
      case Negate(x) =>
        CoversSplit(ts, i, j, ["!"], Yield(x));
        TreeReads(ts, x, 3, i + 1, j);
    }
  }

  lemma {:induction false} BinaryReads(ts: seq<string>, tree: Tree, i: nat, j: nat)
    requires tree.Binary? && Proper(tree) && Graded(tree) && Covers(ts, i, j, Yield(tree)) && Stops(ts, j, Grade(tree) + 1)
    ensures TreeFrom(ts, Grade(tree), i) == TreeTail(ts, Grade(tree), j, tree)
    decreases tree, 0
  {
    var level, l, r, m := Grade(tree), tree.l, tree.r, i + |Yield(tree.l)|;
    CoversSplit(ts, i, j, Yield(l) + [tree.op], Yield(r));
    CoversSplit(ts, i, m + 1, Yield(l), [tree.op]);
    CoversStart(ts, m, m + 1, [tree.op]);
    TreeReads(ts, l, level, i, m);
    TreeReads(ts, r, level + 1, m + 1, j);
  }

  lemma {:induction false} GroupReads(ts: seq<string>, x: Tree, i: nat, j: nat)
    requires Proper(x) && Graded(x) && Covers(ts, i, j, Yield(Group(x)))
    ensures PrimaryTree(ts, i) == Ok((Group(x), j))
    decreases x, 5
  {
    CoversSplit(ts, i, j, ["("] + Yield(x), [")"]);
    CoversSplit(ts, i, j - 1, ["("], Yield(x));
    CoversStart(ts, i, i + 1, ["("]);
    CoversStart(ts, j - 1, j, [")"]);
    TreeReads(ts, x, 0, i + 1, j - 1);
  }

  lemma {:induction false} InvokeReads(ts: seq<string>, name: string, args: Args, i: nat, j: nat)
    requires IsName(name) && ProperArgs(args) && GradedArgs(args) && Covers(ts, i, j, Yield(Invoke(name, args)))
    ensures PrimaryTree(ts, i) == Ok((Invoke(name, args), j))
    decreases args, 5
  {
    CoversSplit(ts, i, j, [name, "("] + YieldArgs(args), [")"]);
    CoversSplit(ts, i, j - 1, [name, "("], YieldArgs(args));
    CoversStart(ts, i, i + 2, [name, "("]);
    CoversStart(ts, j - 1, j, [")"]);
    AtomIsNoSign(name);
    if IsLiteral(name) { LiteralIsNoName(name); }
    ArgsReads(ts, args, i + 2, j - 1);
  }

  /** The text of proper arguments is read as those arguments. */
  lemma {:induction false} ArgsReads(ts: seq<string>, args: Args, i: nat, j: nat)
    requires ProperArgs(args) && GradedArgs(args) && Covers(ts, i, j, YieldArgs(args)) && j < |ts| && ts[j] == ")"
    ensures ArgsTree(ts, i) == Ok((args, j))
    decreases args, 4
  {
    if args.Arg? {
      var k := i + |Yield(args.first)|;
      YieldStarts(args.first);
      ArgCovers(ts, i, j, Yield(args.first), args.comma, YieldArgs(args.rest));
      TreeReads(ts, args.first, 0, i, k);
      ArgsReads(ts, args.rest, if args.comma then k + 1 else k, j);
    }
  }

  lemma ArgCovers(ts: seq<string>, i: nat, j: nat, a: seq<string>, comma: bool, b: seq<string>)
    requires Covers(ts, i, j, a + (if comma then [","] else []) + b) && a != []
    ensures var k := i + |a|;
            && i < k <= j && Covers(ts, i, k, a) && ts[i] == a[0] && (comma ==> k < j && ts[k] == ",")
            && Covers(ts, if comma then k + 1 else k, j, b)
  {
    var k, sep := i + |a|, if comma then [","] else [];
    CoversSplit(ts, i, j, a + sep, b);
    CoversSplit(ts, i, k + |sep|, a, sep);
    CoversStart(ts, i, k, a);
    if comma { CoversStart(ts, k, k + 1, sep); }
  }

  /** The tree shows the expression in these tokens. */
  predicate Shows(tree: Tree, e: Expr, ts: seq<string>) {
    Proper(tree) && Graded(tree) && Yield(tree) == ts && ExprOf(tree) == e
  }

  /** The tokens are the text of the expression, with possibly redundant parentheses. */
  ghost predicate Renders(e: Expr, ts: seq<string>) {
    exists tree :: Shows(tree, e, ts)
  }

  lemma ShownIsRead(tree: Tree, e: Expr, ts: seq<string>)
    requires Shows(tree, e, ts)
    ensures SyntaxTree(ts) == Some(tree)
  {
    assert ts[0..|ts|] == ts;
    TreeReads(ts, tree, 0, 0, |ts|);
  }

  /** A text renders one well-formed expression at most, and evaluates to its meaning, faults included. */
  lemma RenderedEvaluates(e: Expr, inp: Input)
    requires Renders(e, inp.tokens)
    ensures WellFormed(e) && inp.Whole() == Eval(e, inp.context, inp.host)
    ensures forall e' :: Renders(e', inp.tokens) ==> e' == e
  {
    var tree :| Shows(tree, e, inp.tokens);
    ShownIsRead(tree, e, inp.tokens);
    ProperIsWellFormed(tree);
    WholeIsMeaning(inp);
    MeaningIsEval(tree, inp.context, inp.host);
    forall e' | Renders(e', inp.tokens)
      ensures e' == e
    {
      var other :| Shows(other, e', inp.tokens);
      ShownIsRead(other, e', inp.tokens);
    }
  }

  /** Of the token lists without a syntax fault, exactly the tidy ones are the text of an expression. */
  lemma RenderedIffTidy(ts: seq<string>)
    requires AllTokens(ts)
    ensures (exists e :: Renders(e, ts)) <==> SyntaxTree(ts).Some? && Tidy(ts)
  {
    if SyntaxTree(ts).Some? {
      var tree := SyntaxTree(ts).value;
      TreeYields(ts, 0, 0);
      TreeIsTidy(ts, 0, 0);
      assert ts[0..|ts|] == ts;
      if Tidy(ts) {
        assert Shows(tree, ExprOf(tree), ts);
        assert Renders(ExprOf(tree), ts);
      }
    }
    if e :| Renders(e, ts) {
      var tree :| Shows(tree, e, ts);
      ShownIsRead(tree, e, ts);
    }
  }

  /** A token list that evaluates to a value is the text of an expression exactly when it is tidy, and the value is then that
      of the expression. */
  lemma AcceptedIsRenderedIff(inp: Input)
    requires AllTokens(inp.tokens) && inp.Whole().Ok?
    ensures Tidy(inp.tokens) <==>
            exists e :: Renders(e, inp.tokens) && WellFormed(e) && inp.Whole() == Eval(e, inp.context, inp.host)
  {
    WholeIsMeaning(inp);
    RenderedIffTidy(inp.tokens);
    if e :| Renders(e, inp.tokens) { RenderedEvaluates(e, inp); }
  }

  predicate IsSyntaxFault(f: Fault) {
    f.Incomplete? || f.OpenParenthesis? || f.Leftover? || f.UnknownSyntax?
  }

  lemma {:induction false} MeaningFaults(tree: Tree, context: map<string, Value>, host: Host)
    ensures var v := Meaning(tree, context, host); v.Err? ==> !IsSyntaxFault(v.error)
  {
    match tree
    case Leaf(_) =>
    case Group(x) => MeaningFaults(x, context, host);
    case Invoke(_, args) => ArgsFaults(args, context, host);
    case Negate(x) => MeaningFaults(x, context, host);
    case Binary(_, l, r) => MeaningFaults(l, context, host); MeaningFaults(r, context, host);
  }

  lemma {:induction false} ArgsFaults(args: Args, context: map<string, Value>, host: Host)
    ensures var vs := MeaningAll(args, context, host); vs.Err? ==> !IsSyntaxFault(vs.error)
  {
    match args
    case NoArgs =>
    case Arg(first, _, rest) => MeaningFaults(first, context, host); ArgsFaults(rest, context, host);
  }

  /** Without a syntax tree the parser fails; with one it never reports a syntax fault. */
  lemma SyntaxFaultsAreSyntax(inp: Input)
    ensures SyntaxTree(inp.tokens).None? ==> inp.Whole().Err?
    ensures SyntaxTree(inp.tokens).Some? && inp.Whole().Err? ==> !IsSyntaxFault(inp.Whole().error)
  {
    WholeIsMeaning(inp);
    if SyntaxTree(inp.tokens).Some? { MeaningFaults(SyntaxTree(inp.tokens).value, inp.context, inp.host); }
  }
}
