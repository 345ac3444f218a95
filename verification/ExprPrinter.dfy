/** Printing expressions with parentheses only where precedence asks for them, and parsing them back. */
module ExprPrinter {
  import opened Common
  import opened ExprParser
  import opened ExprTrees

  /** How loosely an expression binds: 0 for `||`, 1 for `&&`, 2 for comparisons, 3 for the rest. */
  function Binding(e: Expr): nat {
    match e
    case Or(_, _) => 0
    case And(_, _) => 1
    case Compare(_, _, _) => 2
    case _ => 3
  }

  /** The tree of `e` where only operators binding at least as tightly as `level` may stand bare. */
  function Minimal(e: Expr, level: nat): Tree
    decreases e, if level > Binding(e) then 1 else 0
  {
    if level > Binding(e) then Group(Minimal(e, 0))
    else
      match e
      case Quoted(s) => Leaf("'" + s + "'")
      case Num(t) => Leaf(t)
      case Keyword(k) => Leaf(k)
      case Ref(path) => Leaf(path)
      case Call(name, args) => Invoke(name, MinimalArgs(args))
      case Not(x) => Negate(Minimal(x, 3))
      case Compare(op, l, r) => Binary(op, Minimal(l, 2), Minimal(r, 3))
      case And(l, r) => Binary("&&", Minimal(l, 1), Minimal(r, 2))
      case Or(l, r) => Binary("||", Minimal(l, 0), Minimal(r, 1))
  }

  function MinimalArgs(args: seq<Expr>): Args
    decreases args, 0
  {
    if args == [] then NoArgs else Arg(Minimal(args[0], 0), |args| > 1, MinimalArgs(args[1..]))
  }

  function Print(e: Expr): seq<string> {
    Yield(Minimal(e, 0))
  }

  lemma {:induction false} MinimalShows(e: Expr, level: nat)
    requires WellFormed(e) && level <= 3
    ensures var tree := Minimal(e, level); Proper(tree) && Graded(tree) && Grade(tree) >= level && ExprOf(tree) == e
    decreases e, if level > Binding(e) then 1 else 0
  {
    if level > Binding(e) {
      MinimalShows(e, 0);
    } else {
      match e
      case Call(_, args) => MinimalArgsShow(args);
      case Not(x) => MinimalShows(x, 3);
      case Compare(_, l, r) => MinimalShows(l, 2); MinimalShows(r, 3);
      case And(l, r) => MinimalShows(l, 1); MinimalShows(r, 2);
      case Or(l, r) => MinimalShows(l, 0); MinimalShows(r, 1);
      case _ => AtomShows(e);
    }
  }

  lemma AtomShows(e: Expr)
    requires WellFormed(e) && (e.Quoted? || e.Num? || e.Keyword? || e.Ref?)
    ensures IsAtom(Minimal(e, 0).t) && ExprOf(Minimal(e, 0)) == e
  {
    var t := Minimal(e, 0).t;
    match e
    case Quoted(s) => assert t[1..|t| - 1] == s;
    case Num(_) => assert IsDigit(t[0]);
    case Keyword(_) => assert DigitRun(t) == 0;
    case Ref(_) => assert DigitRun(t) == 0;
  }

  lemma {:induction false} MinimalArgsShow(args: seq<Expr>)
    requires forall a :: a in args ==> WellFormed(a)
    ensures var tree := MinimalArgs(args); ProperArgs(tree) && GradedArgs(tree) && ExprsOf(tree) == args
    decreases args, 0
  {
    if args != [] {
      MinimalShows(args[0], 0);
      MinimalArgsShow(args[1..]);
    }
  }

  /** Evaluating the printed tokens of a well-formed expression gives the expression's meaning,
      faults included, and every token is consumed. */
  lemma PrintedTokensEvaluate(e: Expr, context: map<string, Value>, host: Host)
    requires WellFormed(e)
    ensures Renders(e, Print(e)) && Input(Print(e), context, host).Whole() == Eval(e, context, host)
  {
    MinimalShows(e, 0);
    assert Shows(Minimal(e, 0), e, Print(e));
    RenderedEvaluates(e, Input(Print(e), context, host));
  }
}
