/** Workflow expressions: values, abstract syntax and meaning, and the cursor parser that evaluates tokens. */
module ExprParser {
  import opened Common

  datatype Value = Str(s: string) | Int(n: nat) | Float(r: real) | Bool(b: bool) | Null | Obj(fields: map<string, Value>)

  datatype Fault = Incomplete | OpenParenthesis | Leftover | UnknownSyntax | UnknownFunction(name: string) | WrongArity(name: string)

  /** What the host language supplies: lower-casing, and the text of floats and mappings. */
  datatype Host = Host(lower: string -> string, show: Value -> string)

  // ---- lexemes ----

  predicate IsWordStart(c: char) { 'a' <= c <= 'z' || 'A' <= c <= 'Z' || c == '_' }

  predicate IsWordPart(c: char) { IsWordStart(c) || IsDigit(c) || c == '.' || c == '-' }

  predicate IsWord(t: string) {
    t != "" && IsWordStart(t[0]) && forall c :: c in t ==> IsWordPart(c)
  }

  predicate AllDigits(t: string) {
    t != "" && forall c :: c in t ==> IsDigit(c)
  }

  /** The length of the digit run at the front. */
  function DigitRun(t: string): (k: nat)
    ensures k <= |t|
  {
    if t == "" || !IsDigit(t[0]) then 0 else 1 + DigitRun(t[1..])
  }

  /** Digits, optionally followed by a point and more digits. */
  predicate IsNumber(t: string) {
    var k := DigitRun(t);
    k > 0 && (k == |t| || (t[k] == '.' && AllDigits(t[k + 1..])))
  }

  const KEYWORDS := ["true", "false", "null"]

  predicate IsQuoted(t: string) {
    |t| >= 2 && t[0] == '\'' && t[|t| - 1] == '\'' && '\'' !in t[1..|t| - 1]
  }

  const PAIRS := ["||", "&&", "==", "!="]
  const SINGLES := ['!', '(', ')', ',']

  predicate IsToken(t: string) {
    t in PAIRS || (|t| == 1 && t[0] in SINGLES) || IsQuoted(t) || IsWord(t) || IsNumber(t)
  }

  function NatOf(t: string): nat {
    if t == "" || !IsDigit(t[|t| - 1]) then 0
    else 10 * NatOf(t[..|t| - 1]) + (t[|t| - 1] as int - '0' as int)
  }

  function PowerOfTen(k: nat): nat {
    if k == 0 then 1 else 10 * PowerOfTen(k - 1)
  }

  lemma PowerPositive(k: nat)
    ensures PowerOfTen(k) > 0
  {
  }

  function Decimal(whole: string, frac: string): real {
    PowerPositive(|frac|);
    NatOf(whole) as real + NatOf(frac) as real / PowerOfTen(|frac|) as real
  }

  function NumberOf(t: string): Value {
    var k := DigitRun(t);
    if k >= |t| then Int(NatOf(t)) else Float(Decimal(t[..k], t[k + 1..]))
  }

  function KeywordOf(t: string): Value {
    if t == "true" then Bool(true) else if t == "false" then Bool(false) else Null
  }

  // ---- meaning ----

  predicate Truthy(v: Value) {
    match v
    case Str(s) => s != ""
    case Int(n) => n != 0
    case Float(r) => r != 0.0
    case Bool(b) => b
    case Null => false
    case Obj(_) => true
  }

  function Text(v: Value, host: Host): string {
    match v
    case Str(s) => s
    case Bool(b) => if b then "True" else "False"
    case Null => "None"
    case _ => host.show(v)
  }

  function SplitDots(path: string): (parts: seq<string>)
    ensures parts != []
  {
    if path == "" then [""]
    else
      var rest := SplitDots(path[1..]);
      if path[0] == '.' then [""] + rest else [[path[0]] + rest[0]] + rest[1..]
  }

  function Descend(parts: seq<string>, v: Value): Value {
    if parts == [] then v
    else if v.Obj? && parts[0] in v.fields then Descend(parts[1..], v.fields[parts[0]])
    else Str("")
  }

  function Resolve(path: string, context: map<string, Value>): Value {
    Descend(SplitDots(path), Obj(context))
  }

  function Apply(name: string, args: seq<Value>, host: Host): Result<Value, Fault> {
    var f := host.lower(name);
    if f == "always" || f == "success" then (if |args| == 0 then Ok(Bool(true)) else Err(WrongArity(name)))
    else if f == "failure" || f == "cancelled" then (if |args| == 0 then Ok(Bool(false)) else Err(WrongArity(name)))
    else if f == "contains" || f == "startswith" || f == "endswith" then
      if |args| != 2 then Err(WrongArity(name))
      else
        var a, b := host.lower(Text(args[0], host)), host.lower(Text(args[1], host));
        Ok(Bool(if f == "contains" then Contains(a, b)
                else if f == "startswith" then b <= a
                else |b| <= |a| && a[|a| - |b|..] == b))
    else Err(UnknownFunction(name))
  }

  function Disjoin(a: Value, b: Value): Value { if Truthy(a) then a else b }

  function Conjoin(a: Value, b: Value): Value { if Truthy(a) then b else a }

  function Same(op: string, a: Value, b: Value, host: Host): Value {
    var same := host.lower(Text(a, host)) == host.lower(Text(b, host));
    Bool(if op == "==" then same else !same)
  }

  // Both operands are always evaluated, left first, so the leftmost fault wins.

  function OrOf(a: Result<Value, Fault>, b: Result<Value, Fault>): Result<Value, Fault> {
    if a.Err? then a else if b.Err? then b else Ok(Disjoin(a.value, b.value))
  }

  function AndOf(a: Result<Value, Fault>, b: Result<Value, Fault>): Result<Value, Fault> {
    if a.Err? then a else if b.Err? then b else Ok(Conjoin(a.value, b.value))
  }

  function CompareOf(op: string, a: Result<Value, Fault>, b: Result<Value, Fault>, host: Host): Result<Value, Fault> {
    if a.Err? then a else if b.Err? then b else Ok(Same(op, a.value, b.value, host))
  }

  function NotOf(a: Result<Value, Fault>): Result<Value, Fault> {
    if a.Err? then a else Ok(Bool(!Truthy(a.value)))
  }

  datatype Expr =
    | Quoted(s: string)
    | Num(t: string)
    | Keyword(k: string)
    | Ref(path: string)
    | Call(name: string, args: seq<Expr>)
    | Not(e: Expr)
    | Compare(op: string, l: Expr, r: Expr)
    | And(l: Expr, r: Expr)
    | Or(l: Expr, r: Expr)

  predicate WellFormed(e: Expr) {
    match e
    case Quoted(s) => '\'' !in s
    case Num(t) => IsNumber(t)
    case Keyword(k) => k in KEYWORDS
    case Ref(path) => IsWord(path) && path !in KEYWORDS
    case Call(name, args) => IsWord(name) && name !in KEYWORDS && forall a :: a in args ==> WellFormed(a)
    case Not(x) => WellFormed(x)
    case Compare(op, l, r) => (op == "==" || op == "!=") && WellFormed(l) && WellFormed(r)
    case And(l, r) => WellFormed(l) && WellFormed(r)
    case Or(l, r) => WellFormed(l) && WellFormed(r)
  }

  /** The meaning of an expression. */
  function Eval(e: Expr, context: map<string, Value>, host: Host): Result<Value, Fault>
    decreases e, 0
  {
    match e
    case Quoted(s) => Ok(Str(s))
    case Num(t) => Ok(NumberOf(t))
    case Keyword(k) => Ok(KeywordOf(k))
    case Ref(path) => Ok(Resolve(path, context))
    case Call(name, args) =>
      var vs := EvalAll(args, context, host);
      if vs.Err? then Err(vs.error) else Apply(name, vs.value, host)
    case Not(x) => NotOf(Eval(x, context, host))
    case Compare(op, l, r) => CompareOf(op, Eval(l, context, host), Eval(r, context, host), host)
    case And(l, r) => AndOf(Eval(l, context, host), Eval(r, context, host))
    case Or(l, r) => OrOf(Eval(l, context, host), Eval(r, context, host))
  }

  function EvalAll(es: seq<Expr>, context: map<string, Value>, host: Host): Result<seq<Value>, Fault>
    decreases es, 0
  {
    if es == [] then Ok([])
    else
      var v := Eval(es[0], context, host);
      if v.Err? then Err(v.error)
      else
        var vs := EvalAll(es[1..], context, host);
        if vs.Err? then vs else Ok([v.value] + vs.value)
  }

  // ---- the grammar the parser follows, as functions of a token position ----

  type Parsed = Result<(Value, nat), Fault>

  /** Everything a parse depends on besides the position. */
  datatype Input = Input(tokens: seq<string>, context: map<string, Value>, host: Host) {
    predicate At(i: nat, t: string) {
      i < |tokens| && tokens[i] == t
    }

    function OrFrom(i: nat): (p: Parsed)
      requires i <= |tokens|
      ensures p.Ok? ==> i < p.value.1 <= |tokens|
      decreases |tokens| - i, 6
    {
      var a := AndFrom(i);
      if a.Err? then a else OrTail(a.value.1, a.value.0)
    }

    function OrTail(i: nat, v: Value): (p: Parsed)
      requires i <= |tokens|
      ensures p.Ok? ==> i <= p.value.1 <= |tokens|
      decreases |tokens| - i, 0
    {
      if !At(i, "||") then Ok((v, i))
      else
        var b := AndFrom(i + 1);
        if b.Err? then b else OrTail(b.value.1, Disjoin(v, b.value.0))
    }

    function AndFrom(i: nat): (p: Parsed)
      requires i <= |tokens|
      ensures p.Ok? ==> i < p.value.1 <= |tokens|
      decreases |tokens| - i, 5
    {
      var a := EqFrom(i);
      if a.Err? then a else AndTail(a.value.1, a.value.0)
    }

    function AndTail(i: nat, v: Value): (p: Parsed)
      requires i <= |tokens|
      ensures p.Ok? ==> i <= p.value.1 <= |tokens|
      decreases |tokens| - i, 0
    {
      if !At(i, "&&") then Ok((v, i))
      else
        var b := EqFrom(i + 1);
        if b.Err? then b else AndTail(b.value.1, Conjoin(v, b.value.0))
    }

    function EqFrom(i: nat): (p: Parsed)
      requires i <= |tokens|
      ensures p.Ok? ==> i < p.value.1 <= |tokens|
      decreases |tokens| - i, 4
    {
      var a := UnaryFrom(i);
      if a.Err? then a else EqTail(a.value.1, a.value.0)
    }

    function EqTail(i: nat, v: Value): (p: Parsed)
      requires i <= |tokens|
      ensures p.Ok? ==> i <= p.value.1 <= |tokens|
      decreases |tokens| - i, 0
    {
      if !At(i, "==") && !At(i, "!=") then Ok((v, i))
      else
        var b := UnaryFrom(i + 1);
        if b.Err? then b else EqTail(b.value.1, Same(tokens[i], v, b.value.0, host))
    }

    function UnaryFrom(i: nat): (p: Parsed)
      requires i <= |tokens|
      ensures p.Ok? ==> i < p.value.1 <= |tokens|
      decreases |tokens| - i, 3
    {
      if At(i, "!") then
        var a := UnaryFrom(i + 1);
        if a.Err? then a else Ok((Bool(!Truthy(a.value.0)), a.value.1))
      else PrimaryFrom(i)
    }

    function PrimaryFrom(i: nat): (p: Parsed)
      requires i <= |tokens|
      ensures p.Ok? ==> i < p.value.1 <= |tokens|
      decreases |tokens| - i, 2
    {
      if i == |tokens| then Err(Incomplete)
      else
        var t := tokens[i];
        if t == "(" then
          var a := OrFrom(i + 1);
          if a.Err? then a
          else if At(a.value.1, ")") then Ok((a.value.0, a.value.1 + 1)) else Err(OpenParenthesis)
        else if t != "" && t[0] == '\'' then Ok((Str(Unquote(t)), i + 1))
        else if IsNumber(t) then Ok((NumberOf(t), i + 1))
        else if t in KEYWORDS then Ok((KeywordOf(t), i + 1))
        else if At(i + 1, "(") then
          var args := ArgsFrom(i + 2, []);
          if args.Err? then Err(args.error)
          else
            var v := Apply(t, args.value.0, host);
            if v.Err? then Err(v.error) else Ok((v.value, args.value.1 + 1))
        else Ok((Resolve(t, context), i + 1))
    }

    /** Arguments up to, not including, the closing parenthesis; a missing comma is tolerated. */
    function ArgsFrom(i: nat, seen: seq<Value>): (p: Result<(seq<Value>, nat), Fault>)
      requires i <= |tokens|
      ensures p.Ok? ==> i <= p.value.1 < |tokens|
      decreases |tokens| - i, 7
    {
      if At(i, ")") then Ok((seen, i))
      else
        var a := OrFrom(i);
        if a.Err? then Err(a.error)
        else ArgsFrom(if At(a.value.1, ",") then a.value.1 + 1 else a.value.1, seen + [a.value.0])
    }

    function Whole(): Result<Value, Fault> {
      var a := OrFrom(0);
      if a.Err? then Err(a.error) else if a.value.1 < |tokens| then Err(Leftover) else Ok(a.value.0)
    }
  }

  /** `lexeme[1:-1]`. */
  function Unquote(t: string): string {
    if |t| < 2 then "" else t[1..|t| - 1]
  }

  /** The cursor parser: evaluates while it reads, advancing `index`. */
  class Parser {
    const input: Input
    var index: nat

    constructor (input: Input)
      ensures this.input == input && index == 0
    {
      this.input := input;
      index := 0;
    }

    ghost predicate Valid()
      reads this
    {
      index <= |input.tokens|
    }

    /** The cursor and the outcome agree with a parse function's answer. */
    ghost predicate Matches(r: Result<Value, Fault>, p: Parsed)
      reads this
    {
      if p.Err? then r == Err(p.error) else r == Ok(p.value.0) && index == p.value.1
    }

    function Peek(): Option<string>
      reads this
    {
      if index < |input.tokens| then Some(input.tokens[index]) else None
    }

    method Take() returns (t: string)
      requires index < |input.tokens|
      modifies this
      ensures t == input.tokens[old(index)] && index == old(index) + 1
    {
      t := input.tokens[index];
      index := index + 1;
    }

    /** Evaluate the whole token list; any leftover token is an error. */
    method Parse() returns (r: Result<Value, Fault>)
      requires Valid() && index == 0
      modifies this
      ensures r == input.Whole()
      ensures r.Ok? ==> index == |input.tokens|
    {
      r := ParseOr();
      if r.Ok? && Peek().Some? { r := Err(Leftover); }
    }

    method ParseOr() returns (r: Result<Value, Fault>)
      requires Valid()
      modifies this
      ensures Valid() && Matches(r, input.OrFrom(old(index)))
      decreases |input.tokens| - index, 6
    {
      r := ParseAnd();
      while r.Ok? && Peek() == Some("||")
        invariant Valid() && (r.Ok? ==> index > old(index))
        invariant if r.Err? then input.OrFrom(old(index)) == Err(r.error)
                  else input.OrFrom(old(index)) == input.OrTail(index, r.value)
        decreases r.Ok?, |input.tokens| - index
      {
        var operator := Take();
        var right := ParseAnd();
        r := if right.Err? then right else Ok(Disjoin(r.value, right.value));
      }
    }

    method ParseAnd() returns (r: Result<Value, Fault>)
      requires Valid()
      modifies this
      ensures Valid() && Matches(r, input.AndFrom(old(index)))
      decreases |input.tokens| - index, 5
    {
      r := ParseEquality();
      while r.Ok? && Peek() == Some("&&")
        invariant Valid() && (r.Ok? ==> index > old(index))
        invariant if r.Err? then input.AndFrom(old(index)) == Err(r.error)
                  else input.AndFrom(old(index)) == input.AndTail(index, r.value)
        decreases r.Ok?, |input.tokens| - index
      {
        var operator := Take();
        var right := ParseEquality();
        r := if right.Err? then right else Ok(Conjoin(r.value, right.value));
      }
    }

    method ParseEquality() returns (r: Result<Value, Fault>)
      requires Valid()
      modifies this
      ensures Valid() && Matches(r, input.EqFrom(old(index)))
      decreases |input.tokens| - index, 4
    {
      r := ParseUnary();
      while r.Ok? && (Peek() == Some("==") || Peek() == Some("!="))
        invariant Valid() && (r.Ok? ==> index > old(index))
        invariant if r.Err? then input.EqFrom(old(index)) == Err(r.error)
                  else input.EqFrom(old(index)) == input.EqTail(index, r.value)
        decreases r.Ok?, |input.tokens| - index
      {
        var operator := Take();
        var right := ParseUnary();
        r := if right.Err? then right else Ok(Same(operator, r.value, right.value, input.host));
      }
    }

    method ParseUnary() returns (r: Result<Value, Fault>)
      requires Valid()
      modifies this
      ensures Valid() && Matches(r, input.UnaryFrom(old(index)))
      decreases |input.tokens| - index, 3
    {
      if Peek() == Some("!") {
        var bang := Take();
        r := ParseUnary();
        if r.Ok? { r := Ok(Bool(!Truthy(r.value))); }
      } else {
        r := ParsePrimary();
      }
    }

    method ParsePrimary() returns (r: Result<Value, Fault>)
      requires Valid()
      modifies this
      ensures Valid() && Matches(r, input.PrimaryFrom(old(index)))
      decreases |input.tokens| - index, 2
    {
      if Peek().None? { return Err(Incomplete); }
      var t := Take();
      if t == "(" {
        r := ParseOr();
        if r.Ok? {
          if Peek() != Some(")") { return Err(OpenParenthesis); }
          var close := Take();
        }
      } else if t != "" && t[0] == '\'' {
        r := Ok(Str(Unquote(t)));
      } else if IsNumber(t) {
        r := Ok(NumberOf(t));
      } else if t in KEYWORDS {
        r := Ok(KeywordOf(t));
      } else if Peek() == Some("(") {
        r := ParseCall(t);
      } else {
        r := Ok(Resolve(t, input.context));
      }
    }

    method ParseCall(name: string) returns (r: Result<Value, Fault>)
      requires Valid() && Peek() == Some("(")
      modifies this
      ensures Valid()
      ensures var args := input.ArgsFrom(old(index) + 1, []);
              if args.Err? then r == Err(args.error)
              else r == Apply(name, args.value.0, input.host) && index == args.value.1 + 1
      decreases |input.tokens| - index, 1
    {
      var open := Take();
      var args: seq<Value> := [];
      while Peek() != Some(")")
        invariant Valid() && index > old(index)
        invariant input.ArgsFrom(old(index) + 1, []) == input.ArgsFrom(index, args)
        decreases |input.tokens| - index
      {
        var arg := ParseOr();
        if arg.Err? { return arg; }
        args := args + [arg.value];
        if Peek() == Some(",") {
          var comma := Take();
        }
      }
      var close := Take();
      r := Apply(name, args, input.host);
    }
  }
}
