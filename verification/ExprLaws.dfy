/** What the operators, functions, literals and context paths of workflow expressions compute. */
module ExprLaws {
  import opened Common
  import opened ExprParser

  // ---- operators ----

  /** Exactly these values count as false. */
  lemma FalseValues(v: Value)
    ensures !Truthy(v) <==> v in {Str(""), Int(0), Float(0.0), Bool(false), Null}
  {
  }

  /** `||` falls back to its right operand, `&&` goes on to it: each returns one of its operands, and is true exactly when
      one of them is, or both are. */
  lemma ConnectivesChoose(a: Expr, b: Expr, context: map<string, Value>, host: Host)
    requires Eval(a, context, host).Ok? && Eval(b, context, host).Ok?
    ensures var x, y := Eval(a, context, host), Eval(b, context, host);
            var or, and := Eval(Or(a, b), context, host), Eval(And(a, b), context, host);
            && or.Ok? && and.Ok? && or in {x, y} && and in {x, y}
            && (Truthy(or.value) <==> Truthy(x.value) || Truthy(y.value))
            && (Truthy(and.value) <==> Truthy(x.value) && Truthy(y.value))
            && (Truthy(x.value) ==> or == x && and == y) && (!Truthy(x.value) ==> or == y && and == x)
  {
  }

  lemma NotNegates(a: Expr, context: map<string, Value>, host: Host)
    requires Eval(a, context, host).Ok?
    ensures var v := Eval(Not(a), context, host);
            v.Ok? && (Truthy(v.value) <==> !Truthy(Eval(a, context, host).value)) && v.value.Bool?
  {
  }

  /** `==` compares lower-cased texts, so it is reflexive and symmetric; `!=` is its negation. */
  lemma ComparisonLaws(a: Expr, b: Expr, context: map<string, Value>, host: Host)
    requires Eval(a, context, host).Ok? && Eval(b, context, host).Ok?
    ensures var same, other := Eval(Compare("==", a, b), context, host), Eval(Compare("!=", a, b), context, host);
            && same == Eval(Compare("==", b, a), context, host)
            && (Truthy(same.value) <==> !Truthy(other.value))
            && (same == Ok(Bool(true)) <==>
                  host.lower(Text(Eval(a, context, host).value, host)) == host.lower(Text(Eval(b, context, host).value, host)))
    ensures Eval(Compare("==", a, a), context, host) == Ok(Bool(true))
  {
  }

  /** Both operands are evaluated, so the leftmost fault wins. */
  lemma LeftmostFaultWins(op: string, a: Expr, b: Expr, context: map<string, Value>, host: Host)
    ensures var x, y := Eval(a, context, host), Eval(b, context, host);
            forall e :: e in {Or(a, b), And(a, b), Compare(op, a, b)} ==>
              && (Eval(e, context, host).Err? <==> x.Err? || y.Err?)
              && (x.Err? ==> Eval(e, context, host) == x) && (x.Ok? && y.Err? ==> Eval(e, context, host) == y)
  {
  }

  // ---- functions ----

  /** The functions on two texts, after lower-casing: a text occurs, comes first, comes last. */
  lemma TextFunctions(name: string, a: Value, b: Value, host: Host)
    requires host.lower(name) in {"contains", "startswith", "endswith"}
    ensures var f, x, y := host.lower(name), host.lower(Text(a, host)), host.lower(Text(b, host));
            var r := Apply(name, [a, b], host);
            && r.Ok? && r.value.Bool?
            && (f == "contains" ==> (r.value.b <==> exists k :: 0 <= k <= |x| && y <= x[k..]))
            && (f == "startswith" ==> (r.value.b <==> y <= x))
            && (f == "endswith" ==> (r.value.b <==> |y| <= |x| && x[|x| - |y|..] == y))
  {
    ContainsIff(host.lower(Text(a, host)), host.lower(Text(b, host)));
  }

  /** What a text starts or ends with, it contains. */
  lemma StartOrEndIsContained(start: string, end: string, whole: string, a: Value, b: Value, host: Host)
    requires host.lower(start) == "startswith" && host.lower(end) == "endswith" && host.lower(whole) == "contains"
    requires Apply(start, [a, b], host) == Ok(Bool(true)) || Apply(end, [a, b], host) == Ok(Bool(true))
    ensures Apply(whole, [a, b], host) == Ok(Bool(true))
  {
    var x, y := host.lower(Text(a, host)), host.lower(Text(b, host));
    TextFunctions(whole, a, b, host);
    if y <= x {
      assert y <= x[0..];
    } else {
      assert y <= x[|x| - |y|..];
    }
  }

  /** Four functions without arguments are constants, three take two; anything else is a fault. */
  lemma CallFaults(name: string, args: seq<Value>, host: Host)
    ensures var f, r := host.lower(name), Apply(name, args, host);
            && (r == Err(UnknownFunction(name)) <==>
                  f !in {"always", "success", "failure", "cancelled", "contains", "startswith", "endswith"})
            && (r == Err(WrongArity(name)) <==>
                  || (f in {"always", "success", "failure", "cancelled"} && args != [])
                  || (f in {"contains", "startswith", "endswith"} && |args| != 2))
            && (f in {"always", "success"} && args == [] ==> r == Ok(Bool(true)))
            && (f in {"failure", "cancelled"} && args == [] ==> r == Ok(Bool(false)))
  {
  }

  // ---- context paths ----

  /** A member of a mapping; the empty string where there is none. */
  function Member(v: Value, name: string): Value {
    if v.Obj? && name in v.fields then v.fields[name] else Str("")
  }

  lemma {:induction false} SplitPlain(name: string)
    requires '.' !in name
    ensures SplitDots(name) == [name]
  {
    if name != "" {
      SplitPlain(name[1..]);
      assert [name[0]] + name[1..] == name;
    }
  }

  lemma {:induction false} SplitAtDot(path: string, name: string)
    requires '.' !in name
    ensures SplitDots(path + "." + name) == SplitDots(path) + [name]
  {
    if path == "" {
      assert path + "." + name == ['.'] + name && (['.'] + name)[1..] == name;
      SplitPlain(name);
    } else {
      SplitAtDot(path[1..], name);
      assert (path + "." + name)[1..] == path[1..] + "." + name;
    }
  }

  lemma {:induction false} DescendMore(parts: seq<string>, name: string, v: Value)
    ensures Descend(parts + [name], v) == Member(Descend(parts, v), name)
  {
    if parts == [] {
      assert parts + [name] == [name] && [name][1..] == [];
      assert forall w :: Descend([], w) == w;
    } else {
      assert (parts + [name])[1..] == parts[1..] + [name];
      if v.Obj? && parts[0] in v.fields { DescendMore(parts[1..], name, v.fields[parts[0]]); }
    }
  }

  /** A path without dots names a member of the context; each further name a member of what the path so far names. */
  lemma PathsDescend(path: string, name: string, context: map<string, Value>)
    requires '.' !in name
    ensures Resolve(name, context) == Member(Obj(context), name)
    ensures Resolve(path + "." + name, context) == Member(Resolve(path, context), name)
  {
    SplitPlain(name);
    SplitAtDot(path, name);
    DescendMore([], name, Obj(context));
    assert [] + [name] == [name];
    DescendMore(SplitDots(path), name, Obj(context));
  }

  // ---- literals ----

  /** A word starts with an ASCII letter or an underscore and goes on with those, digits, dots and dashes, by code point. */
  lemma WordCharacters(c: char)
    ensures var k := c as int;
            && (IsWordStart(c) <==> 65 <= k <= 90 || 97 <= k <= 122 || k == 95)
            && (IsWordPart(c) <==> IsWordStart(c) || 48 <= k <= 57 || k == 46 || k == 45)
  {
  }

  lemma KeywordValues()
    ensures KeywordOf("true") == Bool(true) && KeywordOf("false") == Bool(false) && KeywordOf("null") == Null
  {
  }

  /** The decimal digits of a number. */
  function Digits(n: nat): string {
    (if n < 10 then "" else Digits(n / 10)) + ['0' + (n % 10) as char]
  }

  lemma {:induction false} DigitsAreDigits(n: nat)
    ensures AllDigits(Digits(n))
  {
    if n >= 10 { DigitsAreDigits(n / 10); }
  }

  lemma {:induction false} DigitRunOf(t: string, rest: string)
    requires (forall c :: c in t ==> IsDigit(c)) && (rest != "" ==> !IsDigit(rest[0]))
    ensures DigitRun(t + rest) == |t|
  {
    if t == "" {
      assert t + rest == rest;
    } else {
      assert (t + rest)[1..] == t[1..] + rest;
      DigitRunOf(t[1..], rest);
    }
  }

  lemma {:induction false} NatOfDigits(n: nat)
    ensures NatOf(Digits(n)) == n
  {
    var t := Digits(n);
    assert t[..|t| - 1] == if n < 10 then "" else Digits(n / 10);
    if n >= 10 { NatOfDigits(n / 10); }
  }

  /** `r` is `a` and `b / p`. */
  predicate IsMixed(r: real, a: real, b: real, p: real) {
    p > 0.0 && r * p == a * p + b
  }

  /** A number means what its digits say; with a point, the digits behind it count as that many decimal places. */
  lemma NumbersMeanTheirDigits(n: nat, frac: string)
    requires AllDigits(frac)
    ensures NumberOf(Digits(n)) == Int(n)
    ensures var v := NumberOf(Digits(n) + "." + frac);
            v.Float? && IsMixed(v.r, n as real, NatOf(frac) as real, PowerOfTen(|frac|) as real)
  {
    DigitsAreDigits(n);
    NatOfDigits(n);
    DigitRunOf(Digits(n), "");
    assert Digits(n) + "" == Digits(n);
    DecimalValue(Digits(n), frac);
    DecimalIsMixed(Digits(n), frac);
  }

  lemma DecimalValue(whole: string, frac: string)
    requires AllDigits(whole)
    ensures NumberOf(whole + "." + frac) == Float(Decimal(whole, frac))
  {
    var t := whole + "." + frac;
    assert t == whole + ("." + frac);
    DigitRunOf(whole, "." + frac);
    assert t[..|whole|] == whole && t[|whole| + 1..] == frac;
  }

  lemma DecimalIsMixed(whole: string, frac: string)
    ensures IsMixed(Decimal(whole, frac), NatOf(whole) as real, NatOf(frac) as real, PowerOfTen(|frac|) as real)
  {
    PowerPositive(|frac|);
    QuotientIsMixed(NatOf(whole) as real, NatOf(frac) as real, PowerOfTen(|frac|) as real);
  }

  lemma QuotientIsMixed(a: real, b: real, p: real)
    requires p > 0.0
    ensures IsMixed(a + b / p, a, b, p)
  {
    assert b / p * p == b;
  }
}
