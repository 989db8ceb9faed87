/** Symbolic differentiation: one rule per node kind and tag, each building a
    fresh, unsimplified tree, and a failure for every tag outside the closed
    sets. */
module Differentiation {
  import opened Tree

  /** The derivative of `e` with respect to the variable `x`. A binary or
      unary node checks its tag first and then differentiates its children,
      left before right. Leaves never fail, and every rule for an operator
      or a function builds a binary node. */
  function Derive<T>(e: Expr<T>, x: string, n: Numeric<T>): (r: Result<Expr<T>>)
    ensures e.Const? || e.Var? ==> r.Ok? && r.value.Const?
    ensures r.Ok? && (e.Bin? || e.Un?) ==> r.value.Bin?
  {
    match e
    case Const(_) => Ok(Const(n.lit(0)))
    case Var(name) => Ok(Const(if name == x then n.lit(1) else n.lit(0)))
    case Bin(op, u, v) =>
      if op == "+" then
        var du :- Derive(u, x, n);
        var dv :- Derive(v, x, n);
        Ok(Bin("+", du, dv))
      else if op == "-" then
        var du :- Derive(u, x, n);
        var dv :- Derive(v, x, n);
        Ok(Bin("-", du, dv))
      else if op == "*" then
        var du :- Derive(u, x, n);
        var dv :- Derive(v, x, n);
        Ok(Bin("+", Bin("*", du, Clone(v)), Bin("*", Clone(u), dv)))
      else if op == "/" then
        var du :- Derive(u, x, n);
        var dv :- Derive(v, x, n);
        var numerator := Bin("-", Bin("*", du, Clone(v)), Bin("*", Clone(u), dv));
        Ok(Bin("/", numerator, Bin("^", Clone(v), Const(n.lit(2)))))
      else if op == "^" then
        var du :- Derive(u, x, n);
        var dv :- Derive(v, x, n);
        var term1 := Bin("*", dv, Un("ln", Clone(u)));
        var term2 := Bin("/", Bin("*", Clone(v), du), Clone(u));
        Ok(Bin("*", Clone(e), Bin("+", term1, term2)))
      else
        Err(NoDerivativeForOperator(op))
    case Un(op, c) =>
      if op == "sin" then
        var dc :- Derive(c, x, n);
        Ok(Bin("*", Un("cos", Clone(c)), dc))
      else if op == "cos" then
        var dc :- Derive(c, x, n);
        Ok(Bin("*", Bin("*", Const(n.lit(-1)), Un("sin", Clone(c))), dc))
      else if op == "ln" then
        var dc :- Derive(c, x, n);
        Ok(Bin("/", dc, Clone(c)))
      else if op == "exp" then
        var dc :- Derive(c, x, n);
        Ok(Bin("*", Clone(e), dc))
      else
        Err(NoDerivativeForFunction(op))
  }

  // ---------------------------------------------------------------------
  // The rules, one per node kind and tag, stated on the operands.

  /** A constant differentiates to zero, whatever the variable. */
  lemma ConstantRule<T>(c: T, x: string, n: Numeric<T>)
    ensures Derive(Const(c), x, n) == Ok(Const(n.lit(0)))
  {
  }

  /** A variable differentiates to one by itself and to zero by any other. */
  lemma VariableRule<T>(name: string, x: string, n: Numeric<T>)
    ensures name == x ==> Derive(Var(name), x, n) == Ok(Const(n.lit(1)))
    ensures name != x ==> Derive(Var(name), x, n) == Ok(Const(n.lit(0)))
  {
  }

  /** Linearity: `+` and `-` apply the same operator to the operands'
      derivatives. */
  lemma SumRule<T>(op: string, u: Expr<T>, v: Expr<T>, du: Expr<T>, dv: Expr<T>, x: string, n: Numeric<T>)
    requires op == "+" || op == "-"
    requires Derive(u, x, n) == Ok(du) && Derive(v, x, n) == Ok(dv)
    ensures Derive(Bin(op, u, v), x, n) == Ok(Bin(op, du, dv))
  {
  }

  /** Product rule: d(u*v) = (du*v) + (u*dv). */
  lemma ProductRule<T>(u: Expr<T>, v: Expr<T>, du: Expr<T>, dv: Expr<T>, x: string, n: Numeric<T>)
    requires Derive(u, x, n) == Ok(du) && Derive(v, x, n) == Ok(dv)
    ensures Derive(Bin("*", u, v), x, n) == Ok(Bin("+", Bin("*", du, v), Bin("*", u, dv)))
  {
  }

  /** Quotient rule: d(u/v) = ((du*v) - (u*dv)) / (v^2). */
  lemma QuotientRule<T>(u: Expr<T>, v: Expr<T>, du: Expr<T>, dv: Expr<T>, x: string, n: Numeric<T>)
    requires Derive(u, x, n) == Ok(du) && Derive(v, x, n) == Ok(dv)
    ensures Derive(Bin("/", u, v), x, n)
         == Ok(Bin("/", Bin("-", Bin("*", du, v), Bin("*", u, dv)), Bin("^", v, Const(n.lit(2)))))
  {
  }

  /** Logarithmic power rule, with no special case for a constant exponent:
      d(u^v) = (u^v) * ((dv * ln(u)) + ((v * du) / u)). */
  lemma PowerRule<T>(u: Expr<T>, v: Expr<T>, du: Expr<T>, dv: Expr<T>, x: string, n: Numeric<T>)
    requires Derive(u, x, n) == Ok(du) && Derive(v, x, n) == Ok(dv)
    ensures Derive(Bin("^", u, v), x, n)
         == Ok(Bin("*", Bin("^", u, v), Bin("+", Bin("*", dv, Un("ln", u)), Bin("/", Bin("*", v, du), u))))
  {
  }

  /** Chain rule for sin: d(sin(c)) = cos(c) * dc. */
  lemma SinRule<T>(c: Expr<T>, dc: Expr<T>, x: string, n: Numeric<T>)
    requires Derive(c, x, n) == Ok(dc)
    ensures Derive(Un("sin", c), x, n) == Ok(Bin("*", Un("cos", c), dc))
  {
  }

  /** Chain rule for cos: d(cos(c)) = (-1 * sin(c)) * dc. */
  lemma CosRule<T>(c: Expr<T>, dc: Expr<T>, x: string, n: Numeric<T>)
    requires Derive(c, x, n) == Ok(dc)
    ensures Derive(Un("cos", c), x, n) == Ok(Bin("*", Bin("*", Const(n.lit(-1)), Un("sin", c)), dc))
  {
  }

  /** Chain rule for ln: d(ln(c)) = dc / c. */
  lemma LnRule<T>(c: Expr<T>, dc: Expr<T>, x: string, n: Numeric<T>)
    requires Derive(c, x, n) == Ok(dc)
    ensures Derive(Un("ln", c), x, n) == Ok(Bin("/", dc, c))
  {
  }

  /** Chain rule for exp: d(exp(c)) = exp(c) * dc. */
  lemma ExpRule<T>(c: Expr<T>, dc: Expr<T>, x: string, n: Numeric<T>)
    requires Derive(c, x, n) == Ok(dc)
    ensures Derive(Un("exp", c), x, n) == Ok(Bin("*", Un("exp", c), dc))
  {
  }

  // ---------------------------------------------------------------------
  // Failure and the shape of the result, for every tree.

  /** Differentiation fails exactly when some tag of the tree lies outside
      its closed set; leaves never fail, and every rule looks at all of its
      children. */
  lemma {:induction false} DeriveFailsIff<T>(e: Expr<T>, x: string, n: Numeric<T>)
    ensures Derive(e, x, n).Err? <==> !WellTagged(e)
  {
    match e
    case Const(_) =>
    case Var(_) =>
    case Bin(op, u, v) =>
      DeriveFailsIff(u, x, n);
      DeriveFailsIff(v, x, n);
    case Un(op, c) =>
      DeriveFailsIff(c, x, n);
  }

  /** A failure names a tag that occurs in the tree and is unsupported: an
      operator tag for a binary node, a function tag for a unary node. */
  lemma {:induction false} DeriveErrorNamesTag<T>(e: Expr<T>, x: string, n: Numeric<T>)
    requires Derive(e, x, n).Err?
    ensures match Derive(e, x, n).error
            case NoDerivativeForOperator(op) => HasBinTag(e, op) && op !in BinaryOps
            case NoDerivativeForFunction(op) => HasUnTag(e, op) && op !in UnaryFns
            case _ => false
  {
    match e
    case Const(_) =>
    case Var(_) =>
    case Bin(op, u, v) =>
      if op in BinaryOps {
        if Derive(u, x, n).Err? {
          DeriveErrorNamesTag(u, x, n);
        } else {
          DeriveErrorNamesTag(v, x, n);
        }
      }
    case Un(op, c) =>
      if op in UnaryFns {
        DeriveErrorNamesTag(c, x, n);
      }
  }

  /** A derivative uses only supported tags, so it never fails to evaluate
      on account of an unknown operator or function. */
  lemma {:induction false} DerivativeWellTagged<T>(e: Expr<T>, x: string, n: Numeric<T>)
    requires Derive(e, x, n).Ok?
    ensures WellTagged(Derive(e, x, n).value)
  {
    DeriveFailsIff(e, x, n);
    match e
    case Const(_) =>
    case Var(_) =>
    case Bin(op, u, v) =>
      DerivativeWellTagged(u, x, n);
      DerivativeWellTagged(v, x, n);
      var du, dv := Derive(u, x, n).value, Derive(v, x, n).value;
      if op == "/" {
        QuotientRule(u, v, du, dv, x, n);
        assert WellTagged(u) && WellTagged(v);
        assert WellTagged(Bin("*", du, v)) && WellTagged(Bin("*", u, dv));
        assert WellTagged(Bin("-", Bin("*", du, v), Bin("*", u, dv)));
        assert WellTagged(Bin("^", v, Const(n.lit(2))));
      } else if op == "^" {
        PowerRule(u, v, du, dv, x, n);
        assert WellTagged(Bin("*", dv, Un("ln", u)));
        assert WellTagged(Bin("/", Bin("*", v, du), u));
      }
    case Un(op, c) =>
      DerivativeWellTagged(c, x, n);
  }

  /** A derivative mentions only variables of the original tree. */
  lemma {:induction false} DerivativeVars<T>(e: Expr<T>, x: string, n: Numeric<T>)
    requires Derive(e, x, n).Ok?
    ensures Vars(Derive(e, x, n).value) <= Vars(e)
  {
    match e
    case Const(_) =>
    case Var(_) =>
    case Bin(op, u, v) =>
      DerivativeVars(u, x, n);
      DerivativeVars(v, x, n);
      var du, dv := Derive(u, x, n).value, Derive(v, x, n).value;
      if op == "/" {
        QuotientRule(u, v, du, dv, x, n);
        assert Vars(Bin("-", Bin("*", du, v), Bin("*", u, dv))) <= Vars(e);
        assert Vars(Bin("^", v, Const(n.lit(2)))) <= Vars(e);
      } else if op == "^" {
        PowerRule(u, v, du, dv, x, n);
        assert Vars(Bin("*", dv, Un("ln", u))) <= Vars(e);
        assert Vars(Bin("/", Bin("*", v, du), u)) <= Vars(e);
      }
    case Un(op, c) =>
      DerivativeVars(c, x, n);
      var dc := Derive(c, x, n).value;
      if op == "cos" {
        CosRule(c, dc, x, n);
        assert Vars(Bin("*", Const(n.lit(-1)), Un("sin", c))) == Vars(c);
      }
  }
}
