/** Evaluation of a tree under variable bindings, over an abstract numeric
    type whose operations are parameters. */
module Evaluation {
  import opened Tree
  import Differentiation
  import Substitution

  /** The value of `e` when each variable takes its value from `vars`. A
      binary node evaluates its left operand, then its right one, and only
      then looks at its tag; a unary node evaluates its child first. The
      first error met is the result; a result means every variable of the
      tree was bound. */
  function Eval<T>(e: Expr<T>, vars: map<string, T>, n: Numeric<T>): (res: Result<T>)
    ensures e.Const? ==> res == Ok(e.value)
    ensures res.Ok? ==> Vars(e) <= vars.Keys
  {
    match e
    case Const(v) => Ok(v)
    case Var(name) =>
      if name in vars then Ok(vars[name]) else Err(UnboundVariable(name))
    case Bin(op, l, r) =>
      var lv :- Eval(l, vars, n);
      var rv :- Eval(r, vars, n);
      if op == "+" then Ok(n.add(lv, rv))
      else if op == "-" then Ok(n.sub(lv, rv))
      else if op == "*" then Ok(n.mul(lv, rv))
      else if op == "/" then Ok(n.div(lv, rv))
      else if op == "^" then Ok(n.pow(lv, rv))
      else Err(UnknownOperator(op))
    case Un(op, c) =>
      var cv :- Eval(c, vars, n);
      if op == "sin" then Ok(n.sin(cv))
      else if op == "cos" then Ok(n.cos(cv))
      else if op == "ln" then Ok(n.log(cv))
      else if op == "exp" then Ok(n.exp(cv))
      else Err(UnknownFunction(op))
  }

  /** Evaluation fails exactly when a variable is unbound or a tag lies
      outside its closed set. */
  lemma {:induction false} EvalFailsIff<T>(e: Expr<T>, vars: map<string, T>, n: Numeric<T>)
    ensures Eval(e, vars, n).Err? <==> !(Vars(e) <= vars.Keys && WellTagged(e))
  {
    match e
    case Const(_) =>
    case Var(_) =>
    case Bin(_, l, r) =>
      EvalFailsIff(l, vars, n);
      EvalFailsIff(r, vars, n);
    case Un(_, c) =>
      EvalFailsIff(c, vars, n);
  }

  /** A failure names what caused it: a variable of the tree that has no
      binding, or an unsupported tag that occurs in the tree. */
  lemma {:induction false} EvalErrorNamesCause<T>(e: Expr<T>, vars: map<string, T>, n: Numeric<T>)
    requires Eval(e, vars, n).Err?
    ensures match Eval(e, vars, n).error
            case UnboundVariable(name) => name in Vars(e) && name !in vars
            case UnknownOperator(op) => HasBinTag(e, op) && op !in BinaryOps
            case UnknownFunction(op) => HasUnTag(e, op) && op !in UnaryFns
            case _ => false
  {
    match e
    case Const(_) =>
    case Var(_) =>
    case Bin(op, l, r) =>
      if Eval(l, vars, n).Err? {
        EvalErrorNamesCause(l, vars, n);
      } else if Eval(r, vars, n).Err? {
        EvalErrorNamesCause(r, vars, n);
      }
    case Un(op, c) =>
      if Eval(c, vars, n).Err? {
        EvalErrorNamesCause(c, vars, n);
      }
  }

  /** Where a tree evaluates, it can be differentiated by any variable and
      its derivative evaluates too. */
  lemma DerivativeEvaluable<T>(e: Expr<T>, x: string, vars: map<string, T>, n: Numeric<T>)
    requires Eval(e, vars, n).Ok?
    ensures Differentiation.Derive(e, x, n).Ok?
    ensures Eval(Differentiation.Derive(e, x, n).value, vars, n).Ok?
  {
    EvalFailsIff(e, vars, n);
    Differentiation.DeriveFailsIff(e, x, n);
    var d := Differentiation.Derive(e, x, n).value;
    Differentiation.DerivativeWellTagged(e, x, n);
    Differentiation.DerivativeVars(e, x, n);
    EvalFailsIff(d, vars, n);
  }

  /** Substitution is evaluation with the variable bound to the
      replacement's value. */
  lemma {:induction false} SubstEval<T>(e: Expr<T>, x: string, r: Expr<T>, vars: map<string, T>, n: Numeric<T>)
    requires Eval(r, vars, n).Ok?
    ensures Eval(Substitution.Subst(e, x, r), vars, n) == Eval(e, vars[x := Eval(r, vars, n).value], n)
  {
    match e
    case Const(_) =>
    case Var(_) =>
    case Bin(_, a, b) =>
      SubstEval(a, x, r, vars, n);
      SubstEval(b, x, r, vars, n);
    case Un(_, c) =>
      SubstEval(c, x, r, vars, n);
  }

  /** The derivative of a sum or difference evaluates to the sum or
      difference of the operands' derivatives. */
  lemma Linearity<T>(op: string, a: Expr<T>, b: Expr<T>, x: string, vars: map<string, T>, n: Numeric<T>)
    requires op == "+" || op == "-"
    requires Eval(Bin(op, a, b), vars, n).Ok?
    ensures Differentiation.Derive(a, x, n).Ok? && Differentiation.Derive(b, x, n).Ok?
    ensures var da, db := Differentiation.Derive(a, x, n).value, Differentiation.Derive(b, x, n).value;
            Eval(Differentiation.Derive(Bin(op, a, b), x, n).value, vars, n).Ok?
            && Eval(da, vars, n).Ok? && Eval(db, vars, n).Ok?
            && Eval(Differentiation.Derive(Bin(op, a, b), x, n).value, vars, n).value
               == if op == "+" then n.add(Eval(da, vars, n).value, Eval(db, vars, n).value)
                  else n.sub(Eval(da, vars, n).value, Eval(db, vars, n).value)
  {
    DerivativeEvaluable(a, x, vars, n);
    DerivativeEvaluable(b, x, vars, n);
    var da, db := Differentiation.Derive(a, x, n).value, Differentiation.Derive(b, x, n).value;
    Differentiation.SumRule(op, a, b, da, db, x, n);
    assert Differentiation.Derive(Bin(op, a, b), x, n).value == Bin(op, da, db);
  }
}
