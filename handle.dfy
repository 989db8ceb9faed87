/** The `expression` handle: an object holding exactly one root node, whose
    public operations read the root and return new handles, and whose copy
    operations install a deep copy of another handle's root. */
module Handle {
  import opened Tree
  import Differentiation
  import Substitution
  import Evaluation
  import Rendering

  class Expression<T> {
    /** The root node of the tree this handle owns. */
    var root: Expr<T>

    /** A handle over a single constant. */
    constructor FromValue(value: T)
      ensures root == Const(value)
    {
      root := Const(value);
    }

    /** A handle over a single variable. */
    constructor FromName(name: string)
      ensures root == Var(name)
    {
      root := Var(name);
    }

    /** Copy construction: a deep copy of the other handle's tree. */
    constructor Copy(other: Expression<T>)
      ensures root == other.root
    {
      root := Clone(other.root);
    }

    /** A handle over an already built node (the private constructor). */
    constructor FromNode(node: Expr<T>)
      ensures root == node
    {
      root := node;
    }

    /** Copy assignment: installs a deep copy of the other handle's tree;
        assigning a handle to itself leaves it as it was. */
    method Assign(other: Expression<T>)
      modifies this
      ensures root == old(other.root)
      ensures other == this ==> root == old(root)
    {
      if this != other {
        root := Clone(other.root);
      }
    }

    /** The text of the tree, which is balanced when its leaves are. */
    method ToString(show: T -> string) returns (s: string)
      ensures s == Rendering.Render(root, show)
      ensures Rendering.LeavesBalanced(root, show) ==> Rendering.Balanced(s)
    {
      s := Rendering.Render(root, show);
      if Rendering.LeavesBalanced(root, show) {
        Rendering.RenderBracketed(root, show);
      }
    }

    /** The value of the tree under `vars`; it fails exactly when a variable
        is unbound or a tag is unknown. */
    method Evaluate(vars: map<string, T>, n: Numeric<T>) returns (r: Result<T>)
      ensures r == Evaluation.Eval(root, vars, n)
      ensures r.Err? <==> !(Vars(root) <= vars.Keys && WellTagged(root))
    {
      r := Evaluation.Eval(root, vars, n);
      Evaluation.EvalFailsIff(root, vars, n);
    }

    /** A new handle over the derivative by `x`; it fails exactly when a tag
        is outside its closed set. The receiver is left as it was. */
    method Differentiate(x: string, n: Numeric<T>) returns (r: Result<Expression<T>>)
      ensures r.Ok? <==> Differentiation.Derive(root, x, n).Ok?
      ensures r.Ok? <==> WellTagged(root)
      ensures r.Err? ==> r.error == Differentiation.Derive(root, x, n).error
      ensures r.Ok? ==> fresh(r.value) && r.value.root == Differentiation.Derive(root, x, n).value
    {
      Differentiation.DeriveFailsIff(root, x, n);
      var d := Differentiation.Derive(root, x, n);
      if d.Err? {
        r := Err(d.error);
      } else {
        var h := new Expression.FromNode(d.value);
        r := Ok(h);
      }
    }

    /** A new handle over the tree with `x` replaced by `value`'s tree. The
        receiver and `value` are left as they were. */
    method Substitute(x: string, value: Expression<T>) returns (r: Expression<T>)
      ensures fresh(r) && r.root == Substitution.Subst(root, x, value.root)
    {
      r := new Expression.FromNode(Substitution.Subst(root, x, value.root));
    }

    /** `this + other` over copies of both trees. */
    method Plus(other: Expression<T>) returns (r: Expression<T>)
      ensures fresh(r) && r.root == Bin("+", root, other.root)
    {
      r := new Expression.FromNode(Bin("+", Clone(root), Clone(other.root)));
    }

    /** `this - other` over copies of both trees. */
    method Minus(other: Expression<T>) returns (r: Expression<T>)
      ensures fresh(r) && r.root == Bin("-", root, other.root)
    {
      r := new Expression.FromNode(Bin("-", Clone(root), Clone(other.root)));
    }

    /** `this * other` over copies of both trees. */
    method Times(other: Expression<T>) returns (r: Expression<T>)
      ensures fresh(r) && r.root == Bin("*", root, other.root)
    {
      r := new Expression.FromNode(Bin("*", Clone(root), Clone(other.root)));
    }

    /** `this / other` over copies of both trees. */
    method Over(other: Expression<T>) returns (r: Expression<T>)
      ensures fresh(r) && r.root == Bin("/", root, other.root)
    {
      r := new Expression.FromNode(Bin("/", Clone(root), Clone(other.root)));
    }

    /** `this ^ other` over copies of both trees. */
    method Power(other: Expression<T>) returns (r: Expression<T>)
      ensures fresh(r) && r.root == Bin("^", root, other.root)
    {
      r := new Expression.FromNode(Bin("^", Clone(root), Clone(other.root)));
    }

    /** A unary node with tag `op` over a copy of `operand`'s tree; the tag
        is not checked here. */
    static method MakeUnary(op: string, operand: Expression<T>) returns (r: Expression<T>)
      ensures fresh(r) && r.root == Un(op, operand.root)
    {
      r := new Expression.FromNode(Un(op, Clone(operand.root)));
    }
  }

  /** `sin(e)` over a copy of `e`'s tree. */
  method Sin<T>(e: Expression<T>) returns (r: Expression<T>)
    ensures fresh(r) && r.root == Un("sin", e.root)
  {
    r := Expression.MakeUnary("sin", e);
  }

  /** `cos(e)` over a copy of `e`'s tree. */
  method Cos<T>(e: Expression<T>) returns (r: Expression<T>)
    ensures fresh(r) && r.root == Un("cos", e.root)
  {
    r := Expression.MakeUnary("cos", e);
  }

  /** `ln(e)` over a copy of `e`'s tree. */
  method Ln<T>(e: Expression<T>) returns (r: Expression<T>)
    ensures fresh(r) && r.root == Un("ln", e.root)
  {
    r := Expression.MakeUnary("ln", e);
  }

  /** `exp(e)` over a copy of `e`'s tree. */
  method Exp<T>(e: Expression<T>) returns (r: Expression<T>)
    ensures fresh(r) && r.root == Un("exp", e.root)
  {
    r := Expression.MakeUnary("exp", e);
  }

  /** What a caller can rely on: building `x * x` and differentiating it by
      `x` succeeds and gives the product-rule shape. */
  method ProductClient<T>(n: Numeric<T>) returns (d: Result<Expression<T>>)
    ensures d.Ok? && d.value.root == Bin("+", Bin("*", Const(n.lit(1)), Var("x")), Bin("*", Var("x"), Const(n.lit(1))))
  {
    var x := new Expression<T>.FromName("x");
    var sq := x.Times(x);
    assert sq.root == Bin("*", Var("x"), Var("x"));
    d := sq.Differentiate("x", n);
    assert x.root == Var("x") && sq.root == Bin("*", Var("x"), Var("x"));
    Differentiation.VariableRule("x", "x", n);
    Differentiation.ProductRule(Var("x"), Var("x"), Const(n.lit(1)), Const(n.lit(1)), "x", n);
  }
}
