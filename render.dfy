/** Text rendering of a tree: binary nodes fully parenthesised, unary nodes
    as a call, variables by name, constants through a rendering function of
    the numeric type. */
module Rendering {
  import opened Tree

  /** The text of `e`. `show` renders one constant value. A binary node's
      text is wrapped in parentheses; a unary node's starts with its tag. */
  function Render<T>(e: Expr<T>, show: T -> string): (s: string)
    ensures e.Bin? ==> |s| >= 2 && s[0] == '(' && s[|s| - 1] == ')'
    ensures e.Un? ==> |s| > |e.op| && s[..|e.op|] == e.op && s[|s| - 1] == ')'
  {
    match e
    case Const(v) => show(v)
    case Var(name) => name
    case Bin(op, l, r) => "(" + Render(l, show) + " " + op + " " + Render(r, show) + ")"
    case Un(op, c) => op + "(" + Render(c, show) + ")"
  }

  // ---------------------------------------------------------------------
  // Bracket structure of a text.

  /** +1 for an opening parenthesis, -1 for a closing one, 0 otherwise. */
  function Step(ch: char): (d: int) {
    if ch == '(' then 1 else if ch == ')' then -1 else 0
  }

  /** Opening minus closing parentheses of `s`. */
  function Depth(s: string): (d: int) {
    if s == [] then 0 else Step(s[0]) + Depth(s[1..])
  }

  /** Every parenthesis of `s` is matched within `s`. */
  predicate Balanced(s: string) {
    Depth(s) == 0 && forall k :: 0 <= k <= |s| ==> Depth(s[..k]) >= 0
  }

  /** `s` is one parenthesised group: its first and last characters are a
      matching pair. */
  predicate Enclosed(s: string) {
    |s| >= 2 && s[0] == '(' && s[|s| - 1] == ')' && Depth(s) == 0
    && forall k :: 1 <= k < |s| ==> Depth(s[..k]) >= 1
  }

  /** The texts of every constant, variable and tag of the tree are
      balanced. */
  predicate LeavesBalanced<T>(e: Expr<T>, show: T -> string) {
    match e
    case Const(v) => Balanced(show(v))
    case Var(name) => Balanced(name)
    case Bin(op, l, r) => Balanced(op) && LeavesBalanced(l, show) && LeavesBalanced(r, show)
    case Un(op, c) => Balanced(op) && LeavesBalanced(c, show)
  }

  lemma {:induction false} DepthConcat(a: string, b: string)
    ensures Depth(a + b) == Depth(a) + Depth(b)
  {
    if a == [] {
      assert a + b == b;
    } else {
      assert (a + b)[0] == a[0] && (a + b)[1..] == a[1..] + b;
      DepthConcat(a[1..], b);
    }
  }

  lemma BalancedConcat(a: string, b: string)
    requires Balanced(a) && Balanced(b)
    ensures Balanced(a + b)
  {
    DepthConcat(a, b);
    forall k | 0 <= k <= |a + b|
      ensures Depth((a + b)[..k]) >= 0
    {
      if k <= |a| {
        assert (a + b)[..k] == a[..k];
      } else {
        assert (a + b)[..k] == a + b[..k - |a|];
        DepthConcat(a, b[..k - |a|]);
      }
    }
  }

  lemma Enclose(m: string)
    requires Balanced(m)
    ensures Enclosed("(" + m + ")")
  {
    var s := "(" + m + ")";
    DepthConcat("(", m);
    DepthConcat("(" + m, ")");
    forall k | 1 <= k < |s|
      ensures Depth(s[..k]) >= 1
    {
      assert s[..k] == "(" + m[..k - 1];
      DepthConcat("(", m[..k - 1]);
    }
  }

  lemma EnclosedBalanced(s: string)
    requires Enclosed(s)
    ensures Balanced(s)
  {
    assert s[..|s|] == s;
  }

  /** The text of a binary node over balanced parts is one group. */
  lemma BinaryEnclosed(L: string, op: string, R: string)
    requires Balanced(L) && Balanced(op) && Balanced(R)
    ensures Enclosed("(" + L + " " + op + " " + R + ")")
  {
    var sp := " ";
    assert Balanced(sp) by {
      assert sp[..0] == [] && sp[..1] == sp;
    }
    BalancedConcat(L, sp);
    BalancedConcat(L + sp, op);
    BalancedConcat(L + sp + op, sp);
    BalancedConcat(L + sp + op + sp, R);
    Enclose(L + sp + op + sp + R);
    assert "(" + L + " " + op + " " + R + ")" == "(" + (L + sp + op + sp + R) + ")";
  }

  /** The text of a unary node over balanced parts is its tag followed by
      one group, and is balanced. */
  lemma UnaryEnclosed(op: string, C: string)
    requires Balanced(op) && Balanced(C)
    ensures Enclosed("(" + C + ")")
    ensures Balanced(op + ("(" + C + ")"))
  {
    Enclose(C);
    EnclosedBalanced("(" + C + ")");
    BalancedConcat(op, "(" + C + ")");
  }

  /** The text of a tree is balanced, and provided its leaves and tags are,
      a binary node is one parenthesised group and a unary node is its tag
      followed by one. */
  lemma {:induction false} RenderBracketed<T>(e: Expr<T>, show: T -> string)
    requires LeavesBalanced(e, show)
    ensures Balanced(Render(e, show))
    ensures e.Bin? ==> Enclosed(Render(e, show))
    ensures e.Un? ==> exists w :: Render(e, show) == e.op + w && Enclosed(w)
  {
    match e
    case Const(_) =>
    case Var(_) =>
    case Bin(op, l, r) =>
      RenderBracketed(l, show);
      RenderBracketed(r, show);
      BinaryEnclosed(Render(l, show), op, Render(r, show));
      EnclosedBalanced(Render(e, show));
    case Un(op, c) =>
      RenderBracketed(c, show);
      UnaryEnclosed(op, Render(c, show));
      var w := "(" + Render(c, show) + ")";
      assert Render(e, show) == op + w;
  }
}
