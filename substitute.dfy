/** Substitution of a subtree for every occurrence of a variable. */
module Substitution {
  import opened Tree

  /** `e` with every `Var(x)` replaced by a copy of `r`; every other leaf is
      copied, and operator nodes are rebuilt with the same tag. Substitution
      cannot fail. When the replacement does not mention `x`, no `x` is
      left. */
  function Subst<T>(e: Expr<T>, x: string, r: Expr<T>): (s: Expr<T>)
    ensures x !in Vars(r) ==> x !in Vars(s)
  {
    match e
    case Const(_) => Clone(e)
    case Var(name) => if name == x then Clone(r) else Clone(e)
    case Bin(op, a, b) => Bin(op, Subst(a, x, r), Subst(b, x, r))
    case Un(op, c) => Un(op, Subst(c, x, r))
  }

  /** Substituting for a variable that does not occur changes nothing. */
  lemma {:induction false} SubstAbsent<T>(e: Expr<T>, x: string, r: Expr<T>)
    requires x !in Vars(e)
    ensures Subst(e, x, r) == e
  {
    match e
    case Const(_) =>
    case Var(_) =>
    case Bin(_, a, b) =>
      SubstAbsent(a, x, r);
      SubstAbsent(b, x, r);
    case Un(_, c) =>
      SubstAbsent(c, x, r);
  }

  /** Replacing a variable by itself changes nothing. */
  lemma {:induction false} SubstSelf<T>(e: Expr<T>, x: string)
    ensures Subst(e, x, Var(x)) == e
  {
    match e
    case Const(_) =>
    case Var(_) =>
    case Bin(_, a, b) =>
      SubstSelf(a, x);
      SubstSelf(b, x);
    case Un(_, c) =>
      SubstSelf(c, x);
  }

  /** After substitution `x` is gone, unless the replacement brings it back,
      and the replacement's variables appear exactly when `x` occurred. */
  lemma {:induction false} SubstVars<T>(e: Expr<T>, x: string, r: Expr<T>)
    ensures Vars(Subst(e, x, r)) == if x in Vars(e) then (Vars(e) - {x}) + Vars(r) else Vars(e)
  {
    match e
    case Const(_) =>
    case Var(_) =>
    case Bin(_, a, b) =>
      SubstVars(a, x, r);
      SubstVars(b, x, r);
    case Un(_, c) =>
      SubstVars(c, x, r);
  }

  /** Substitution keeps every tag, so a well-tagged tree stays well tagged
      when the replacement is. */
  lemma {:induction false} SubstWellTagged<T>(e: Expr<T>, x: string, r: Expr<T>)
    ensures WellTagged(Subst(e, x, r)) <==> WellTagged(e) && (x in Vars(e) ==> WellTagged(r))
  {
    match e
    case Const(_) =>
    case Var(_) =>
    case Bin(_, a, b) =>
      SubstWellTagged(a, x, r);
      SubstWellTagged(b, x, r);
    case Un(_, c) =>
      SubstWellTagged(c, x, r);
  }

  /** Substituting twice for the same variable is one substitution of the
      substituted replacement. */
  lemma {:induction false} SubstCompose<T>(e: Expr<T>, x: string, r: Expr<T>, s: Expr<T>)
    ensures Subst(Subst(e, x, r), x, s) == Subst(e, x, Subst(r, x, s))
  {
    match e
    case Const(_) =>
    case Var(_) =>
    case Bin(_, a, b) =>
      SubstCompose(a, x, r, s);
      SubstCompose(b, x, r, s);
    case Un(_, c) =>
      SubstCompose(c, x, r, s);
  }
}
