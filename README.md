# Symbolic expression trees and their derivatives

A Dafny model of the core of a small symbolic differentiator written in C++.
An expression is a tree of four node kinds:

- constants;
- variables;
- binary operators tagged `+ - * / ^`;
- unary functions tagged `sin cos ln exp`.

Each node supports five operations: differentiation by a named variable,
substitution of a subtree for a variable, deep copy, rendering to text, and
evaluation under variable bindings. An `expression<T>` handle owns exactly one
root node. It offers builders for the five operators and the four functions,
and value-semantic copying.

Files and modules:

- `tree.dfy` (`Tree`): the `Expr<T>` datatype and the closed tag sets
  `BinaryOps` and `UnaryFns`. It also holds the error kinds, a `Result` type,
  the `Numeric<T>` record of uninterpreted numeric operations, the structural
  queries (`Vars`, `HasBinTag`, `HasUnTag`, `WellTagged`) and `Clone`.
- `differentiate.dfy` (`Differentiation`): `Derive`, one lemma per rule, and
  the lemmas saying when differentiation fails and what a derivative contains.
- `substitute.dfy` (`Substitution`): `Subst` and its structural laws.
- `evaluate.dfy` (`Evaluation`): `Eval` over the abstract numeric type, its
  failure conditions, and what evaluation says about substitution and
  derivatives.
- `render.dfy` (`Rendering`): `Render` and the proof that its output is fully
  parenthesised.
- `handle.dfy` (`Handle`): the `Expression<T>` class with its one `root`
  field, the operator builders, `MakeUnary`, and the free `Sin`/`Cos`/`Ln`/`Exp`
  builders.

Tags stay strings, so a tag outside the closed sets can be represented, as
in the source. Such a tag makes differentiation and evaluation fail.
Differentiation introduces only the literals 0, 1, -1 and 2. It gets them
from `Numeric.lit`, which stands for the source's `T(0)`, `T(1)`, `T(-1)` and
`T(2)`.

What the code does that a reader might not expect:

- It divides without checking the divisor (`Diff/realis.cpp:67`), so the
  model has no division-by-zero error.
- It throws two different differentiation errors, one naming an operator
  (`Diff/realis.cpp:105`) and one naming a function (`Diff/realis.cpp:154`).
  The model's errors are `NoDerivativeForOperator` and
  `NoDerivativeForFunction`.
- It does not require a variable name to be non-empty
  (`Diff/realis.cpp:35`), and neither does the model.

## Model

| member | source | states |
|---|---|---|
| `Tree.Clone` | Diff/realis.cpp:112-114 | a deep copy (binary here; constant, variable and unary copies at 26-28, 49-51, 160-162) is structurally identical to the original |
| `Differentiation.Derive` | Diff/realis.cpp:74-155 | the derivative (constant and variable rules at 20-22 and 42-44); leaves never fail and every operator or function rule builds a binary node; its contract is carried by the rule lemmas below and by `DeriveFailsIff`, `DeriveErrorNamesTag`, `DerivativeWellTagged` and `DerivativeVars` |
| `Substitution.Subst` | Diff/realis.cpp:107-111 | substitution (leaves at 23-25 and 45-48, unary nodes at 156-159) never fails, and a replacement without `x` leaves no `x`; its contract is carried by `SubstAbsent`, `SubstSelf`, `SubstVars`, `SubstWellTagged`, `SubstCompose` and `Evaluation.SubstEval` |
| `Evaluation.Eval` | Diff/realis.cpp:62-70 | evaluation (constants at 14, variables at 36-40, unary nodes at 124-131): a constant yields its value and a result means every variable was bound; its contract is carried by `EvalFailsIff` and `EvalErrorNamesCause` |
| `Rendering.Render` | Diff/realis.cpp:71-73 | the text (constants at 15-19, variables at 41, unary nodes at 132-134): a binary node is wrapped in parentheses and a unary node starts with its tag and ends with `)`; its contract is carried by `RenderBracketed` |
| `Differentiation.ConstantRule` | Diff/realis.cpp:20-22 | a constant differentiates to `Const(0)`, whatever the variable |
| `Differentiation.VariableRule` | Diff/realis.cpp:42-44 | `Var(n)` differentiates by `v` to `Const(1)` when `n == v` and to `Const(0)` otherwise |
| `Differentiation.SumRule` | Diff/realis.cpp:75-80 | `+` and `-` give the same operator over the operands' derivatives |
| `Differentiation.ProductRule` | Diff/realis.cpp:81-85 | `u*v` gives `(du*v) + (u*dv)` |
| `Differentiation.QuotientRule` | Diff/realis.cpp:86-92 | `u/v` gives `((du*v) - (u*dv)) / (v^2)` |
| `Differentiation.PowerRule` | Diff/realis.cpp:93-104 | `u^v` gives `(u^v) * ((dv*ln(u)) + ((v*du)/u))`, with no constant-exponent special case |
| `Differentiation.SinRule` | Diff/realis.cpp:136-139 | `sin(c)` gives `cos(c) * dc` |
| `Differentiation.CosRule` | Diff/realis.cpp:140-145 | `cos(c)` gives `(-1 * sin(c)) * dc` |
| `Differentiation.LnRule` | Diff/realis.cpp:146-149 | `ln(c)` gives `dc / c` |
| `Differentiation.ExpRule` | Diff/realis.cpp:150-153 | `exp(c)` gives `exp(c) * dc` |
| `Differentiation.DeriveFailsIff` | Diff/realis.cpp:74-155 | differentiation fails if and only if some tag of the tree is outside its closed set; leaves never fail and every rule differentiates all children |
| `Differentiation.DeriveErrorNamesTag` | Diff/realis.cpp:105-154 | a failure is an operator error naming an unsupported binary tag of the tree, or a function error naming an unsupported unary tag of the tree |
| `Differentiation.DerivativeWellTagged` | Diff/realis.cpp:74-155 | every tag of a derivative is in its closed set |
| `Differentiation.DerivativeVars` | Diff/realis.cpp:74-155 | a derivative mentions only variables of the original tree |
| `Substitution.SubstAbsent` | Diff/realis.cpp:107-111 | substituting for a variable that does not occur returns the input unchanged |
| `Substitution.SubstSelf` | Diff/realis.cpp:45-48 | replacing `Var(x)` by `Var(x)` returns the input unchanged |
| `Substitution.SubstVars` | Diff/realis.cpp:45-48 | afterwards the variables are the old ones without `x`, plus the replacement's exactly when `x` occurred |
| `Substitution.SubstWellTagged` | Diff/realis.cpp:156-159 | operator nodes keep their tags: the result is well tagged if and only if the input is, and the replacement is too wherever `x` occurs |
| `Substitution.SubstCompose` | Diff/realis.cpp:107-111 | substituting `r` and then `s` for `x` equals substituting `r`-with-`s`-for-`x` once |
| `Evaluation.EvalFailsIff` | Diff/realis.cpp:62-70 | evaluation fails if and only if some variable is unbound (36-40) or some tag is outside its closed set (69, 130) |
| `Evaluation.EvalErrorNamesCause` | Diff/realis.cpp:124-131 | a failure names an unbound variable of the tree, an unknown binary tag of the tree, or an unknown unary tag of the tree |
| `Evaluation.DerivativeEvaluable` | Diff/realis.cpp:74-106 | where a tree evaluates, its derivative by any variable exists and evaluates too |
| `Evaluation.SubstEval` | Diff/test.cpp:116-123 | evaluating a substituted tree equals evaluating the original with `x` bound to the replacement's value |
| `Evaluation.Linearity` | Diff/realis.cpp:75-80 | the derivative of a sum or difference evaluates to the sum or difference of the operands' derivatives |
| `Rendering.RenderBracketed` | Diff/realis.cpp:71-73 | given balanced leaf texts and tags, the text is balanced; a binary node renders as one parenthesised group; a unary node renders as its tag followed by one group (132-134) |
| `Handle.Expression.FromValue` | Diff/realis.cpp:167-169 | a handle built from a value holds `Const(value)` |
| `Handle.Expression.FromName` | Diff/realis.cpp:171-173 | a handle built from a name holds `Var(name)` |
| `Handle.Expression.Copy` | Diff/realis.cpp:175-177 | copy construction gives a tree structurally equal to the other handle's |
| `Handle.Expression.FromNode` | Diff/realis.cpp:247-249 | the private constructor wraps the given root |
| `Handle.Expression.Assign` | Diff/realis.cpp:183-189 | copy assignment installs the other handle's tree; self-assignment leaves the value unchanged |
| `Handle.Expression.ToString` | Diff/realis.cpp:202-205 | the text is the root's rendering, balanced when its leaves are |
| `Handle.Expression.Evaluate` | Diff/realis.cpp:207-210 | the root's value, failing if and only if a variable is unbound or a tag unknown |
| `Handle.Expression.Differentiate` | Diff/realis.cpp:212-215 | a fresh handle over the root's derivative, failing if and only if a tag is unsupported; the receiver is unchanged |
| `Handle.Expression.Substitute` | Diff/realis.cpp:217-220 | a fresh handle over the substituted tree; the receiver is unchanged |
| `Handle.Expression.Plus` | Diff/realis.cpp:222-225 | a fresh handle over `Bin("+", this, other)` |
| `Handle.Expression.Minus` | Diff/realis.cpp:227-230 | a fresh handle over `Bin("-", this, other)` |
| `Handle.Expression.Times` | Diff/realis.cpp:232-235 | a fresh handle over `Bin("*", this, other)` |
| `Handle.Expression.Over` | Diff/realis.cpp:237-240 | a fresh handle over `Bin("/", this, other)` |
| `Handle.Expression.Power` | Diff/realis.cpp:242-245 | a fresh handle over `Bin("^", this, other)` |
| `Handle.Expression.MakeUnary` | Diff/realis.cpp:251-254 | a fresh handle over `Un(op, operand)`, with the tag not checked |
| `Handle.Sin` | Diff/head.hpp:41-43 | a fresh handle over `Un("sin", e)` |
| `Handle.Cos` | Diff/head.hpp:44-46 | a fresh handle over `Un("cos", e)` |
| `Handle.Ln` | Diff/head.hpp:47-49 | a fresh handle over `Un("ln", e)` |
| `Handle.Exp` | Diff/head.hpp:50-52 | a fresh handle over `Un("exp", e)` |
| `Handle.ProductClient` | Diff/test.cpp:72-79 | differentiating `x * x` built through the handle succeeds and has the product-rule shape |

## Left out

- Numeric results of evaluation: the source computes with `double` or
  `std::complex<double>` and calls `std::pow`, `sin`, `cos`, `log` and `exp`.
  The model takes these as uninterpreted functions in `Numeric<T>`, so it
  states which evaluations fail and how results are combined, but no numeric
  values.
- Rendering of constants: the source uses stream formatting. The model takes a
  rendering function `show` as a parameter.
- The node interface with virtual dispatch is replaced by one datatype and
  pattern matching. Each of the five operations is one function over all four
  node kinds.
- Move construction and move assignment are left out. They transfer a
  `shared_ptr` and leave the source handle empty. Dafny values cannot alias,
  so this ownership detail has nothing to model. The destructor is left out
  for the same reason.
- Order of errors: for `+` and `-`, the source differentiates both operands
  as arguments of one call, and C++ leaves their order unspecified. When both
  operands fail, the model reports the left operand's error first.
- The expression parser is left out. It is only declared in the header, and
  its implementation is not part of this model.
- The command-line front end, the demo program and the test harness are left
  out. They are console I/O and floating-point comparisons.
