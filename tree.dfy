/** The expression tree of the symbolic differentiator: the four node kinds,
    the closed sets of operator and function tags, the error kinds, and the
    structural queries (variables, tags, deep copy) the algorithms share. */
module Tree {

  /** One node of an expression tree. Tags are kept as strings so that a tag
      outside the closed sets stays representable, as in the source. */
  datatype Expr<T> =
    | Const(value: T)
    | Var(name: string)
    | Bin(op: string, left: Expr<T>, right: Expr<T>)
    | Un(op: string, child: Expr<T>)

  /** The binary operators that evaluation and differentiation understand. */
  const BinaryOps: set<string> := {"+", "-", "*", "/", "^"}

  /** The unary functions that evaluation and differentiation understand. */
  const UnaryFns: set<string> := {"sin", "cos", "ln", "exp"}

  /** The run-time errors the node operations throw, each carrying the name
      or tag its message mentions. */
  datatype Error =
    | UnboundVariable(name: string)
    | UnknownOperator(op: string)
    | UnknownFunction(op: string)
    | NoDerivativeForOperator(op: string)
    | NoDerivativeForFunction(op: string)

  /** A value, or the error that was thrown instead. */
  datatype Result<R> = Ok(value: R) | Err(error: Error) {
    predicate IsFailure() {
      Err?
    }

    function PropagateFailure<U>(): Result<U>
      requires Err?
    {
      Err(error)
    }

    function Extract(): R
      requires Ok?
    {
      value
    }
  }

  /** What the numeric type T provides: construction from an integer literal,
      the five arithmetic operations and the four transcendental functions.
      They stay uninterpreted: the tree algorithms never look inside them. */
  datatype Numeric<!T> = Numeric(
    lit: int -> T,
    add: (T, T) -> T,
    sub: (T, T) -> T,
    mul: (T, T) -> T,
    div: (T, T) -> T,
    pow: (T, T) -> T,
    sin: T -> T,
    cos: T -> T,
    log: T -> T,
    exp: T -> T)

  /** The names of the variables occurring in a tree. */
  function Vars<T>(e: Expr<T>): (vs: set<string>) {
    match e
    case Const(_) => {}
    case Var(name) => {name}
    case Bin(_, l, r) => Vars(l) + Vars(r)
    case Un(_, c) => Vars(c)
  }

  /** Some binary node of the tree carries the tag `op`. */
  predicate HasBinTag<T>(e: Expr<T>, op: string) {
    match e
    case Const(_) => false
    case Var(_) => false
    case Bin(o, l, r) => o == op || HasBinTag(l, op) || HasBinTag(r, op)
    case Un(_, c) => HasBinTag(c, op)
  }

  /** Some unary node of the tree carries the tag `op`. */
  predicate HasUnTag<T>(e: Expr<T>, op: string) {
    match e
    case Const(_) => false
    case Var(_) => false
    case Bin(_, l, r) => HasUnTag(l, op) || HasUnTag(r, op)
    case Un(o, c) => o == op || HasUnTag(c, op)
  }

  /** Every tag of the tree lies in its closed set. */
  predicate WellTagged<T>(e: Expr<T>) {
    match e
    case Const(_) => true
    case Var(_) => true
    case Bin(op, l, r) => op in BinaryOps && WellTagged(l) && WellTagged(r)
    case Un(op, c) => op in UnaryFns && WellTagged(c)
  }

  /** Deep copy of a subtree: every node is rebuilt, and the copy is
      structurally identical to the original. */
  function Clone<T>(e: Expr<T>): (r: Expr<T>)
    ensures r == e
  {
    match e
    case Const(v) => Const(v)
    case Var(name) => Var(name)
    case Bin(op, l, r) => Bin(op, Clone(l), Clone(r))
    case Un(op, c) => Un(op, Clone(c))
  }
}
