/** The expression tree that replaces System.Linq.Expressions: a constant, an
    element of the positional argument array, or a binary arithmetic node, and
    the recursive evaluation that replaces compiling the tree. */
module Tree {
  import opened Errors

  /** The four node kinds the evaluator builds (Expression.Add, .Subtract, .Multiply, .Divide). */
  datatype Kind = Add | Subtract | Multiply | Divide

  datatype Expr =
    | Lit(value: real)                          // Expression.Constant
    | Var(index: nat)                           // Expression.ArrayIndex(args, index)
    | Bin(kind: Kind, left: Expr, right: Expr)  // Expression.MakeBinary

  /** Every array index in `e` is below `n`. */
  predicate VarsBelow(e: Expr, n: nat) {
    match e
    case Lit(_) => true
    case Var(i) => i < n
    case Bin(_, l, r) => VarsBelow(l, n) && VarsBelow(r, n)
  }

  predicate HasDivision(e: Expr) {
    match e
    case Lit(_) => false
    case Var(_) => false
    case Bin(k, l, r) => k == Divide || HasDivision(l) || HasDivision(r)
  }

  /** Exact decimal arithmetic; division by zero fails instead of giving infinity. */
  function Combine(kind: Kind, x: real, y: real): (r: Result<real>)
    ensures r.Err? <==> kind == Divide && y == 0.0
    ensures r.Err? ==> r.error == DivideByZero
    ensures r.Ok? && kind == Subtract ==> r.value + y == x
    ensures r.Ok? && kind == Divide ==> r.value * y == x
  {
    match kind
    case Add => Ok(x + y)
    case Subtract => Ok(x - y)
    case Multiply => Ok(x * y)
    case Divide => if y == 0.0 then Err(DivideByZero) else Ok(x / y)
  }

  /** Evaluation of the compiled tree over the positional argument array: left
      operand first, then right, then the operator, so the first failure wins. */
  function Eval(e: Expr, args: seq<real>): (r: Result<real>)
    ensures r.Err? ==> r.error == DivideByZero || (r.error.IndexOutOfRange? && r.error.index >= |args|)
    ensures r.Err? && r.error.IndexOutOfRange? ==> !VarsBelow(e, |args|)
    ensures r.Err? && r.error == DivideByZero ==> HasDivision(e)
  {
    match e
    case Lit(v) => Ok(v)
    case Var(i) => if i < |args| then Ok(args[i]) else Err(IndexOutOfRange(i))
    case Bin(k, l, r) =>
      match Eval(l, args)
      case Err(err) => Err(err)
      case Ok(x) =>
        match Eval(r, args)
        case Err(err) => Err(err)
        case Ok(y) => Combine(k, x, y)
  }

  /** A tree whose indices are all in range and that divides nowhere always evaluates. */
  lemma {:induction false} EvalTotal(e: Expr, args: seq<real>)
    requires VarsBelow(e, |args|) && !HasDivision(e)
    ensures Eval(e, args).Ok?
  {
    match e
    case Lit(_) =>
    case Var(_) =>
    case Bin(_, l, r) => EvalTotal(l, args); EvalTotal(r, args);
  }

  /** Evaluation reads only the array elements the tree indexes. */
  lemma {:induction false} EvalReadsOnlyIndexed(e: Expr, a: seq<real>, b: seq<real>, n: nat)
    requires VarsBelow(e, n) && n <= |a| && n <= |b| && a[..n] == b[..n]
    ensures Eval(e, a) == Eval(e, b)
  {
    match e
    case Lit(_) =>
    case Var(i) => assert a[i] == a[..n][i] == b[..n][i] == b[i];
    case Bin(_, l, r) => EvalReadsOnlyIndexed(l, a, b, n); EvalReadsOnlyIndexed(r, a, b, n);
  }
}
