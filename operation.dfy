/** The operator table of the source's `Operation` class: four operators, each
    with a symbol, a precedence and the tree node it builds. */
module Operation {
  import opened Errors
  import opened Tree

  datatype Operation = Addition | Subtraction | Multiplication | Division {

    /** Multiplicative operators bind tighter than additive ones. */
    function Precedence(): (p: nat)
      ensures 1 <= p <= 2
      ensures p == 2 <==> this == Multiplication || this == Division
    {
      match this
      case Addition => 1
      case Subtraction => 1
      case Multiplication => 2
      case Division => 2
    }

    /** The character the table keys this operation by. */
    function Symbol(): (c: char)
      ensures IsDefined(c)
    {
      match this
      case Addition => '+'
      case Subtraction => '-'
      case Multiplication => '*'
      case Division => '/'
    }

    function Kind(): Kind {
      match this
      case Addition => Add
      case Subtraction => Subtract
      case Multiplication => Multiply
      case Division => Divide
    }

    /** Builds the node `left op right`. */
    function Apply(left: Expr, right: Expr): (e: Expr)
      ensures e.Bin? && e.kind == Kind() && e.left == left && e.right == right
    {
      Bin(Kind(), left, right)
    }
  }

  /** Membership in the operator table. Every operator lies between '*' and '/'
      and is neither ',' nor '.', so it is no digit, letter, parenthesis, space
      or decimal point: Parse's tests of a character never overlap. */
  predicate IsDefined(c: char): (b: bool)
    ensures b ==> '*' <= c <= '/' && c != ',' && c != '.'
  {
    c == '+' || c == '-' || c == '*' || c == '/'
  }

  /** The table's keys are exactly the symbols of the four operations. */
  lemma {:induction false} TableSymbols(c: char)
    ensures IsDefined(c) <==> exists op: Operation :: op.Symbol() == c
  {
    if IsDefined(c) {
      var op := FromChar(c).value;
      assert op.Symbol() == c;
    }
  }

  /** The explicit char-to-Operation cast: a table lookup that fails with an
      invalid-cast error on any character outside the table. */
  function FromChar(c: char): (r: Result<Operation>)
    ensures r.Ok? <==> IsDefined(c)
    ensures r.Ok? ==> r.value.Symbol() == c
    ensures r.Err? ==> r.error == InvalidCast
  {
    if c == '+' then Ok(Addition)
    else if c == '-' then Ok(Subtraction)
    else if c == '*' then Ok(Multiplication)
    else if c == '/' then Ok(Division)
    else Err(InvalidCast)
  }

  /** The operation that builds nodes of the given kind. */
  function OfKind(k: Kind): (op: Operation)
    ensures op.Kind() == k
  {
    match k
    case Add => Addition
    case Subtract => Subtraction
    case Multiply => Multiplication
    case Divide => Division
  }

  /** Looking an operation up by its own symbol gives it back. */
  lemma CastSymbol(op: Operation)
    ensures FromChar(op.Symbol()) == Ok(op)
  {
  }
}
