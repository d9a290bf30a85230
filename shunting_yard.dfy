/** The parsing algorithm of ExpressionEvaluator.Parse as functions: one call of
    Step is one iteration of the scanning loop, Run is the loop followed by the
    final reductions, and ParseSpec is the whole of Parse. The methods of the
    class are proved to compute exactly these. */
module ShuntingYard {
  import opened Errors
  import opened Chars
  import opened Tree
  import opened Operation
  import opened Numbers
  import opened Scanner

  /** The three loop conditions EvaluateWhile is called with. */
  datatype Condition =
    | UntilEmpty                       // end of input: while any operator is stacked
    | UntilOpenParen                   // ')': while the top is not '('
    | WhileAtLeast(precedence: nat)    // a new operator: while the top is an operator binding at least as tightly

  /** The operator stack holds operator symbols and '(' markers only. */
  predicate OperatorChars(ops: seq<char>) {
    forall i :: 0 <= i < |ops| ==> ops[i] == '(' || IsDefined(ops[i])
  }

  /** Whether the loop condition accepts `c` on top of the operator stack. */
  predicate Reduces(cond: Condition, c: char)
    requires c == '(' || IsDefined(c)
  {
    match cond
    case UntilEmpty => true
    case UntilOpenParen => c != '('
    case WhileAtLeast(p) => c != '(' && p <= FromChar(c).value.Precedence()
  }

  predicate Holds(cond: Condition, ops: seq<char>)
    requires OperatorChars(ops)
  {
    |ops| > 0 && Reduces(cond, ops[|ops| - 1])
  }

  /** One reduction: pop the right operand, then the left operand, then the
      operator, and push the node that applies the operator to them. */
  function Reduce(exprs: seq<Expr>, ops: seq<char>): (r: Result<(seq<Expr>, seq<char>)>)
    requires |ops| > 0
    ensures r.Err? <==> |exprs| < 2 || !IsDefined(ops[|ops| - 1])
    ensures r.Err? ==> r.error == (if |exprs| < 2 then EmptyStack else InvalidCast)
    ensures r.Ok? ==> |r.value.0| == |exprs| - 1 && r.value.1 == ops[..|ops| - 1]
    ensures r.Ok? ==> r.value.0[..|exprs| - 2] == exprs[..|exprs| - 2]
  {
    if |exprs| < 2 then Err(EmptyStack)
    else
      match FromChar(ops[|ops| - 1])
      case Err(e) => Err(e)
      case Ok(op) => Ok((exprs[..|exprs| - 2] + [op.Apply(exprs[|exprs| - 2], exprs[|exprs| - 1])], ops[..|ops| - 1]))
  }

  /** A reduction pops the top operand as the right operand and the one below
      it as the left operand, and builds `left op right` for the operator on top
      of the operator stack; the rest of both stacks is untouched. */
  lemma {:induction false} ReducePopOrder(below: seq<Expr>, left: Expr, right: Expr, under: seq<char>, op: Operation)
    ensures Reduce(below + [left, right], under + [op.Symbol()]) == Ok((below + [Bin(op.Kind(), left, right)], under))
  {
    var exprs, ops := below + [left, right], under + [op.Symbol()];
    CastSymbol(op);
    assert exprs[..|exprs| - 2] == below && exprs[|exprs| - 2] == left && exprs[|exprs| - 1] == right;
    assert ops[..|ops| - 1] == under;
  }

  /** EvaluateWhile: reduce while the condition holds. */
  function ReduceWhile(cond: Condition, exprs: seq<Expr>, ops: seq<char>): (r: Result<(seq<Expr>, seq<char>)>)
    requires OperatorChars(ops)
    decreases |ops|
    ensures r.Ok? ==> r.value.1 <= ops && OperatorChars(r.value.1)
    ensures r.Ok? ==> |exprs| - |r.value.0| == |ops| - |r.value.1|
    ensures r.Ok? ==> !Holds(cond, r.value.1)
    ensures r.Err? ==> r.error == EmptyStack || (r.error == InvalidCast && cond == UntilEmpty)
  {
    if !Holds(cond, ops) then Ok((exprs, ops))
    else
      match Reduce(exprs, ops)
      case Err(e) => Err(e)
      case Ok((exprs', ops')) => ReduceWhile(cond, exprs', ops')
  }

  /** Every operator EvaluateWhile pops satisfied the condition, and the
      operands below the ones it consumed are left as they were. */
  lemma {:induction false} ReduceWhilePops(cond: Condition, exprs: seq<Expr>, ops: seq<char>)
    requires OperatorChars(ops)
    ensures var r := ReduceWhile(cond, exprs, ops);
      r.Ok? ==> forall k :: |r.value.1| <= k < |ops| ==> Reduces(cond, ops[k])
    ensures var r := ReduceWhile(cond, exprs, ops);
      r.Ok? && |r.value.1| < |ops| ==> |r.value.0| > 0 && r.value.0[..|r.value.0| - 1] == exprs[..|r.value.0| - 1]
    decreases |ops|
  {
    if Holds(cond, ops) {
      match Reduce(exprs, ops)
      case Err(_) =>
      case Ok((exprs', ops')) =>
        ReduceWhilePops(cond, exprs', ops');
        var r := ReduceWhile(cond, exprs', ops');
        if r.Ok? && |r.value.1| < |ops'| {
          assert exprs'[..|exprs| - 2] == exprs[..|exprs| - 2];
        }
    }
  }

  /** The state of the scanning loop: the two stacks (top at the end), the
      parameter list and the previous significant character. */
  datatype Machine = Machine(exprs: seq<Expr>, ops: seq<char>, params: seq<string>, prev: char)

  /** A '+' or '-' followed by a digit is a sign only after these characters. */
  predicate SignContext(prev: char) {
    prev == '\0' || prev == '*' || prev == '/' || prev == '('
  }

  /** The constant ReadOperand produces for the literal starting at `start`. */
  function Constant(text: string, start: nat, negative: bool): Result<Expr>
    requires start < |text| && IsDigit(text[start])
  {
    match LiteralValue(text[start..OperandEnd(text, start)], negative)
    case Err(e) => Err(e)
    case Ok(v) => Ok(Lit(v))
  }

  /** ReadOperand's result pushed on the operand stack: the position after the
      literal and the new state, in which `c` is the previous character. */
  function PushConstant(text: string, start: nat, negative: bool, m: Machine, c: char): (r: Result<(nat, Machine)>)
    requires start < |text| && IsDigit(text[start])
    ensures r.Ok? ==> start < r.value.0 <= |text| && r.value.1.ops == m.ops && r.value.1.params == m.params
    ensures r.Ok? <==> Constant(text, start, negative).Ok?
    ensures r.Ok? ==> r.value == (OperandEnd(text, start), m.(exprs := m.exprs + [Constant(text, start, negative).value], prev := c))
    ensures r.Err? ==> r.error == InvalidNumber(text[start..OperandEnd(text, start)])
  {
    match Constant(text, start, negative)
    case Err(e) => Err(e)
    case Ok(lit) => Ok((OperandEnd(text, start), m.(exprs := m.exprs + [lit], prev := c)))
  }

  /** One iteration of Parse's scanning loop at position `pos`: the position
      after the token and the new state, or the failure. */
  function Step(text: string, pos: nat, m: Machine): (r: Result<(nat, Machine)>)
    requires pos < |text| && OperatorChars(m.ops)
    ensures r.Ok? ==> pos < r.value.0 <= |text| && OperatorChars(r.value.1.ops)
    ensures r.Ok? ==> m.params <= r.value.1.params
    ensures r.Err? ==> r.error != InvalidCast
  {
    var next := text[pos];
    if IsDigit(next) then
      PushConstant(text, pos, false, m, next)
    else if IsLetter(next) then
      var end := NameEnd(text, pos);
      var name := text[pos..end];
      var params := AddParameter(m.params, name);
      Ok((end, m.(exprs := m.exprs + [Var(IndexOf(params, name))], params := params, prev := next)))
    else if IsDefined(next) then
      var op := FromChar(next).value;
      var nextChar := PeekNextChar(text, pos + 1);
      if (op == Subtraction || op == Addition) && IsDigit(nextChar) && SignContext(m.prev) then
        PushConstant(text, pos + 1, op == Subtraction, m, nextChar)
      else
        match ReduceWhile(WhileAtLeast(op.Precedence()), m.exprs, m.ops)
        case Err(e) => Err(e)
        case Ok((exprs, ops)) => Ok((pos + 1, m.(exprs := exprs, ops := ops + [next], prev := next)))
    else if next == '(' then
      Ok((pos + 1, m.(ops := m.ops + ['('], prev := next)))
    else if next == ')' then
      match ReduceWhile(UntilOpenParen, m.exprs, m.ops)
      case Err(e) => Err(e)
      case Ok((exprs, ops)) =>
        if |ops| == 0 then Err(EmptyStack)
        else Ok((pos + 1, m.(exprs := exprs, ops := ops[..|ops| - 1], prev := next)))
    else if next == ' ' then
      Ok((pos + 1, m))
    else
      Err(InvalidCharacter(next))
  }

  /** The failures a parse can raise; the argument checks and the evaluation raise the others. */
  predicate ParseError(e: Error) {
    e.InvalidCharacter? || e.InvalidNumber? || e == EmptyStack || e == InvalidCast
  }

  /** What a parse produces: the compiled tree or the failure, and the parameter list it leaves behind. */
  datatype Outcome = Outcome(result: Result<Expr>, params: seq<string>)

  /** After the loop: reduce everything, then pop the root. */
  function Finish(m: Machine): (r: Result<Expr>)
    requires OperatorChars(m.ops)
    ensures r.Err? ==> r.error == EmptyStack || r.error == InvalidCast
    ensures m.ops == [] && |m.exprs| > 0 ==> r == Ok(m.exprs[|m.exprs| - 1])
  {
    match ReduceWhile(UntilEmpty, m.exprs, m.ops)
    case Err(e) => Err(e)
    case Ok((exprs, _)) => if |exprs| == 0 then Err(EmptyStack) else Ok(exprs[|exprs| - 1])
  }

  /** The scanning loop from position `pos` on, then Finish. */
  function Run(text: string, pos: nat, m: Machine): (o: Outcome)
    requires pos <= |text| && OperatorChars(m.ops)
    decreases |text| - pos
    ensures m.params <= o.params
    ensures o.result.Err? ==> ParseError(o.result.error)
    ensures o.result.Err? && o.result.error.InvalidCharacter? ==> o.result.error.c in text[pos..]
  {
    if pos == |text| then Outcome(Finish(m), m.params)
    else
      match Step(text, pos, m)
      case Err(e) => Outcome(Err(e), m.params)
      case Ok((next, m')) => Run(text, next, m')
  }

  const Start := Machine([], [], [], '\0')

  /** Parse: an empty or white-space text compiles to the constant 0 and keeps
      the previous parameter list; any other text is scanned from a cleared state. */
  function ParseSpec(text: string, params: seq<string>): (o: Outcome)
    ensures IsNullOrWhiteSpace(text) ==> o.params == params && o.result == Ok(Lit(0.0))
    ensures o.result.Err? ==> ParseError(o.result.error)
    ensures o.result.Err? && o.result.error.InvalidCharacter? ==> o.result.error.c in text
  {
    if IsNullOrWhiteSpace(text) then Outcome(Ok(Lit(0.0)), params)
    else Run(text, 0, Start)
  }
}
