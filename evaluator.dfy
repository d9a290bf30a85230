/** The ExpressionEvaluator class: the operand stack, the operator stack and the
    parameter list are fields that Parse rewrites; Execute reads the parameter
    list left behind by the most recent parse. */
module Evaluator {
  import opened Errors
  import opened Chars
  import opened Tree
  import opened Operation
  import opened Numbers
  import opened Scanner
  import opened ShuntingYard

  /** The parameters the argument map does not supply, in parameter order. */
  function Missing(parameters: seq<string>, arguments: map<string, real>): (ms: seq<string>)
    ensures forall n :: n in ms <==> n in parameters && n !in arguments
    ensures |ms| <= |parameters|
    ensures ms == [] <==> forall p :: p in parameters ==> p in arguments
  {
    if parameters == [] then []
    else (if parameters[0] in arguments then [] else [parameters[0]]) + Missing(parameters[1..], arguments)
  }

  /** The positional argument array: slot i holds the value bound to parameter i. */
  function Values(parameters: seq<string>, arguments: map<string, real>): (vs: seq<real>)
    requires forall p :: p in parameters ==> p in arguments
    ensures |vs| == |parameters|
    ensures forall i :: 0 <= i < |parameters| ==> vs[i] == arguments[parameters[i]]
  {
    seq(|parameters|, i requires 0 <= i < |parameters| => arguments[parameters[i]])
  }

  /** ReadOperation: consume one character and cast it to an operation. */
  function ReadOperation(text: string, pos: nat): (r: Result<Operation>)
    requires pos < |text|
    ensures r.Ok? <==> IsDefined(text[pos])
    ensures r.Ok? ==> r.value.Symbol() == text[pos]
  {
    FromChar(text[pos])
  }

  class ExpressionEvaluator {
    var expressionStack: seq<Expr>
    var operatorStack: seq<char>
    var parameters: seq<string>

    constructor ()
      ensures expressionStack == [] && operatorStack == [] && parameters == []
    {
      expressionStack := [];
      operatorStack := [];
      parameters := [];
    }

    /** Parse: compile `expression` to a tree over the positional argument
        array, rebuilding the parameter list, or fail. */
    method Parse(expression: string) returns (r: Result<Expr>)
      modifies this
      ensures Outcome(r, parameters) == ParseSpec(expression, old(parameters))
    {
      if IsNullOrWhiteSpace(expression) {
        return Ok(Lit(0.0));
      }
      parameters := [];
      operatorStack := [];
      expressionStack := [];
      var pos := 0;
      var prevChar := '\0';
      while pos < |expression|
        invariant pos <= |expression| && OperatorChars(operatorStack)
        invariant Run(expression, pos, Machine(expressionStack, operatorStack, parameters, prevChar)) == Run(expression, 0, Start)
        decreases |expression| - pos
      {
        var step := ReadToken(expression, pos, prevChar);
        if step.Err? {
          return Err(step.error);
        }
        pos, prevChar := step.value.0, step.value.1;
      }
      var status := EvaluateWhile(UntilEmpty);
      if status.Failed? {
        return Err(status.error);
      }
      if |expressionStack| == 0 {
        return Err(EmptyStack);
      }
      r := Ok(expressionStack[|expressionStack| - 1]);
      expressionStack := expressionStack[..|expressionStack| - 1];
    }

    /** One iteration of Parse's scanning loop: read the token at `pos`, update
        the stacks and the parameter list, and give the position after it and
        the new previous character, or the failure that ends the parse. */
    method ReadToken(expression: string, pos: nat, prevChar: char) returns (res: Result<(nat, char)>)
      requires pos < |expression| && OperatorChars(operatorStack)
      modifies this
      ensures match Step(expression, pos, Machine(old(expressionStack), old(operatorStack), old(parameters), prevChar))
              case Ok((next, m)) =>
                res == Ok((next, m.prev)) && expressionStack == m.exprs && operatorStack == m.ops && parameters == m.params
              case Err(e) => res == Err(e) && parameters == old(parameters)
    {
      var next := expression[pos];
      if IsDigit(next) {
        var operand, end := ReadOperand(expression, pos, false);
        if operand.Err? {
          return Err(operand.error);
        }
        expressionStack := expressionStack + [operand.value];
        return Ok((end, next));
      }
      if IsLetter(next) {
        var variable, end := ReadParameter(expression, pos);
        expressionStack := expressionStack + [variable];
        return Ok((end, next));
      }
      if IsDefined(next) {
        var currentOperation := ReadOperation(expression, pos).value;
        // a '+' or '-' directly before a digit is the literal's sign in a sign context
        if currentOperation == Subtraction || currentOperation == Addition {
          var nextChar := PeekNextChar(expression, pos + 1);
          if IsDigit(nextChar) && SignContext(prevChar) {
            var operand, end := ReadOperand(expression, pos + 1, currentOperation == Subtraction);
            if operand.Err? {
              return Err(operand.error);
            }
            expressionStack := expressionStack + [operand.value];
            return Ok((end, nextChar));
          }
        }
        var status := EvaluateWhile(WhileAtLeast(currentOperation.Precedence()));
        if status.Failed? {
          return Err(status.error);
        }
        operatorStack := operatorStack + [next];
        return Ok((pos + 1, next));
      }
      if next == '(' {
        operatorStack := operatorStack + ['('];
        return Ok((pos + 1, next));
      }
      if next == ')' {
        var status := EvaluateWhile(UntilOpenParen);
        if status.Failed? {
          return Err(status.error);
        }
        if |operatorStack| == 0 {
          return Err(EmptyStack);
        }
        operatorStack := operatorStack[..|operatorStack| - 1];
        return Ok((pos + 1, next));
      }
      if next == ' ' {
        // a space is skipped and does not become the previous character
        return Ok((pos + 1, prevChar));
      }
      return Err(InvalidCharacter(next));
    }

    /** Execute: check the argument map against the parameter list, build the
        positional argument array and evaluate the compiled tree over it. */
    function Execute(compiled: Expr, arguments: map<string, real>): (r: Result<real>)
      reads this
      ensures |parameters| != |arguments| ==> r == Err(ParameterCount(|parameters|, |arguments|))
      ensures r.Err? && r.error.MissingParameters? ==>
        |r.error.names| > 0 && forall n :: n in r.error.names <==> n in parameters && n !in arguments
      ensures r.Ok? ==> |parameters| == |arguments| && forall p :: p in parameters ==> p in arguments
      ensures |parameters| == |arguments| && Missing(parameters, arguments) != [] ==>
        r == Err(MissingParameters(Missing(parameters, arguments)))
      ensures |parameters| == |arguments| && (forall p :: p in parameters ==> p in arguments) ==>
        r == Eval(compiled, Values(parameters, arguments))
    {
      if |parameters| != |arguments| then
        Err(ParameterCount(|parameters|, |arguments|))
      else
        var missing := Missing(parameters, arguments);
        if |missing| > 0 then Err(MissingParameters(missing))
        else
          assert forall p :: p in parameters ==> p in arguments;
          Eval(compiled, Values(parameters, arguments))
    }

    /** Evaluate(string, Dictionary): parse, then execute. */
    method Evaluate(expression: string, arguments: map<string, real>) returns (r: Result<real>)
      modifies this
      ensures var o := ParseSpec(expression, old(parameters));
        parameters == o.params &&
        r == match o.result
             case Err(e) => Err(e)
             case Ok(compiled) => Execute(compiled, arguments)
    {
      var compiled := Parse(expression);
      if compiled.Err? {
        return Err(compiled.error);
      }
      r := Execute(compiled.value, arguments);
    }

    /** Compile: parse once; invoking the result later is Execute, which reads
        the parameter list as it stands at that later time. */
    method Compile(expression: string) returns (compiled: Result<Expr>)
      modifies this
      ensures Outcome(compiled, parameters) == ParseSpec(expression, old(parameters))
    {
      compiled := Parse(expression);
    }

    /** EvaluateWhile: reduce while the condition holds of the operator stack. */
    method EvaluateWhile(condition: Condition) returns (status: Status)
      requires OperatorChars(operatorStack)
      modifies this`expressionStack, this`operatorStack
      ensures match ReduceWhile(condition, old(expressionStack), old(operatorStack))
              case Ok((exprs, ops)) => status == Done && expressionStack == exprs && operatorStack == ops
              case Err(e) => status == Failed(e)
    {
      while Holds(condition, operatorStack)
        invariant OperatorChars(operatorStack)
        invariant ReduceWhile(condition, expressionStack, operatorStack)
               == ReduceWhile(condition, old(expressionStack), old(operatorStack))
        decreases |operatorStack|
      {
        ghost var exprs, ops := expressionStack, operatorStack;
        if |expressionStack| == 0 {
          return Failed(EmptyStack);
        }
        var right := expressionStack[|expressionStack| - 1];
        expressionStack := expressionStack[..|expressionStack| - 1];
        if |expressionStack| == 0 {
          return Failed(EmptyStack);
        }
        var left := expressionStack[|expressionStack| - 1];
        expressionStack := expressionStack[..|expressionStack| - 1];
        assert expressionStack == exprs[..|exprs| - 2] && left == exprs[|exprs| - 2] && right == exprs[|exprs| - 1];
        var symbol := operatorStack[|operatorStack| - 1];
        operatorStack := operatorStack[..|operatorStack| - 1];
        var operation := FromChar(symbol);
        if operation.Err? {
          return Failed(operation.error);
        }
        expressionStack := expressionStack + [operation.value.Apply(left, right)];
        assert Reduce(exprs, ops) == Ok((expressionStack, operatorStack));
      }
      return Done;
    }

    /** ReadOperand: collect the maximal literal starting at `start` and build its
        constant, negated when `negative` is set. */
    method ReadOperand(text: string, start: nat, negative: bool) returns (operand: Result<Expr>, end: nat)
      requires start < |text| && IsDigit(text[start])
      ensures end == OperandEnd(text, start)
      ensures operand == Constant(text, start, negative)
    {
      var literal := "";
      end := start;
      while end < |text|
        invariant start <= end <= |text|
        invariant literal == text[start..end]
        invariant OperandEndFrom(text, start, end) == OperandEnd(text, start)
        decreases |text| - end
      {
        var next := text[end];
        if IsDigit(next) || next == '.' || next == 'e' || next == 'E'
           || ((next == '-' || next == '+') && EndsWithExponentMarker(literal))
        {
          end := end + 1;
          literal := literal + [next];
        } else {
          break;
        }
      }
      var value := LiteralValue(literal, negative);
      operand := if value.Ok? then Ok(Lit(value.value)) else Err(value.error);
    }

    /** ReadParameter: collect the maximal run of letters starting at `start`,
        add the name to the parameter list unless it is there, and index it. */
    method ReadParameter(text: string, start: nat) returns (variable: Expr, end: nat)
      requires start < |text| && IsLetter(text[start])
      modifies this`parameters
      ensures end == NameEnd(text, start)
      ensures parameters == AddParameter(old(parameters), text[start..end])
      ensures variable == Var(IndexOf(parameters, text[start..end]))
    {
      var name := "";
      end := start;
      while end < |text|
        invariant start <= end <= |text|
        invariant name == text[start..end]
        invariant NameEndFrom(text, end) == NameEnd(text, start)
        decreases |text| - end
      {
        var next := text[end];
        if IsLetter(next) {
          end := end + 1;
          name := name + [next];
        } else {
          break;
        }
      }
      if name !in parameters {
        parameters := parameters + [name];
      }
      variable := Var(IndexOf(parameters, name));
    }
  }

  /** Nothing is missing when every parameter is bound. */
  lemma {:induction false} NoneMissing(parameters: seq<string>, arguments: map<string, real>)
    requires forall p :: p in parameters ==> p in arguments
    ensures Missing(parameters, arguments) == []
  {
    if parameters != [] {
      assert parameters[0] in parameters;
      NoneMissing(parameters[1..], arguments);
    }
  }

  /** A list without duplicates has as many distinct elements as entries. */
  lemma {:induction false} DistinctCard(s: seq<string>)
    requires Distinct(s)
    ensures |set x | x in s| == |s|
  {
    if |s| > 0 {
      assert Distinct(s[1..]) by {
        forall i, j | 0 <= i < j < |s[1..]| ensures s[1..][i] != s[1..][j] {
          assert s[1..][i] == s[i + 1] && s[1..][j] == s[j + 1];
        }
      }
      DistinctCard(s[1..]);
      assert (set x | x in s) == {s[0]} + (set x | x in s[1..]);
      assert s[0] !in s[1..] by {
        forall i | 0 <= i < |s[1..]| ensures s[1..][i] != s[0] {
          assert s[1..][i] == s[i + 1];
        }
      }
    }
  }

  /** With as many arguments as parameters, no parameter is missing exactly
      when the argument names are the parameter names: a map of the right size
      that binds every parameter binds nothing else. */
  lemma {:induction false} BindingsMatch(parameters: seq<string>, arguments: map<string, real>)
    requires Distinct(parameters) && |parameters| == |arguments|
    ensures Missing(parameters, arguments) == [] <==> arguments.Keys == set p | p in parameters
  {
    var names := set p | p in parameters;
    DistinctCard(parameters);
    if Missing(parameters, arguments) == [] {
      assert names <= arguments.Keys;
      var extra := arguments.Keys - names;
      assert arguments.Keys == names + extra && names * extra == {};
      assert |arguments.Keys| == |names| + |extra|;
      assert |extra| == 0;
    } else {
      var n := Missing(parameters, arguments)[0];
      assert n in parameters && n !in arguments;
    }
  }

  /** The array slot of each parameter holds the value the map binds to its
      name, so a successful run reads exactly the named arguments. */
  lemma {:induction false} ExecuteBinds(evaluator: ExpressionEvaluator, i: nat, arguments: map<string, real>)
    requires i < |evaluator.parameters| && |evaluator.parameters| == |arguments|
    requires forall p :: p in evaluator.parameters ==> p in arguments
    ensures evaluator.Execute(Var(i), arguments) == Ok(arguments[evaluator.parameters[i]])
  {
    NoneMissing(evaluator.parameters, arguments);
  }

  /** A successful Execute was given exactly one argument per parameter name. */
  lemma {:induction false} ExecuteExact(evaluator: ExpressionEvaluator, compiled: Expr, arguments: map<string, real>)
    requires Distinct(evaluator.parameters) && evaluator.Execute(compiled, arguments).Ok?
    ensures arguments.Keys == set p | p in evaluator.parameters
  {
    BindingsMatch(evaluator.parameters, arguments);
  }
}
