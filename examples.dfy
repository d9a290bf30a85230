/** Worked inputs, stated as properties of the model. */
module Examples {
  import opened Errors
  import opened Chars
  import opened Operation
  import opened Tree
  import opened Numbers
  import opened Scanner
  import opened ShuntingYard
  import opened RoundTrip
  import opened ParseProperties
  import opened Evaluator

  lemma {:induction false} LitPrint(n: nat, s: string, names: seq<string>)
    requires NatToString(n) == s
    ensures Printable(Lit(n as real), names) && Print(Lit(n as real), names) == s
    ensures CanonicalFrom(Lit(n as real), 0) && NextFresh(Lit(n as real), 0) == 0
  {
    assert (n as real).Floor == n;
  }

  const Product := Bin(Multiply, Bin(Multiply, Lit(5.0), Lit(3.0)), Lit(2.0))
  const Difference := Bin(Subtract, Lit(50.0), Product)
  const PrecedenceTree := Bin(Add, Difference, Lit(7.0))

  lemma {:induction false} PrintProduct()
    ensures Printable(Product, []) && CanonicalFrom(Product, 0) && NextFresh(Product, 0) == 0
    ensures Print(Product, []) == "5*3*2"
  {
    LitPrint(5, "5", []);
    LitPrint(3, "3", []);
    LitPrint(2, "2", []);
    var a := Bin(Multiply, Lit(5.0), Lit(3.0));
    assert Print(a, []) == "5*3";
  }

  lemma {:induction false} PrintPrecedence()
    ensures Printable(PrecedenceTree, []) && Canonical(PrecedenceTree, [])
    ensures Print(PrecedenceTree, []) == "50-5*3*2+7"
  {
    PrintProduct();
    LitPrint(50, "50", []);
    LitPrint(7, "7", []);
    assert Print(Difference, []) == "50-5*3*2";
  }

  /** 50-5*3*2+7: multiplication first, left to right, then the additive operators left to right. */
  lemma {:induction false} PrecedenceExample(params: seq<string>)
    ensures ParseSpec("50-5*3*2+7", params) == Outcome(Ok(PrecedenceTree), [])
    ensures Eval(PrecedenceTree, []) == Ok(27.0)
  {
    PrintPrecedence();
    ParsePrint(PrecedenceTree, [], params);
  }

  /** One successful step, then the rest of the scan. */
  lemma {:induction false} Then(text: string, pos: nat, m: Machine, next: nat, m': Machine)
    requires pos < |text| && OperatorChars(m.ops) && Step(text, pos, m) == Ok((next, m'))
    ensures Run(text, pos, m) == Run(text, next, m')
  {
  }

  /** The literal at `pos` is the single digit there. */
  lemma {:induction false} SingleDigit(text: string, pos: nat)
    requires pos < |text| && IsDigit(text[pos]) && (pos + 1 == |text| || !OperandChar(text, pos, pos + 1))
    ensures OperandEnd(text, pos) == pos + 1
    ensures LiteralValue(text[pos..pos + 1], false) == Ok(DigitValue(text[pos]) as real)
    ensures LiteralValue(text[pos..pos + 1], true) == Ok(-(DigitValue(text[pos]) as real))
  {
    assert OperandEndFrom(text, pos, pos + 1) == pos + 1;
    var s := text[pos..pos + 1];
    assert AllDigits(s) && s[..0] == [] && s[0] == text[pos];
    assert DigitsValue(s) == DigitValue(text[pos]);
  }

  /** An unsigned one-digit literal is pushed as its value. */
  lemma {:induction false} DigitThen(text: string, pos: nat, m: Machine, v: nat, m': Machine)
    requires pos < |text| && OperatorChars(m.ops) && IsDigit(text[pos]) && DigitValue(text[pos]) == v
    requires pos + 1 == |text| || !OperandChar(text, pos, pos + 1)
    requires m' == m.(exprs := m.exprs + [Lit(v as real)], prev := text[pos])
    ensures Run(text, pos, m) == Run(text, pos + 1, m')
  {
    SingleDigit(text, pos);
    assert Constant(text, pos, false) == Ok(Lit(v as real));
    Then(text, pos, m, pos + 1, m');
  }

  /** A '-' or '+' before a one-digit literal in a sign context is folded into it. */
  lemma {:induction false} SignedDigitThen(text: string, pos: nat, m: Machine, v: real, m': Machine)
    requires pos + 1 < |text| && OperatorChars(m.ops) && (text[pos] == '-' || text[pos] == '+')
    requires IsDigit(text[pos + 1]) && SignContext(m.prev)
    requires pos + 2 == |text| || !OperandChar(text, pos + 1, pos + 2)
    requires v == if text[pos] == '-' then -(DigitValue(text[pos + 1]) as real) else DigitValue(text[pos + 1]) as real
    requires m' == m.(exprs := m.exprs + [Lit(v)], prev := text[pos + 1])
    ensures Run(text, pos, m) == Run(text, pos + 2, m')
  {
    SingleDigit(text, pos + 1);
    assert Constant(text, pos + 1, text[pos] == '-') == Ok(Lit(v));
    Then(text, pos, m, pos + 2, m');
  }

  /** An operator reduces what binds at least as tightly and is pushed. */
  lemma {:induction false} OperatorThen(text: string, pos: nat, m: Machine, exprs: seq<Expr>, ops: seq<char>, m': Machine)
    requires pos < |text| && OperatorChars(m.ops) && IsDefined(text[pos])
    requires !((text[pos] == '-' || text[pos] == '+') && IsDigit(PeekNextChar(text, pos + 1)) && SignContext(m.prev))
    requires ReduceWhile(WhileAtLeast(FromChar(text[pos]).value.Precedence()), m.exprs, m.ops) == Ok((exprs, ops))
    requires m' == m.(exprs := exprs, ops := ops + [text[pos]], prev := text[pos])
    ensures Run(text, pos, m) == Run(text, pos + 1, m')
  {
    Then(text, pos, m, pos + 1, m');
  }

  /** A '(' is pushed as a barrier. */
  lemma {:induction false} OpenThen(text: string, pos: nat, m: Machine, ops: seq<char>, m': Machine)
    requires pos < |text| && OperatorChars(m.ops) && text[pos] == '('
    requires ops == m.ops + ['('] && m' == m.(ops := ops, prev := '(')
    ensures Run(text, pos, m) == Run(text, pos + 1, m')
  {
    Then(text, pos, m, pos + 1, m');
  }

  /** The literal at `pos` is a digit, a decimal point and a digit. */
  lemma {:induction false} DecimalLiteral(text: string, pos: nat)
    requires pos + 3 <= |text| && IsDigit(text[pos]) && text[pos + 1] == '.' && IsDigit(text[pos + 2])
    requires pos + 3 == |text| || !OperandChar(text, pos, pos + 3)
    ensures OperandEnd(text, pos) == pos + 3
    ensures LiteralValue(text[pos..pos + 3], false) == Ok(DigitValue(text[pos]) as real + DigitValue(text[pos + 2]) as real / 10.0)
    ensures Constant(text, pos, false) == Ok(Lit(DigitValue(text[pos]) as real + DigitValue(text[pos + 2]) as real / 10.0))
  {
    assert OperandEndFrom(text, pos, pos + 3) == pos + 3;
    assert OperandEndFrom(text, pos, pos + 2) == pos + 3;
    assert OperandEndFrom(text, pos, pos + 1) == pos + 3;
    DecimalValue(text[pos..pos + 3]);
  }

  /** "d.f" reads as d + f/10. */
  lemma {:induction false} DecimalValue(lit: string)
    requires |lit| == 3 && IsDigit(lit[0]) && lit[1] == '.' && IsDigit(lit[2])
    ensures LiteralValue(lit, false) == Ok(DigitValue(lit[0]) as real + DigitValue(lit[2]) as real / 10.0)
  {
    var whole, fraction := [lit[0]], [lit[2]];
    assert lit == whole + "." + fraction;
    OneDigitValue(lit[0]);
    OneDigitValue(lit[2]);
    DecimalParseFraction(whole, fraction);
    assert DecimalParse(lit) == Ok(DigitValue(lit[0]) as real + DigitValue(lit[2]) as real / 10.0) by {
      assert Pow10(|fraction|) == 10;
    }
    assert !HasExponentMarker(lit) by {
      forall i | 0 <= i < |lit| ensures !IsExponentMarker(lit[i]) {
        assert i == 0 || i == 1 || i == 2;
      }
    }
  }

  lemma {:induction false} OneDigitValue(d: char)
    requires IsDigit(d)
    ensures AllDigits([d]) && DigitsValue([d]) == DigitValue(d)
  {
    assert [d][..0] == [];
    assert DigitsValueBody([d]) == DigitValue(d);
  }

  /** A literal that reads as `v` and ends at `next` is pushed as Lit(v). */
  lemma {:induction false} LiteralThen(text: string, pos: nat, m: Machine, next: nat, v: real, m': Machine)
    requires pos < |text| && OperatorChars(m.ops) && IsDigit(text[pos])
    requires OperandEnd(text, pos) == next && Constant(text, pos, false) == Ok(Lit(v))
    requires m' == m.(exprs := m.exprs + [Lit(v)], prev := text[pos])
    ensures Run(text, pos, m) == Run(text, next, m')
  {
    assert Step(text, pos, m) == PushConstant(text, pos, false, m, text[pos]);
    Then(text, pos, m, next, m');
  }

  const DecimalSum := Bin(Add, Lit(2.7), Lit(3.2))

  lemma {:induction false} DecimalSumOperands(text: string)
    requires text == "2.7+3.2"
    ensures Run(text, 0, Start) == Run(text, 4, Machine([Lit(2.7)], ['+'], [], '+'))
  {
    var m1 := Machine([Lit(2.7)], [], [], '2');
    assert text[0] == '2' && text[1] == '.' && text[2] == '7' && text[3] == '+';
    DecimalLiteral(text, 0);
    LiteralThen(text, 0, Start, 3, 2.7, m1);
    OperatorThen(text, 3, m1, [Lit(2.7)], [], Machine([Lit(2.7)], ['+'], [], '+'));
  }

  lemma {:induction false} DecimalSumRest(text: string)
    requires text == "2.7+3.2"
    ensures Run(text, 4, Machine([Lit(2.7)], ['+'], [], '+')) == Outcome(Ok(DecimalSum), [])
  {
    var m2 := Machine([Lit(2.7), Lit(3.2)], ['+'], [], '3');
    assert text[4] == '3' && text[5] == '.' && text[6] == '2' && |text| == 7;
    DecimalLiteral(text, 4);
    LiteralThen(text, 4, Machine([Lit(2.7)], ['+'], [], '+'), 7, 3.2, m2);
    ReducePopOrder([], Lit(2.7), Lit(3.2), [], Addition);
    assert [] + [Lit(2.7), Lit(3.2)] == m2.exprs && [] + [Addition.Symbol()] == m2.ops;
    assert Finish(m2) == Ok(DecimalSum);
  }

  /** 2.7+3.2: decimal literals are read exactly, and the sum is 5.9. */
  lemma {:induction false} DecimalSumExample(params: seq<string>)
    ensures ParseSpec("2.7+3.2", params) == Outcome(Ok(DecimalSum), [])
    ensures Eval(DecimalSum, []) == Ok(5.9)
  {
    assert "2.7+3.2"[0] == '2';
    DecimalSumOperands("2.7+3.2");
    DecimalSumRest("2.7+3.2");
  }

  /** 2^3: a character outside digits, letters, operators, parentheses and the space is refused. */
  lemma {:induction false} InvalidCharacterExample(params: seq<string>)
    ensures ParseSpec("2^3", params) == Outcome(Err(InvalidCharacter('^')), [])
  {
    InvalidCharacterRun("2^3");
  }

  lemma {:induction false} InvalidCharacterRun(text: string)
    requires text == "2^3"
    ensures !IsNullOrWhiteSpace(text) && Run(text, 0, Start) == Outcome(Err(InvalidCharacter('^')), [])
  {
    var m := Machine([Lit(2.0)], [], [], '2');
    assert text[0] == '2' && text[1] == '^';
    DigitThen(text, 0, Start, 2, m);
    InvalidCharacterStep(text, 1, m);
  }

  lemma {:induction false} SignOperands(text: string)
    requires text == "2*-3"
    ensures Run(text, 0, Start) == Run(text, 2, Machine([Lit(2.0)], ['*'], [], '*'))
  {
    var m1 := Machine([Lit(2.0)], [], [], '2');
    DigitThen(text, 0, Start, 2, m1);
    OperatorThen(text, 1, m1, [Lit(2.0)], [], Machine([Lit(2.0)], ['*'], [], '*'));
  }

  lemma {:induction false} SignLiteral(text: string)
    requires text == "2*-3"
    ensures Run(text, 2, Machine([Lit(2.0)], ['*'], [], '*')) == Outcome(Ok(Bin(Multiply, Lit(2.0), Lit(-3.0))), [])
  {
    var m3 := Machine([Lit(2.0), Lit(-3.0)], ['*'], [], '3');
    assert text[2] == '-' && text[3] == '3' && |text| == 4;
    SignedDigitThen(text, 2, Machine([Lit(2.0)], ['*'], [], '*'), -3.0, m3);
    ReducePopOrder([], Lit(2.0), Lit(-3.0), [], Multiplication);
    assert [] + [Lit(2.0), Lit(-3.0)] == m3.exprs && [] + [Multiplication.Symbol()] == m3.ops;
    assert Finish(m3) == Ok(Bin(Multiply, Lit(2.0), Lit(-3.0)));
  }

  /** 2*-3: a '-' after '*' is the sign of the literal that follows. */
  lemma {:induction false} SignExample(params: seq<string>)
    ensures ParseSpec("2*-3", params) == Outcome(Ok(Bin(Multiply, Lit(2.0), Lit(-3.0))), [])
  {
    SignOperands("2*-3");
    SignLiteral("2*-3");
  }

  lemma {:induction false} PlusMinusOperands(text: string)
    requires text == "2+-3"
    ensures Run(text, 0, Start) == Run(text, 2, Machine([Lit(2.0)], ['+'], [], '+'))
  {
    var m1 := Machine([Lit(2.0)], [], [], '2');
    DigitThen(text, 0, Start, 2, m1);
    OperatorThen(text, 1, m1, [Lit(2.0)], [], Machine([Lit(2.0)], ['+'], [], '+'));
  }

  lemma {:induction false} PlusMinusRest(text: string)
    requires text == "2+-3"
    ensures Run(text, 2, Machine([Lit(2.0)], ['+'], [], '+')) == Outcome(Err(EmptyStack), [])
  {
    var m := Machine([Lit(2.0)], ['+'], [], '+');
    assert text[2] == '-' && IsDigit(PeekNextChar(text, 3)) && !SignContext(m.prev);
    assert Reduces(WhileAtLeast(1), '+');
    assert Reduce(m.exprs, m.ops) == Err(EmptyStack);
    assert ReduceWhile(WhileAtLeast(Subtraction.Precedence()), m.exprs, m.ops) == Err(EmptyStack);
    assert Step(text, 2, m) == Err(EmptyStack);
  }

  /** 2+-3: after '+' the '-' is the subtraction operator, and its reduction
      finds a single operand. So 2 + (-3), whose fewest-parentheses text this
      is, does not read back: negative literals are outside the round trip. */
  lemma {:induction false} PlusMinusExample(params: seq<string>)
    ensures ParseSpec("2+-3", params) == Outcome(Err(EmptyStack), [])
  {
    PlusMinusOperands("2+-3");
    PlusMinusRest("2+-3");
  }

  lemma {:induction false} CastOperands(text: string)
    requires text == "1+(2"
    ensures Run(text, 0, Start) == Run(text, 2, Machine([Lit(1.0)], ['+'], [], '+'))
  {
    var m1 := Machine([Lit(1.0)], [], [], '1');
    DigitThen(text, 0, Start, 1, m1);
    OperatorThen(text, 1, m1, [Lit(1.0)], [], Machine([Lit(1.0)], ['+'], [], '+'));
  }

  lemma {:induction false} CastRest(text: string)
    requires text == "1+(2"
    ensures Run(text, 2, Machine([Lit(1.0)], ['+'], [], '+')) == Outcome(Err(InvalidCast), [])
  {
    var m3 := Machine([Lit(1.0)], ['+', '('], [], '(');
    assert ['+'] + ['('] == m3.ops;
    OpenThen(text, 2, Machine([Lit(1.0)], ['+'], [], '+'), m3.ops, m3);
    var m4 := Machine([Lit(1.0), Lit(2.0)], ['+', '('], [], '2');
    DigitThen(text, 3, m3, 2, m4);
    assert Reduce(m4.exprs, m4.ops) == Err(InvalidCast);
    assert Finish(m4) == Err(InvalidCast);
  }

  /** 1+(2: the final reductions pop the two operands and then fail to cast the '(' barrier. */
  lemma {:induction false} CastExample(params: seq<string>)
    ensures ParseSpec("1+(2", params) == Outcome(Err(InvalidCast), [])
  {
    CastOperands("1+(2");
    CastRest("1+(2");
  }

  const Sum := Bin(Add, Lit(5.0), Lit(3.0))
  const Scaled := Bin(Multiply, Lit(2.0), Sum)

  lemma {:induction false} PrintScaled()
    ensures Printable(Scaled, []) && Canonical(Scaled, [])
    ensures Print(Scaled, []) == "2*(5+3)"
  {
    LitPrint(2, "2", []);
    LitPrint(5, "5", []);
    LitPrint(3, "3", []);
    assert Print(Sum, []) == "5+3";
  }

  /** 2*(5+3): parentheses group a sum under a product. */
  lemma {:induction false} ParenthesesExample(params: seq<string>)
    ensures ParseSpec("2*(5+3)", params) == Outcome(Ok(Scaled), [])
    ensures Eval(Scaled, []) == Ok(16.0)
  {
    PrintScaled();
    ParsePrint(Scaled, [], params);
  }

  const Quotient := Bin(Divide, Lit(1.0), Lit(0.0))

  /** 1/0 compiles, and running it fails with a division by zero. */
  lemma {:induction false} DivideByZeroExample(params: seq<string>)
    ensures ParseSpec("1/0", params) == Outcome(Ok(Quotient), [])
    ensures Eval(Quotient, []) == Err(DivideByZero)
  {
    LitPrint(1, "1", []);
    LitPrint(0, "0", []);
    assert Print(Quotient, []) == "1/0";
    ParsePrint(Quotient, [], params);
  }

  const PairNames := ["a", "b"]
  const Pair := Bin(Add, Var(0), Var(1))

  /** a+b compiles to the sum of the first two array elements, named a and b. */
  lemma {:induction false} PairParses(params: seq<string>)
    ensures ParseSpec("a+b", params) == Outcome(Ok(Pair), PairNames)
  {
    assert ValidNames(PairNames) by {
      assert IsWord(PairNames[0]) && IsWord(PairNames[1]);
    }
    assert Print(Var(0), PairNames) == "a" && Print(Var(1), PairNames) == "b";
    assert Print(Pair, PairNames) == "a+b";
    ParsePrint(Pair, PairNames, params);
  }

  /** Run over a = 2.6 and b = 5.7, a+b gives 8.3. */
  lemma {:induction false} PairExecutes(evaluator: ExpressionEvaluator)
    requires evaluator.parameters == PairNames
    ensures evaluator.Execute(Pair, map["a" := 2.6, "b" := 5.7]) == Ok(8.3)
  {
    var arguments := map["a" := 2.6, "b" := 5.7];
    assert "a" != "b" by { assert "a"[0] != "b"[0]; }
    assert |arguments| == 2;
    assert Missing(PairNames, arguments) == [];
    ExecuteBinds(evaluator, 0, arguments);
    ExecuteBinds(evaluator, 1, arguments);
    assert Values(PairNames, arguments) == [2.6, 5.7];
  }

  /** Evaluate("a+b", {a: 2.6, b: 5.7}) on a fresh evaluator gives 8.3. */
  method SumScenario() returns (r: Result<real>)
    ensures r == Ok(8.3)
  {
    var evaluator := new ExpressionEvaluator();
    PairParses([]);
    r := evaluator.Evaluate("a+b", map["a" := 2.6, "b" := 5.7]);
    PairExecutes(evaluator);
  }

  /** Evaluate("a+b", {a, c}): b has no value. */
  method MissingScenario() returns (r: Result<real>)
    ensures r == Err(MissingParameters(["b"]))
  {
    var evaluator := new ExpressionEvaluator();
    PairParses([]);
    var arguments := map["a" := 1.0, "c" := 2.0];
    MissingB(arguments);
    r := evaluator.Evaluate("a+b", arguments);
  }

  lemma {:induction false} MissingB(arguments: map<string, real>)
    requires arguments == map["a" := 1.0, "c" := 2.0]
    ensures |arguments| == 2 && Missing(PairNames, arguments) == ["b"]
  {
    assert "a" != "c" by { assert "a"[0] != "c"[0]; }
    assert "b" != "a" && "b" != "c" by { assert "b"[0] != "a"[0] && "b"[0] != "c"[0]; }
  }

  lemma {:induction false} ThreeArguments(arguments: map<string, real>)
    requires arguments == map["a" := 1.0, "b" := 2.0, "c" := 3.0]
    ensures |arguments| == 3
  {
    assert "a" != "b" && "a" != "c" && "b" != "c" by {
      assert "a"[0] != "b"[0] && "a"[0] != "c"[0] && "b"[0] != "c"[0];
    }
  }

  /** Evaluate("a+b", {a, b, c}): one argument too many. */
  method ExtraScenario() returns (r: Result<real>)
    ensures r == Err(ParameterCount(2, 3))
  {
    var evaluator := new ExpressionEvaluator();
    PairParses([]);
    var arguments := map["a" := 1.0, "b" := 2.0, "c" := 3.0];
    ThreeArguments(arguments);
    r := evaluator.Evaluate("a+b", arguments);
  }

  /** After a+b, evaluating the empty text compiles to 0 but keeps the two
      parameters, so it then demands two arguments. */
  method StaleParametersScenario() returns (r: Result<real>)
    ensures r == Err(ParameterCount(2, 0))
  {
    var evaluator := new ExpressionEvaluator();
    PairParses([]);
    var compiled := evaluator.Compile("a+b");
    assert IsNullOrWhiteSpace("");
    r := evaluator.Evaluate("", map[]);
  }
}
