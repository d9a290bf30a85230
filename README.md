# Math-Expression-Evaluator in Dafny

A model of `ExpressionEvaluator` from lnaie/Math-Expression-Evaluator.
`ExpressionEvaluator` compiles an arithmetic text such as `(a+b)/(a+c)` into an
evaluable form and runs it over named decimal arguments. It reads the text once,
left to right, and combines operands with the two-stack shunting-yard method:
- an operand stack of expression nodes;
- an operator stack of `+ - * /` and `(` markers.

Identifiers become positions in a parameter list that the evaluator keeps as a
field. Execution checks the argument map against that list, builds the positional
argument array and evaluates the tree.

The model keeps the source's form:

- `Evaluator.ExpressionEvaluator` is a class.
  - Its fields are the two stacks (sequences, top at the end) and the parameter list.
  - `Parse`, `EvaluateWhile`, `ReadOperand` and `ReadParameter` are methods with loops.
  - `ReadToken` is one iteration of `Parse`'s scanning loop.
- Each method is proved against a pure specification in `ShuntingYard`:
  - `Step` is one loop iteration.
  - `ReduceWhile` is `EvaluateWhile`.
  - `Run` and `ParseSpec` are the whole of `Parse`.
- `ParseProperties` proves properties of that specification:
  - the parameter list has no duplicates, is in first-occurrence order, and is kept unchanged on empty input;
  - every tree index is in range;
  - parentheses form barriers.
- `RoundTrip` proves precedence, left-associativity and grouping in one theorem.
  It covers trees whose literals are non-negative whole numbers, whose names are
  non-empty words, and whose variables are numbered in order of first use.
  - Such a tree is printed with the fewest parentheses its shape needs.
  - Parsing that text gives back the same tree.
- `Operation` is the operator table.
- `Scanner` has the tokenizer helpers and the reference list of identifiers.
- `Numbers` parses literals.
- `Tree` replaces the LINQ expression tree and its compilation:
  - `Expr` is a tagged tree;
  - `Eval` evaluates it recursively over exact rationals.
- `Examples` states some of the repository's unit-test inputs, and a few error cases, as properties of the model.

Every .NET exception the source lets escape, except `decimal`'s overflow (see "Left out"), is an `Error` value in a `Result`:
- invalid character, invalid number, empty stack (`Stack.Pop`);
- invalid cast of a character to an operation;
- parameter count, missing parameters;
- index out of range, division by zero.

## Model

In these edge cases the model follows the code:

- Only the space character is skipped. A tab or other white space inside a
  non-blank text is an invalid character.
- At the end of input, `Parse` pops the top operand as the root. Operands left
  below it are ignored, so `2 3` compiles to `3`.
- An empty or white-space text compiles to the constant 0 without clearing the
  parameter list, so the parameters of the previous parse stay in force.
- An unmatched `)` fails with an empty-stack error.
- A `(` left open fails in one of two ways:
  - with an empty-stack error (`(2+3`);
  - with an invalid cast, when the operand stack still holds two operands as the final reductions reach the `(` (`1+(2`).

| member | source | states |
|---|---|---|
| Evaluator.ExpressionEvaluator.constructor | SimpleExpressionEvaluator.Pcl/ExpressionEvaluator.cs:13-15 | a new evaluator has empty stacks and an empty parameter list |
| Evaluator.ExpressionEvaluator.Parse | SimpleExpressionEvaluator.Pcl/ExpressionEvaluator.cs:45-149 | the result and the new parameter list are exactly those of the shunting-yard specification `ParseSpec`, from the old parameter list; the scanning loop keeps the remaining run equal to the run from the cleared start |
| Evaluator.ExpressionEvaluator.ReadToken | SimpleExpressionEvaluator.Pcl/ExpressionEvaluator.cs:62-140 | one loop iteration moves the stacks, parameter list, position and previous character exactly as `Step`; on failure it returns `Step`'s error and leaves the parameter list unchanged |
| Evaluator.ExpressionEvaluator.EvaluateWhile | SimpleExpressionEvaluator.Pcl/ExpressionEvaluator.cs:202-211 | reduces while the condition holds, ending in the stacks `ReduceWhile` gives, or failing with its error (empty operand stack, or a '(' that cannot be cast) |
| Evaluator.ExpressionEvaluator.ReadOperand | SimpleExpressionEvaluator.Pcl/ExpressionEvaluator.cs:213-241 | consumes exactly the maximal literal (`OperandEnd`) and yields its constant, negated when the sign flag is set, or the number-format error |
| Evaluator.ExpressionEvaluator.ReadParameter | SimpleExpressionEvaluator.Pcl/ExpressionEvaluator.cs:249-276 | consumes the maximal run of letters, appends the name to the parameter list only when absent, and yields the array index of its first position in the list |
| Evaluator.ReadOperation | SimpleExpressionEvaluator.Pcl/ExpressionEvaluator.cs:243-247 | consuming a character yields an operation exactly when the table defines it, and the operation's symbol is that character |
| Evaluator.ExpressionEvaluator.Execute | SimpleExpressionEvaluator.Pcl/ExpressionEvaluator.cs:180-200 | a count mismatch fails with both counts; with equal counts, a parameter the map lacks fails with the missing-parameters error listing exactly the unbound parameters (never empty), and when every parameter is bound the result is the tree evaluated over the argument array built from the map; success implies equal counts and every parameter bound |
| Evaluator.ExpressionEvaluator.Evaluate | SimpleExpressionEvaluator.Pcl/ExpressionEvaluator.cs:38-43 | parses, leaving the parameter list of `ParseSpec`; a parse failure is the result, otherwise the result is executing the tree against the new list |
| Evaluator.ExpressionEvaluator.Compile | SimpleExpressionEvaluator.Pcl/ExpressionEvaluator.cs:18-29 | compiling is parsing: same tree and same parameter list as `ParseSpec`; invoking the result later is `Execute` against the list as it then stands |
| Evaluator.Missing | SimpleExpressionEvaluator.Pcl/ExpressionEvaluator.cs:189 | a name is in the result exactly when it is a parameter the argument map does not bind, so the result is empty exactly when every parameter is bound |
| Evaluator.Values | SimpleExpressionEvaluator.Pcl/ExpressionEvaluator.cs:196-198 | the argument array has one slot per parameter, and slot i holds the value bound to parameter i |
| Evaluator.NoneMissing | SimpleExpressionEvaluator.Pcl/ExpressionEvaluator.cs:189-194 | when every parameter is bound, nothing is reported missing |
| Evaluator.BindingsMatch | SimpleExpressionEvaluator.Pcl/ExpressionEvaluator.cs:184-194 | for duplicate-free parameters and a map of equal size, nothing is missing if and only if the map's names are exactly the parameter names |
| Evaluator.ExecuteBinds | SimpleExpressionEvaluator.Pcl/ExpressionEvaluator.cs:196-199 | executing the tree for parameter i gives the value the map binds to that parameter's name |
| Evaluator.ExecuteExact | SimpleExpressionEvaluator.Pcl/ExpressionEvaluator.cs:184-199 | a successful execution was given exactly one argument per parameter name and no other |
| ShuntingYard.ReduceWhile | SimpleExpressionEvaluator.Pcl/ExpressionEvaluator.cs:202-211 | on success the operator stack is a prefix of the old one (still only operators and '(' markers); each popped operator consumed one operand; the condition (`Reduces`: anything at the end of input, anything but '(' for ')', an operator of at least the given precedence for an operator) no longer holds; failure is an empty operand stack, or an invalid cast only when reducing everything |
| ShuntingYard.ReducePopOrder | SimpleExpressionEvaluator.Pcl/ExpressionEvaluator.cs:206-209 | a reduction takes the top operand as the right operand and the one below as the left operand, builds `left op right` for the top operator, and leaves the rest of both stacks unchanged |
| ShuntingYard.ReduceWhilePops | SimpleExpressionEvaluator.Pcl/ExpressionEvaluator.cs:202-211 | every operator a reduction loop pops satisfied its condition, and the operands below the ones it consumed are unchanged |
| ShuntingYard.PushConstant | SimpleExpressionEvaluator.Pcl/ExpressionEvaluator.cs:94-97 | pushing a literal succeeds exactly when the literal parses; it then ends at the end of the maximal literal (`OperandEnd`), pushes that literal's constant, records the given previous character and changes neither the operator stack nor the parameter list; otherwise it fails with the number-format error for the literal's text |
| ShuntingYard.Reduce | SimpleExpressionEvaluator.Pcl/ExpressionEvaluator.cs:206-209 | one reduction fails with an empty stack when fewer than two operands are left and with an invalid cast when the top of the operator stack is not an operator; otherwise it pops that operator and replaces the top two operands by one, leaving the operands below unchanged |
| ShuntingYard.Finish | SimpleExpressionEvaluator.Pcl/ExpressionEvaluator.cs:144-148 | the end-of-input reductions fail only with an empty stack or an invalid cast; with no operator left, the root is the top operand |
| ShuntingYard.Run | SimpleExpressionEvaluator.Pcl/ExpressionEvaluator.cs:62-149 | the scan only extends the parameter list; it fails only with a parse error, and an invalid character it reports occurs in the rest of the text |
| ShuntingYard.ParseSpec | SimpleExpressionEvaluator.Pcl/ExpressionEvaluator.cs:45-149 | blank text compiles to the constant 0 and keeps the old parameter list; every failure is a parse error, and an invalid character it reports occurs in the text |
| ShuntingYard.Step | SimpleExpressionEvaluator.Pcl/ExpressionEvaluator.cs:62-140 | each iteration consumes at least one character, keeps the operator stack to operators and '(' markers, only extends the parameter list, and never fails with an invalid cast |
| ParseProperties.InvalidCharacterStep | SimpleExpressionEvaluator.Pcl/ExpressionEvaluator.cs:137-140 | an iteration fails with an invalid character exactly when the character is no digit, letter, operator, parenthesis or space |
| ParseProperties.SpaceStep | SimpleExpressionEvaluator.Pcl/ExpressionEvaluator.cs:132-136 | a space is skipped: the position advances by one and the state is unchanged |
| ParseProperties.SignStep | SimpleExpressionEvaluator.Pcl/ExpressionEvaluator.cs:86-99 | when the iteration succeeds, a '+' or '-' before a digit was read as the literal's sign exactly when the previous character is the start marker '\0', '*', '/' or '(' (`SignContext`): it then pushes the signed literal and leaves the operator stack alone; otherwise the operator is pushed and the scan moves one character on |
| ParseProperties.ReduceWhileKeepsBounds | SimpleExpressionEvaluator.Pcl/ExpressionEvaluator.cs:202-211 | reductions keep every array index in the operand stack below the parameter count |
| ParseProperties.StepParameters | SimpleExpressionEvaluator.Pcl/ExpressionEvaluator.cs:62-140 | one iteration keeps the parameter list free of duplicates and all indices in range, and the names it adds are the identifiers it reads |
| ParseProperties.RunParameters | SimpleExpressionEvaluator.Pcl/ExpressionEvaluator.cs:62-149 | from any reachable state, the final parameter list extends the current one, has no duplicates and adds only identifiers from the rest of the text; on success it adds all of them and the tree indexes only that list |
| ParseProperties.ParseParameters | SimpleExpressionEvaluator.Pcl/ExpressionEvaluator.cs:45-149 | blank text gives the constant 0 and the old parameter list unchanged; otherwise the list has no duplicates and is a prefix of `Identifiers(text)` (each identifier once, in order of first occurrence), all of it on success, and every index in the tree is below its length |
| ParseProperties.UnclosedFails | SimpleExpressionEvaluator.Pcl/ExpressionEvaluator.cs:144 | the end-of-input reductions fail whenever a '(' is on the operator stack |
| ParseProperties.FinishUnclosed | SimpleExpressionEvaluator.Pcl/ExpressionEvaluator.cs:144-146 | a parse that reaches the end of input with an unclosed '(' fails |
| ParseProperties.CloseStopsAtBarrier | SimpleExpressionEvaluator.Pcl/ExpressionEvaluator.cs:122-126 | ')' reduces only operators above the nearest '(' and leaves that '(' on top |
| ParseProperties.CloseUnmatched | SimpleExpressionEvaluator.Pcl/ExpressionEvaluator.cs:122-126 | ')' with no '(' on the operator stack fails with an empty stack |
| RoundTrip.ParsePrint | SimpleExpressionEvaluator.Pcl/ExpressionEvaluator.cs:45-149 | for a tree whose literals are non-negative whole numbers, whose names are distinct non-empty words and whose variables are numbered in order of first use, parsing its minimally parenthesized text gives back that tree, and the names in order of first use as the parameter list, whatever the list held before: precedence, left-associativity and parentheses in one theorem |
| Scanner.OperandEnd | SimpleExpressionEvaluator.Pcl/ExpressionEvaluator.cs:219-235 | the literal starting at a digit is non-empty and stops at the end of the text or at a character ReadOperand refuses |
| Scanner.OperandEndRun | SimpleExpressionEvaluator.Pcl/ExpressionEvaluator.cs:219-235 | every character inside the literal is one ReadOperand accepts, so the literal is a maximal run |
| Scanner.NameEnd | SimpleExpressionEvaluator.Pcl/ExpressionEvaluator.cs:255-268 | the identifier is a non-empty run of letters followed by the end of the text or a non-letter |
| Scanner.PeekNextChar | SimpleExpressionEvaluator.Pcl/ExpressionEvaluator.cs:151-158 | the character at the position, or '\0' past the end of the text |
| Scanner.AddParameter | SimpleExpressionEvaluator.Pcl/ExpressionEvaluator.cs:270-273 | the name is in the list afterwards, the old list is a prefix, nothing else is added, and no duplicate is created |
| Scanner.IndexOf | SimpleExpressionEvaluator.Pcl/ExpressionEvaluator.cs:275 | the index is in range, holds the name, and no earlier entry holds it |
| Scanner.IndexOfDistinct | SimpleExpressionEvaluator.Pcl/ExpressionEvaluator.cs:275 | in a duplicate-free list the index found for entry i is i |
| Scanner.Identifiers | SimpleExpressionEvaluator.Pcl/ExpressionEvaluator.cs:74-80 | the text's identifiers each once, words of letters only, exactly the identifier tokens of the text |
| Numbers.LiteralValue | SimpleExpressionEvaluator.Pcl/ExpressionEvaluator.cs:237-240 | failure is the number-format error for that text; a nonzero value is negative exactly when the sign flag is set; a digit string reads as its base-ten value |
| Numbers.DecimalParse | SimpleExpressionEvaluator.Pcl/ExpressionEvaluator.cs:240 | a successful parse is non-negative, failure names the text, and a digit string reads as its base-ten value |
| Numbers.DecimalParseFraction | SimpleExpressionEvaluator.Pcl/ExpressionEvaluator.cs:240 | digits, a decimal point and digits read as the whole part plus the fraction digits over the matching power of ten |
| Numbers.LiteralNegation | SimpleExpressionEvaluator.Pcl/ExpressionEvaluator.cs:238-240 | a leading minus sign fails exactly when the unsigned literal fails, and otherwise negates its value, whatever the literal's form |
| Numbers.DoubleParse | SimpleExpressionEvaluator.Pcl/ExpressionEvaluator.cs:238 | a successful parse is non-negative and failure names the text |
| Operation.Operation.Precedence | SimpleExpressionEvaluator.Pcl/ExpressionEvaluator.cs:306-309 | precedence is 1 or 2, and 2 exactly for multiplication and division |
| Operation.IsDefined | SimpleExpressionEvaluator.Pcl/ExpressionEvaluator.cs:350-353 | a defined operator character lies between '*' and '/' and is neither ',' nor '.', so it is no digit, letter, parenthesis or space |
| Operation.TableSymbols | SimpleExpressionEvaluator.Pcl/ExpressionEvaluator.cs:311-317 | a character is defined exactly when it is the symbol of some operation in the table |
| Operation.FromChar | SimpleExpressionEvaluator.Pcl/ExpressionEvaluator.cs:331-343 | the cast succeeds exactly on the four table characters, gives back the operation with that symbol, and otherwise fails with an invalid cast |
| Operation.CastSymbol | SimpleExpressionEvaluator.Pcl/ExpressionEvaluator.cs:311-317 | looking an operation up by its own symbol gives it back |
| Operation.Operation.Apply | SimpleExpressionEvaluator.Pcl/ExpressionEvaluator.cs:345-348 | the node combines the two operands with the operation's own node kind, left operand on the left |
| Tree.Combine | SimpleExpressionEvaluator.Pcl/ExpressionEvaluator.cs:306-309 | only division by zero fails; subtraction and division are inverted by addition and multiplication |
| Tree.Eval | SimpleExpressionEvaluator.Pcl/ExpressionEvaluator.cs:146-147 | failure is division by zero in a tree that divides, or an out-of-range index in a tree with one |
| Tree.EvalTotal | SimpleExpressionEvaluator.Pcl/ExpressionEvaluator.cs:196-199 | a tree whose indices are in range and which does not divide always evaluates |
| Tree.EvalReadsOnlyIndexed | SimpleExpressionEvaluator.Pcl/ExpressionEvaluator.cs:196-199 | evaluation depends only on the array slots the tree indexes |
| Examples.PrecedenceExample | SimpleExpressionEvaluator.Tests/ExpressionEvaluatorTests.cs:74 | `50-5*3*2+7` compiles to `(50-((5*3)*2))+7`, which evaluates to 27 |
| Examples.ParenthesesExample | SimpleExpressionEvaluator.Tests/ExpressionEvaluatorTests.cs:85 | `2*(5+3)` compiles to `2*(5+3)`, which evaluates to 16 |
| Examples.DecimalSumExample | SimpleExpressionEvaluator.Tests/ExpressionEvaluatorTests.cs:41 | `2.7+3.2` compiles to the sum of the exact literals 2.7 and 3.2, which evaluates to 5.9 |
| Examples.SignExample | SimpleExpressionEvaluator.Pcl/ExpressionEvaluator.cs:86-99 | in `2*-3` the '-' after '*' is the sign of the literal: the tree is `2 * (-3)` |
| Examples.InvalidCharacterExample | SimpleExpressionEvaluator.Pcl/ExpressionEvaluator.cs:137-140 | `2^3` fails with the invalid character '^' |
| Examples.PlusMinusExample | SimpleExpressionEvaluator.Pcl/ExpressionEvaluator.cs:86-105 | `2+-3` fails with an empty stack: after '+' the '-' is not a sign, and the reduction it triggers pops '+' with a single operand |
| Examples.CastExample | SimpleExpressionEvaluator.Pcl/ExpressionEvaluator.cs:144 | `1+(2` fails in the final reductions with an invalid cast of '(' |
| Examples.DivideByZeroExample | SimpleExpressionEvaluator.Pcl/ExpressionEvaluator.cs:309 | `1/0` compiles, and running it fails with a division by zero |
| Examples.PairParses | SimpleExpressionEvaluator.Tests/ExpressionEvaluatorTests.cs:102 | `a+b` compiles to the sum of array slots 0 and 1, with parameter list [a, b] |
| Examples.PairExecutes | SimpleExpressionEvaluator.Tests/ExpressionEvaluatorTests.cs:102 | run with a = 2.6 and b = 5.7 that tree gives 8.3 |
| Examples.SumScenario | SimpleExpressionEvaluator.Tests/ExpressionEvaluatorTests.cs:102 | Evaluate on a new evaluator of `a+b` with a = 2.6 and b = 5.7 gives 8.3 |
| Examples.MissingScenario | SimpleExpressionEvaluator.Pcl/ExpressionEvaluator.cs:189-194 | Evaluate of `a+b` with arguments a and c fails, naming b as missing |
| Examples.ExtraScenario | SimpleExpressionEvaluator.Pcl/ExpressionEvaluator.cs:184-187 | Evaluate of `a+b` with three arguments fails with the count error (2 expected, 3 given) |
| Examples.StaleParametersScenario | SimpleExpressionEvaluator.Pcl/ExpressionEvaluator.cs:47-50 | after compiling `a+b`, evaluating the empty text with no arguments fails with the count error (2 expected, 0 given), because the parameter list is not cleared |

## Left out

- `ParseArguments` (ExpressionEvaluator.cs:160-178) and `IsNumeric` (279-297) are left out. They discover arguments by reflection over an object's public properties. `Evaluate(string, object)` (31-36) is therefore modelled only through the map-taking `Evaluate`. The closure that `Compile` returns is modelled as `Execute` called later on the compiled tree.
- `DynamicExpressionEvaluator.cs` (named arguments through dynamic dispatch) is not part of this model.
- Building a LINQ expression tree and compiling it to a delegate is replaced by the `Tree.Expr` datatype and the recursive `Tree.Eval`.
- Numbers:
  - Values are exact rationals: `decimal`'s 28-digit precision and its rounding are not modelled.
  - `decimal` overflow is not modelled. The source throws `OverflowException` when the decimal addition, subtraction, multiplication or division of the compiled tree leaves the `decimal` range, when `decimal.Parse` reads a literal beyond it, and when the double-to-decimal conversion of an exponent literal does. In the model these succeed with the exact value, and no `Error` stands for them.
  - The binary rounding of `double.Parse` and of the double-to-decimal conversion is not modelled: an exponent literal is `mantissa * 10^exponent` exactly.
- `decimal.Parse` and `double.Parse` are modelled only on the characters `ReadOperand` can collect: digits, '.', exponent markers, and a sign after an exponent marker.
- Character classes:
  - `char.IsDigit` and `char.IsLetter` accept only ASCII digits and letters; the other Unicode digits and letters are not modelled.
  - A Dafny `char` is a Unicode scalar value, while `StringReader` yields UTF-16 code units. For a character outside the Basic Multilingual Plane the source reports an invalid character for the high surrogate; the model reports the whole character.
  - `string.IsNullOrWhiteSpace` uses the full set of `char.IsWhiteSpace`: space, tab to carriage return, next-line, no-break space, the Ogham space mark, the spaces U+2000 to U+200A, the line and paragraph separators, the narrow no-break space, the medium mathematical space and the ideographic space.
- RoundTrip.ParsePrint: the round trip is not claimed for every tree. A negative literal cannot be read back: the minimal text of 2 + (-3) is `2+-3`, where the '-' after '+' is the subtraction operator and its reduction finds a single operand (`Examples.PlusMinusExample`). A fractional literal is outside the theorem, which prints literals as whole numbers.
- The `StringReader` is replaced by a position in the text. A null expression or a null argument map cannot be expressed: an empty text or an empty map stands for them.
- Exception types and messages become `Errors.Error` values. Message texts are not modelled.
- Evaluator.ExpressionEvaluator.Parse: does not state what the two stacks hold once it returns. Only the result and the parameter list are observable by later calls, and the next non-blank parse clears both stacks.
- Evaluator.ExpressionEvaluator.ReadToken: on failure it states only the returned error and the unchanged parameter list, not the partial state of the stacks.
- Concurrency: the evaluator's fields are shared mutable state, and calls from several threads are not modelled.
