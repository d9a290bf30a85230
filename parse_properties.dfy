/** What every parse guarantees about the parameter list and the indices in
    the tree: the list holds each identifier of the text once, in order of first
    occurrence, and every index in the compiled tree is a position in it. */
module ParseProperties {
  import opened Errors
  import opened Chars
  import opened Tree
  import opened Operation
  import opened Scanner
  import opened ShuntingYard

  predicate AllBelow(exprs: seq<Expr>, n: nat) {
    forall i :: 0 <= i < |exprs| ==> VarsBelow(exprs[i], n)
  }

  lemma {:induction false} VarsBelowGrows(e: Expr, n: nat, n': nat)
    requires VarsBelow(e, n) && n <= n'
    ensures VarsBelow(e, n')
  {
    match e
    case Lit(_) =>
    case Var(_) =>
    case Bin(_, l, r) => VarsBelowGrows(l, n, n'); VarsBelowGrows(r, n, n');
  }

  /** Reductions only combine nodes, so they keep every index in range. */
  lemma {:induction false} ReduceWhileKeepsBounds(cond: Condition, exprs: seq<Expr>, ops: seq<char>, n: nat)
    requires OperatorChars(ops) && AllBelow(exprs, n)
    ensures var r := ReduceWhile(cond, exprs, ops); r.Ok? ==> AllBelow(r.value.0, n)
    decreases |ops|
  {
    if Holds(cond, ops) {
      match Reduce(exprs, ops)
      case Err(_) =>
      case Ok((exprs', ops')) =>
        assert AllBelow(exprs', n) by {
          assert exprs' == exprs[..|exprs| - 2] + [exprs'[|exprs'| - 1]];
          assert VarsBelow(exprs[|exprs| - 2], n) && VarsBelow(exprs[|exprs| - 1], n);
        }
        ReduceWhileKeepsBounds(cond, exprs', ops', n);
    }
  }

  /** One loop iteration keeps the parameter list free of duplicates, keeps
      every stacked index in range, and accounts for the identifiers it reads. */
  lemma StepParameters(text: string, pos: nat, m: Machine)
    requires pos < |text| && OperatorChars(m.ops) && Distinct(m.params) && AllBelow(m.exprs, |m.params|)
    requires Step(text, pos, m).Ok?
    ensures var (next, m') := Step(text, pos, m).value;
      Distinct(m'.params) && AllBelow(m'.exprs, |m'.params|)
      && AddAll(m'.params, Names(text, next)) == AddAll(m.params, Names(text, pos))
  {
    var (next, m') := Step(text, pos, m).value;
    var c := text[pos];
    if IsDigit(c) {
      assert Names(text, pos) == Names(text, next);
    } else if IsLetter(c) {
      NameParameters(text, pos, m, next, m');
    } else {
      assert Names(text, pos) == Names(text, pos + 1);
      if IsDefined(c) {
        var op := FromChar(c).value;
        if (op == Subtraction || op == Addition) && IsDigit(PeekNextChar(text, pos + 1)) && SignContext(m.prev) {
          assert Names(text, pos + 1) == Names(text, next);
        } else {
          ReduceWhileKeepsBounds(WhileAtLeast(op.Precedence()), m.exprs, m.ops, |m.params|);
        }
      } else if c == ')' {
        ReduceWhileKeepsBounds(UntilOpenParen, m.exprs, m.ops, |m.params|);
      }
    }
  }

  /** The identifier case of StepParameters. */
  lemma {:induction false} NameParameters(text: string, pos: nat, m: Machine, next: nat, m': Machine)
    requires pos < |text| && IsLetter(text[pos]) && Distinct(m.params) && AllBelow(m.exprs, |m.params|)
    requires next == NameEnd(text, pos)
    requires m' == m.(exprs := m.exprs + [Var(IndexOf(AddParameter(m.params, text[pos..next]), text[pos..next]))],
                      params := AddParameter(m.params, text[pos..next]), prev := text[pos])
    ensures Distinct(m'.params) && AllBelow(m'.exprs, |m'.params|)
    ensures AddAll(m'.params, Names(text, next)) == AddAll(m.params, Names(text, pos))
  {
    var name := text[pos..next];
    var ns := Names(text, pos);
    assert ns == [name] + Names(text, next);
    assert ns[0] == name && ns[1..] == Names(text, next);
    forall i | 0 <= i < |m.exprs|
      ensures VarsBelow(m.exprs[i], |m'.params|)
    {
      VarsBelowGrows(m.exprs[i], |m.params|, |m'.params|);
    }
    assert m'.exprs == m.exprs + [m'.exprs[|m'.exprs| - 1]];
  }

  /** From any reachable state, the parse leaves a duplicate-free parameter
      list that extends the current one by identifiers read from the rest of the
      text; when it succeeds, by all of them, and the tree indexes only that list. */
  lemma {:induction false} RunParameters(text: string, pos: nat, m: Machine)
    requires pos <= |text| && OperatorChars(m.ops) && Distinct(m.params) && AllBelow(m.exprs, |m.params|)
    ensures var o := Run(text, pos, m);
      && m.params <= o.params
      && o.params <= AddAll(m.params, Names(text, pos))
      && Distinct(o.params)
      && (o.result.Ok? ==> o.params == AddAll(m.params, Names(text, pos)) && VarsBelow(o.result.value, |o.params|))
    decreases |text| - pos
  {
    if pos == |text| {
      assert Names(text, pos) == [];
      ReduceWhileKeepsBounds(UntilEmpty, m.exprs, m.ops, |m.params|);
    } else {
      match Step(text, pos, m)
      case Err(_) =>
      case Ok((next, m')) =>
        StepParameters(text, pos, m);
        RunParameters(text, next, m');
    }
  }

  /** Parse on an empty or white-space text yields the constant 0 and leaves the
      parameter list as it was. Any other text yields a list without duplicates
      that is a prefix of the text's identifiers in order of first occurrence,
      all of them when the parse succeeds, and the compiled tree indexes only
      positions of that list. */
  lemma ParseParameters(text: string, params: seq<string>)
    ensures var o := ParseSpec(text, params);
      && (IsNullOrWhiteSpace(text) ==> o == Outcome(Ok(Lit(0.0)), params))
      && (!IsNullOrWhiteSpace(text) ==>
            && Distinct(o.params)
            && o.params <= Identifiers(text)
            && (o.result.Ok? ==> o.params == Identifiers(text) && VarsBelow(o.result.value, |o.params|)))
  {
    if !IsNullOrWhiteSpace(text) {
      RunParameters(text, 0, Start);
    }
  }

  /** The final reductions cannot get past a '(' left on the operator stack:
      they fail, with an empty operand stack or with the invalid cast of '('. */
  lemma {:induction false} UnclosedFails(exprs: seq<Expr>, ops: seq<char>)
    requires OperatorChars(ops) && '(' in ops
    ensures ReduceWhile(UntilEmpty, exprs, ops).Err?
    decreases |ops|
  {
    assert Holds(UntilEmpty, ops);
    match Reduce(exprs, ops)
    case Err(_) =>
    case Ok((exprs', ops')) =>
      assert ops' == ops[..|ops| - 1] && ops[|ops| - 1] != '(';
      assert '(' in ops' by {
        var i :| 0 <= i < |ops| && ops[i] == '(';
        assert ops'[i] == '(';
      }
      UnclosedFails(exprs', ops');
  }

  /** Parse fails when a '(' is still open at the end of the text. */
  lemma {:induction false} FinishUnclosed(m: Machine)
    requires OperatorChars(m.ops) && '(' in m.ops
    ensures Finish(m).Err?
  {
    UnclosedFails(m.exprs, m.ops);
  }

  /** A ')' reduces down to the nearest '(' and no further: every operator it
      pops lies above that '(', which is left on top to be popped. */
  lemma {:induction false} CloseStopsAtBarrier(exprs: seq<Expr>, ops: seq<char>)
    requires OperatorChars(ops) && '(' in ops
    ensures var r := ReduceWhile(UntilOpenParen, exprs, ops);
      r.Ok? ==> |r.value.1| > 0 && r.value.1[|r.value.1| - 1] == '(' && forall k :: |r.value.1| <= k < |ops| ==> ops[k] != '('
  {
    var r := ReduceWhile(UntilOpenParen, exprs, ops);
    ReduceWhilePops(UntilOpenParen, exprs, ops);
    if r.Ok? {
      var rest := r.value.1;
      var i :| 0 <= i < |ops| && ops[i] == '(';
      assert !Reduces(UntilOpenParen, ops[i]);
      assert i < |rest|;
      assert rest[i] == '(';
    }
  }

  /** The characters the scanning loop has a rule for. */
  predicate TokenChar(c: char) {
    IsDigit(c) || IsLetter(c) || IsDefined(c) || c == '(' || c == ')' || c == ' '
  }

  /** A step fails naming the character at `pos` exactly when that character is
      not a digit, a letter, an operator, a parenthesis or a space. */
  lemma {:induction false} InvalidCharacterStep(text: string, pos: nat, m: Machine)
    requires pos < |text| && OperatorChars(m.ops)
    ensures Step(text, pos, m) == Err(InvalidCharacter(text[pos])) <==> !TokenChar(text[pos])
  {
  }

  /** A space is skipped: the state, previous character included, is unchanged. */
  lemma {:induction false} SpaceStep(text: string, pos: nat, m: Machine)
    requires pos < |text| && OperatorChars(m.ops) && text[pos] == ' '
    ensures Step(text, pos, m) == Ok((pos + 1, m))
  {
  }

  /** A '+' or '-' followed by a digit is the sign of that literal exactly when
      the previous character is none, '*', '/' or '(': then the signed literal is
      pushed and the operator stack is untouched; otherwise the character is an
      operator and is pushed on the operator stack. */
  lemma {:induction false} SignStep(text: string, pos: nat, m: Machine)
    requires pos + 1 < |text| && OperatorChars(m.ops)
    requires (text[pos] == '+' || text[pos] == '-') && IsDigit(text[pos + 1])
    ensures var r := Step(text, pos, m);
      r.Ok? ==> (SignContext(m.prev) <==> r.value.0 > pos + 1)
    ensures var r := Step(text, pos, m);
      SignContext(m.prev) && r.Ok? ==>
        && r.value.1.ops == m.ops
        && r.value.1.exprs == m.exprs + [Constant(text, pos + 1, text[pos] == '-').value]
    ensures var r := Step(text, pos, m);
      !SignContext(m.prev) && r.Ok? ==>
        && r.value.0 == pos + 1
        && |r.value.1.ops| > 0 && r.value.1.ops[|r.value.1.ops| - 1] == text[pos]
        && r.value.1.prev == text[pos]
  {
  }

  /** A ')' with no '(' on the operator stack fails with an empty stack. */
  lemma {:induction false} CloseUnmatched(text: string, pos: nat, m: Machine)
    requires pos < |text| && text[pos] == ')' && OperatorChars(m.ops) && '(' !in m.ops
    ensures Step(text, pos, m) == Err(EmptyStack)
  {
  }
}
