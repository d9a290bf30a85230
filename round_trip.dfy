/** Precedence, left-associativity and parentheses, stated as a round trip:
    printing a tree with the fewest parentheses its shape needs and parsing the
    text gives the tree back. The proof follows the two stacks through the
    printed text.

    Several recursive definitions here come in layers that only call one
    another (Printable / PrintableNode, Print / PrintNode, Moves / Hop / Jump,
    and so on). The layers mean the same as a single definition; they exist so
    that the verifier unfolds one level of the recursion at a time, which keeps
    each proof obligation small. */
module RoundTrip {
  import opened Errors
  import opened Chars
  import opened Tree
  import opened Operation
  import opened Numbers
  import opened Scanner
  import opened ShuntingYard

  /** How tightly a node binds: its operator's precedence, or 3 for a leaf. */
  function Strength(e: Expr): (s: nat)
    ensures 1 <= s <= 3
  {
    if e.Bin? then OfKind(e.kind).Precedence() else 3
  }

  /** A left operand is parenthesized when it binds more loosely than its
      parent; a right operand also when it binds equally (left-associativity). */
  predicate WrapLeft(e: Expr)
    requires e.Bin?
  {
    Strength(e.left) < Strength(e)
  }

  predicate WrapRight(e: Expr)
    requires e.Bin?
  {
    Strength(e.right) <= Strength(e)
  }

  /** Literals are non-negative integers and indices name entries of `names`. */
  predicate Printable(e: Expr, names: seq<string>)
    decreases e, 1
  {
    PrintableNode(e, names)
  }

  predicate PrintableNode(e: Expr, names: seq<string>)
    decreases e, 0
  {
    match e
    case Lit(v) => v >= 0.0 && v == v.Floor as real
    case Var(i) => i < |names| && |names[i]| > 0
    case Bin(_, l, r) => Printable(l, names) && Printable(r, names)
  }

  /** Variable names are distinct words. */
  predicate ValidNames(names: seq<string>) {
    Distinct(names) && forall i :: 0 <= i < |names| ==> IsWord(names[i])
  }

  /** The number of distinct indices met after reading `e` from left to right,
      starting with `k` already met. */
  function NextFresh(e: Expr, k: nat): (k': nat)
    ensures k <= k'
    decreases e, 1
  {
    NextFreshNode(e, k)
  }

  function NextFreshNode(e: Expr, k: nat): (k': nat)
    ensures k <= k'
    decreases e, 0
  {
    match e
    case Lit(_) => k
    case Var(i) => if i == k then k + 1 else k
    case Bin(_, l, r) => NextFresh(r, NextFresh(l, k))
  }

  /** Indices are numbered in order of first use: reading from left to right
      with `k` indices met, each index is an old one or exactly the next one. */
  predicate CanonicalFrom(e: Expr, k: nat)
    decreases e, 1
  {
    CanonicalNode(e, k)
  }

  predicate CanonicalNode(e: Expr, k: nat)
    decreases e, 0
  {
    match e
    case Lit(_) => true
    case Var(i) => i <= k
    case Bin(_, l, r) => CanonicalFrom(l, k) && CanonicalFrom(r, NextFresh(l, k))
  }

  predicate Canonical(e: Expr, names: seq<string>) {
    CanonicalFrom(e, 0) && NextFresh(e, 0) == |names|
  }

  function Wrap(s: string, wrap: bool): string {
    if wrap then "(" + s + ")" else s
  }

  /** The text of `e` with the fewest parentheses and no spaces. */
  function Print(e: Expr, names: seq<string>): (s: string)
    requires Printable(e, names)
    ensures |s| > 0
    decreases e, 1
  {
    PrintNode(e, names)
  }

  function PrintNode(e: Expr, names: seq<string>): (s: string)
    requires PrintableNode(e, names)
    ensures |s| > 0
    decreases e, 0
  {
    match e
    case Lit(v) => NatToString(v.Floor as nat)
    case Var(i) => names[i]
    case Bin(k, l, r) =>
      Wrap(Print(l, names), WrapLeft(e)) + [OfKind(k).Symbol()] + Wrap(Print(r, names), WrapRight(e))
  }

  /** The operands left on the stack once the text of `e` is read and before
      the character after it is: the left operand of each operator down the
      right spine, then the last operand. */
  function PendingExprs(e: Expr, wrap: bool): seq<Expr>
    decreases e, 1
  {
    PendingExprsNode(e, wrap)
  }

  function PendingExprsNode(e: Expr, wrap: bool): seq<Expr>
    decreases e, 0
  {
    if !wrap && e.Bin? then [e.left] + PendingExprs(e.right, WrapRight(e)) else [e]
  }

  /** The operators left on the stack at that point; all bind at least as
      tightly as `e`. */
  function PendingOps(e: Expr, wrap: bool): (ops: seq<char>)
    ensures wrap ==> |ops| == 0
    ensures forall i :: 0 <= i < |ops| ==> IsDefined(ops[i]) && Strength(e) <= FromChar(ops[i]).value.Precedence()
    decreases e, 1
  {
    PendingOpsNode(e, wrap)
  }

  function PendingOpsNode(e: Expr, wrap: bool): (ops: seq<char>)
    ensures wrap ==> |ops| == 0
    ensures forall i :: 0 <= i < |ops| ==> IsDefined(ops[i]) && Strength(e) <= FromChar(ops[i]).value.Precedence()
    decreases e, 0
  {
    if !wrap && e.Bin? then
      var rest := PendingOps(e.right, WrapRight(e));
      CastSymbol(OfKind(e.kind));
      assert forall i :: 0 <= i < |rest| ==> Strength(e) <= FromChar(rest[i]).value.Precedence();
      [OfKind(e.kind).Symbol()] + rest
    else []
  }

  /** The previous significant character once the text of `e` is read. */
  function After(e: Expr, names: seq<string>, wrap: bool): char
    requires Printable(e, names)
    decreases e, 1
  {
    AfterNode(e, names, wrap)
  }

  function AfterNode(e: Expr, names: seq<string>, wrap: bool): char
    requires PrintableNode(e, names)
    decreases e, 0
  {
    if wrap then ')'
    else
      match e
      case Lit(v) => NatToString(v.Floor as nat)[0]
      case Var(i) => names[i][0]
      case Bin(_, _, r) => After(r, names, WrapRight(e))
  }

  /** The characters that can follow an operand in printed text. */
  predicate FollowsOperand(c: char) {
    IsDefined(c) || c == ')'
  }

  /** The precedence the top of the operator stack imposes: 0 for an empty
      stack or a '(' barrier. */
  function TopStrength(ops: seq<char>): nat
    requires OperatorChars(ops)
  {
    if |ops| == 0 || ops[|ops| - 1] == '(' then 0 else FromChar(ops[|ops| - 1]).value.Precedence()
  }

  /** Scanning from `pos` in state `m` reaches `end` in state `m'`: either
      nothing is left to scan, or the scan moves on. */
  predicate Reaches(text: string, pos: nat, m: Machine, end: nat, m': Machine)
    requires pos <= end <= |text| && OperatorChars(m.ops)
    decreases end - pos, 1, 0
  {
    (pos == end && m == m') || (pos < end && Moves(text, pos, m, end, m'))
  }

  /** The step at `pos` succeeds without passing `end`, and the scan reaches
      `end` in state `m'` from there. */
  predicate Moves(text: string, pos: nat, m: Machine, end: nat, m': Machine)
    requires pos < end <= |text| && OperatorChars(m.ops)
    decreases end - pos, 0, 2
  {
    Hop(text, pos, m, end, m')
  }

  predicate Hop(text: string, pos: nat, m: Machine, end: nat, m': Machine)
    requires pos < end <= |text| && OperatorChars(m.ops)
    decreases end - pos, 0, 1
  {
    Jump(text, pos, m, end, m')
  }

  predicate Jump(text: string, pos: nat, m: Machine, end: nat, m': Machine)
    requires pos < end <= |text| && OperatorChars(m.ops)
    decreases end - pos, 0, 0
  {
    match Step(text, pos, m)
    case Err(_) => false
    case Ok((next, m2)) => next <= end && Reaches(text, next, m2, end, m')
  }

  lemma {:induction false} Stay(text: string, pos: nat, m: Machine)
    requires pos <= |text| && OperatorChars(m.ops)
    ensures Reaches(text, pos, m, pos, m)
  {
  }

  /** A successful step reaches the state it produces. */
  lemma {:induction false} OneStep(text: string, pos: nat, m: Machine, next: nat, m': Machine)
    requires pos < next <= |text| && OperatorChars(m.ops) && OperatorChars(m'.ops)
    requires Step(text, pos, m) == Ok((next, m'))
    ensures Reaches(text, pos, m, next, m')
  {
    Stay(text, next, m');
    assert Jump(text, pos, m, next, m');
    assert Hop(text, pos, m, next, m');
  }

  /** Two scans that meet compose. */
  lemma {:induction false} Chain(text: string, a: nat, ma: Machine, b: nat, mb: Machine, c: nat, mc: Machine)
    requires a <= b <= c <= |text| && OperatorChars(ma.ops) && OperatorChars(mb.ops)
    requires Reaches(text, a, ma, b, mb) && Reaches(text, b, mb, c, mc)
    ensures Reaches(text, a, ma, c, mc)
    decreases b - a
  {
    if a < b {
      assert Hop(text, a, ma, b, mb);
      assert Jump(text, a, ma, b, mb);
      match Step(text, a, ma)
      case Ok((next, m2)) =>
        Chain(text, next, m2, b, mb, c, mc);
        assert Jump(text, a, ma, c, mc);
        assert Hop(text, a, ma, c, mc);
    }
  }

  /** A scan that reaches `end` ends as the scan from `end` does. */
  lemma {:induction false} ReachesRun(text: string, pos: nat, m: Machine, end: nat, m': Machine)
    requires pos <= end <= |text| && OperatorChars(m.ops) && OperatorChars(m'.ops)
    requires Reaches(text, pos, m, end, m')
    ensures Run(text, pos, m) == Run(text, end, m')
    decreases end - pos
  {
    if pos < end {
      assert Hop(text, pos, m, end, m');
      assert Jump(text, pos, m, end, m');
      match Step(text, pos, m)
      case Ok((next, m2)) =>
        ReachesRun(text, next, m2, end, m');
    }
  }

  /** One reduction folds the two operands of `e` with its operator. */
  lemma {:induction false} ReduceNode(cond: Condition, exprs: seq<Expr>, ops: seq<char>, e: Expr)
    requires e.Bin? && OperatorChars(ops) && Reduces(cond, OfKind(e.kind).Symbol())
    ensures OperatorChars(ops + [OfKind(e.kind).Symbol()])
    ensures ReduceWhile(cond, exprs + [e.left] + [e.right], ops + [OfKind(e.kind).Symbol()]) == ReduceWhile(cond, exprs + [e], ops)
  {
    var symbol := OfKind(e.kind).Symbol();
    CastSymbol(OfKind(e.kind));
    var before := exprs + [e.left] + [e.right];
    assert before[..|before| - 2] == exprs && before[|before| - 2] == e.left && before[|before| - 1] == e.right;
    assert (ops + [symbol])[..|ops|] == ops;
    assert Holds(cond, ops + [symbol]);
    assert Reduce(before, ops + [symbol]) == Ok((exprs + [e], ops));
  }

  /** Whether `cond` reduces every operator binding at least `strength` tightly. */
  predicate ReducesFrom(cond: Condition, strength: nat) {
    match cond
    case UntilEmpty => true
    case UntilOpenParen => true
    case WhileAtLeast(p) => p <= strength
  }

  /** Once the reductions triggered by a character reach the pending operators
      of `e`, they fold them all into `e` itself. */
  lemma {:induction false} Collapse(cond: Condition, exprs: seq<Expr>, ops: seq<char>, e: Expr, wrap: bool)
    requires OperatorChars(ops) && (!wrap ==> ReducesFrom(cond, Strength(e)))
    ensures OperatorChars(ops + PendingOps(e, wrap))
    ensures ReduceWhile(cond, exprs + PendingExprs(e, wrap), ops + PendingOps(e, wrap)) == ReduceWhile(cond, exprs + [e], ops)
    decreases e
  {
    if !wrap && e.Bin? {
      var symbol := OfKind(e.kind).Symbol();
      var wr := WrapRight(e);
      CastSymbol(OfKind(e.kind));
      ReduceNode(cond, exprs, ops, e);
      Collapse(cond, exprs + [e.left], ops + [symbol], e.right, wr);
      PendingBinary(exprs, ops, e);
    } else {
      assert ops + PendingOps(e, wrap) == ops;
    }
  }

  /** A run of digits followed by an operator, a ')' or the end is one literal. */
  lemma {:induction false} DigitsEnd(text: string, pos: nat, s: string)
    requires |s| > 0 && AllDigits(s) && At(text, pos, s) && Ends(text, pos + |s|)
    ensures IsDigit(text[pos]) && OperandEnd(text, pos) == pos + |s|
  {
    assert text[pos] == s[0];
    var end := OperandEnd(text, pos);
    OperandEndRun(text, pos);
    forall j | pos <= j < pos + |s| ensures OperandChar(text, pos, j) {
      assert text[j] == s[j - pos];
    }
    if pos + |s| < |text| {
      assert text[pos..pos + |s|][|s| - 1] == s[|s| - 1];
      assert !OperandChar(text, pos, pos + |s|);
    }
    assert end == pos + |s|;
  }

  /** A step at a digit pushes the constant read there and moves past it. */
  lemma {:induction false} DigitStep(text: string, pos: nat, m: Machine, lit: Expr, end: nat, c: char)
    requires pos < |text| && IsDigit(text[pos]) && OperatorChars(m.ops)
    requires Constant(text, pos, false) == Ok(lit) && OperandEnd(text, pos) == end && text[pos] == c
    ensures end <= |text| && Reaches(text, pos, m, end, m.(exprs := m.exprs + [lit], prev := c))
  {
    OneStep(text, pos, m, end, m.(exprs := m.exprs + [lit], prev := c));
  }

  /** A run of digits followed by an operator, a ')' or the end reads back as
      its value. */
  lemma {:induction false} LiteralConstant(text: string, pos: nat, s: string)
    requires |s| > 0 && AllDigits(s) && At(text, pos, s) && Ends(text, pos + |s|)
    ensures IsDigit(text[pos]) && text[pos] == s[0] && OperandEnd(text, pos) == pos + |s|
    ensures Constant(text, pos, false) == Ok(Lit(DigitsValue(s) as real))
  {
    DigitsEnd(text, pos, s);
    assert text[pos..OperandEnd(text, pos)] == s;
  }

  /** Reading a run of digits pushes its value. */
  lemma {:induction false} LiteralStep(text: string, pos: nat, m: Machine, s: string, v: nat, end: nat, c: char, m': Machine)
    requires OperatorChars(m.ops)
    requires |s| > 0 && AllDigits(s) && DigitsValue(s) == v && At(text, pos, s) && Ends(text, pos + |s|)
    requires end == pos + |s| && c == s[0] && m' == m.(exprs := m.exprs + [Lit(v as real)], prev := c)
    ensures end <= |text| && Reaches(text, pos, m, end, m')
  {
    LiteralConstant(text, pos, s);
    DigitStep(text, pos, m, Lit(v as real), end, c);
  }

  /** Reading a printed name pushes its index: an old name keeps the list,
      the next new name is appended to it. */
  lemma {:induction false} NameStep(text: string, pos: nat, m: Machine, names: seq<string>, i: nat)
    requires OperatorChars(m.ops) && ValidNames(names)
    requires i < |names| && i <= |m.params| <= |names| && m.params == names[..|m.params|]
    requires var s := names[i];
      pos + |s| <= |text| && text[pos..pos + |s|] == s
      && (pos + |s| == |text| || FollowsOperand(text[pos + |s|]))
    ensures var s := names[i];
      var k' := if i == |m.params| then i + 1 else |m.params|;
      Reaches(text, pos, m, pos + |s|, m.(exprs := m.exprs + [Var(i)], params := names[..k'], prev := s[0]))
  {
    var s := names[i];
    var k := |m.params|;
    assert IsWord(s);
    assert text[pos] == s[0];
    assert !IsDigit(text[pos]) && IsLetter(text[pos]);
    var end := NameEnd(text, pos);
    assert end == pos + |s|;
    assert text[pos..end] == s;
    var params := AddParameter(m.params, s);
    if i < k {
      assert names[..k][i] == s;
      assert params == m.params;
      IndexOfDistinct(names[..k], i);
    } else {
      assert s !in names[..k] by {
        forall j | 0 <= j < k ensures names[..k][j] != s { assert names[..k][j] == names[j]; }
      }
      assert params == names[..k + 1];
      IndexOfDistinct(names[..k + 1], k);
    }
    var k' := if i == k then i + 1 else k;
    OneStep(text, pos, m, pos + |s|, m.(exprs := m.exprs + [Var(i)], params := names[..k'], prev := s[0]));
  }

  /** An operand ending at `end` is followed by the end of the text, an
      operator or ')'. */
  predicate Ends(text: string, end: nat) {
    end <= |text| && (end == |text| || FollowsOperand(text[end]))
  }

  /** `text` holds `s` from `pos` on. */
  predicate At(text: string, pos: nat, s: string) {
    pos + |s| <= |text| && text[pos..pos + |s|] == s
  }

  /** Text matching `a + b` is text matching `a` followed by text matching `b`. */
  lemma {:induction false} SplitText(text: string, pos: nat, a: string, b: string)
    requires At(text, pos, a + b)
    ensures At(text, pos, a) && At(text, pos + |a|, b)
  {
    assert text[pos..pos + |a|] == (a + b)[..|a|];
    assert text[pos + |a|..pos + |a| + |b|] == (a + b)[|a|..];
  }

  /** Text matching a one-character string holds that character. */
  lemma {:induction false} CharText(text: string, pos: nat, c: char)
    requires At(text, pos, [c])
    ensures text[pos] == c
  {
    assert text[pos..pos + 1][0] == text[pos];
  }

  /** Text matching `left + [c] + right` is made of text matching each. */
  lemma {:induction false} SplitTriple(text: string, pos: nat, left: string, c: char, right: string)
    requires At(text, pos, left + [c] + right)
    ensures At(text, pos, left) && text[pos + |left|] == c && At(text, pos + |left| + 1, right)
  {
    assert left + [c] + right == left + ([c] + right);
    SplitText(text, pos, left, [c] + right);
    SplitText(text, pos + |left|, [c], right);
    CharText(text, pos + |left|, c);
  }

  /** The text of a parenthesized part is '(', the part, ')'. */
  lemma {:induction false} SplitWrapped(text: string, pos: nat, p: string)
    requires At(text, pos, Wrap(p, true))
    ensures text[pos] == '(' && At(text, pos + 1, p) && text[pos + 1 + |p|] == ')'
  {
    assert Wrap(p, true) == ['('] + (p + [')']);
    SplitText(text, pos, ['('], p + [')']);
    SplitText(text, pos + 1, p, [')']);
    CharText(text, pos, '(');
    CharText(text, pos + 1 + |p|, ')');
  }

  /** The text of a binary node: its operands, each in parentheses when it
      needs them, around its operator. */
  lemma {:induction false} PrintBinary(e: Expr, names: seq<string>)
    requires e.Bin? && PrintableNode(e, names)
    ensures Print(e, names) == Wrap(Print(e.left, names), WrapLeft(e)) + [OfKind(e.kind).Symbol()] + Wrap(Print(e.right, names), WrapRight(e))
  {
  }

  /** Text holding the string of a binary node holds the strings of its
      operands around its operator. */
  lemma {:induction false} BinaryText(text: string, pos: nat, e: Expr, names: seq<string>, s: string, left: string, right: string)
    requires e.Bin? && PrintableNode(e, names) && s == Print(e, names)
    requires left == Wrap(Print(e.left, names), WrapLeft(e)) && right == Wrap(Print(e.right, names), WrapRight(e))
    requires At(text, pos, s)
    ensures |s| == |left| + 1 + |right|
    ensures At(text, pos, left) && text[pos + |left|] == OfKind(e.kind).Symbol() && At(text, pos + |left| + 1, right)
  {
    PrintBinary(e, names);
    SplitTriple(text, pos, left, OfKind(e.kind).Symbol(), right);
  }

  /** The first character of `a + [c] + b` is that of `a`. */
  lemma {:induction false} HeadOfTriple(a: string, c: char, b: string)
    requires |a| > 0
    ensures (a + [c] + b)[0] == a[0]
  {
  }

  /** Printed text starts with a digit, a letter or '('. */
  lemma {:induction false} PrintStart(e: Expr, names: seq<string>, wrap: bool)
    requires Printable(e, names) && ValidNames(names)
    ensures var s := Wrap(Print(e, names), wrap);
      IsDigit(s[0]) || IsLetter(s[0]) || s[0] == '('
    decreases e
  {
    if !wrap {
      match e
      case Lit(v) => NatToStringDigits(v.Floor as nat);
      case Var(i) => assert IsWord(names[i]);
      case Bin(k, l, r) =>
        PrintBinary(e, names);
        PrintStart(l, names, WrapLeft(e));
        HeadOfTriple(Wrap(Print(l, names), WrapLeft(e)), OfKind(k).Symbol(), Wrap(Print(r, names), WrapRight(e)));
    }
  }

  /** '(' pushes a barrier. */
  lemma {:induction false} OpenStep(text: string, pos: nat, m: Machine)
    requires pos < |text| && text[pos] == '(' && OperatorChars(m.ops)
    ensures OperatorChars(m.ops + ['('])
    ensures Reaches(text, pos, m, pos + 1, m.(ops := m.ops + ['('], prev := '('))
  {
    OneStep(text, pos, m, pos + 1, m.(ops := m.ops + ['('], prev := '('));
  }

  /** ')' folds the pending operands of `e` above the barrier and pops it. */
  lemma {:induction false} CloseStep(text: string, pos: nat, m: Machine, exprs: seq<Expr>, ops: seq<char>, e: Expr)
    requires pos < |text| && text[pos] == ')' && OperatorChars(ops)
    requires m.exprs == exprs + PendingExprs(e, false) && m.ops == ops + ['('] + PendingOps(e, false)
    ensures OperatorChars(m.ops)
    ensures Reaches(text, pos, m, pos + 1, m.(exprs := exprs + [e], ops := ops, prev := ')'))
  {
    Collapse(UntilOpenParen, exprs, ops + ['('], e, false);
    assert ReduceWhile(UntilOpenParen, exprs + [e], ops + ['(']) == Ok((exprs + [e], ops + ['(']));
    CloseMove(text, pos, m, exprs + [e], ops);
  }

  /** ')' whose reductions stop at a '(' pops that barrier. */
  lemma {:induction false} CloseMove(text: string, pos: nat, m: Machine, exprs: seq<Expr>, ops: seq<char>)
    requires pos < |text| && text[pos] == ')' && OperatorChars(m.ops) && OperatorChars(ops)
    requires ReduceWhile(UntilOpenParen, m.exprs, m.ops) == Ok((exprs, ops + ['(']))
    ensures Reaches(text, pos, m, pos + 1, m.(exprs := exprs, ops := ops, prev := ')'))
  {
    assert (ops + ['('])[..|ops|] == ops;
    OneStep(text, pos, m, pos + 1, m.(exprs := exprs, ops := ops, prev := ')'));
  }

  /** A binary operator folds the pending operands of its left operand, stops at
      the looser operator below and is pushed. */
  lemma {:induction false} OperatorStep(text: string, pos: nat, m: Machine, exprs: seq<Expr>, ops: seq<char>, l: Expr, wl: bool, op: Operation)
    requires pos < |text| && text[pos] == op.Symbol() && !SignContext(m.prev)
    requires OperatorChars(ops) && TopStrength(ops) < op.Precedence()
    requires !wl ==> op.Precedence() <= Strength(l)
    requires m.exprs == exprs + PendingExprs(l, wl) && m.ops == ops + PendingOps(l, wl)
    ensures OperatorChars(m.ops)
    ensures OperatorChars(ops + [op.Symbol()])
    ensures Reaches(text, pos, m, pos + 1, m.(exprs := exprs + [l], ops := ops + [op.Symbol()], prev := op.Symbol()))
  {
    var cond := WhileAtLeast(op.Precedence());
    Collapse(cond, exprs, ops, l, wl);
    assert ReduceWhile(cond, exprs + [l], ops) == Ok((exprs + [l], ops));
    OperatorMove(text, pos, m, exprs + [l], ops, op);
  }

  /** A binary operator that is not read as a sign runs its reductions and is
      pushed. */
  lemma {:induction false} OperatorMove(text: string, pos: nat, m: Machine, exprs: seq<Expr>, ops: seq<char>, op: Operation)
    requires pos < |text| && text[pos] == op.Symbol() && !SignContext(m.prev) && OperatorChars(m.ops)
    requires ReduceWhile(WhileAtLeast(op.Precedence()), m.exprs, m.ops) == Ok((exprs, ops))
    ensures OperatorChars(ops + [op.Symbol()])
    ensures Reaches(text, pos, m, pos + 1, m.(exprs := exprs, ops := ops + [op.Symbol()], prev := op.Symbol()))
  {
    CastSymbol(op);
    OneStep(text, pos, m, pos + 1, m.(exprs := exprs, ops := ops + [op.Symbol()], prev := op.Symbol()));
  }

  /** The numbering facts of a binary node about its parts. */
  lemma {:induction false} CanonicalParts(e: Expr, k: nat)
    requires e.Bin? && CanonicalFrom(e, k)
    ensures CanonicalFrom(e.left, k) && CanonicalFrom(e.right, NextFresh(e.left, k))
    ensures NextFresh(e, k) == NextFresh(e.right, NextFresh(e.left, k))
  {
  }

  /** Reading the text `s` of `e` (in parentheses when `wrap`) leaves its
      pending operands and operators on top of the stacks, provided the
      operator below binds more loosely than `e` (a '(' barrier always does);
      `k` names are already listed. */
  lemma {:induction false} ReadPrinted(text: string, pos: nat, m: Machine, e: Expr, names: seq<string>, wrap: bool, k: nat, s: string, m': Machine)
    requires Printable(e, names) && ValidNames(names)
    requires CanonicalFrom(e, k) && NextFresh(e, k) <= |names| && m.params == names[..k]
    requires OperatorChars(m.ops) && (!wrap ==> TopStrength(m.ops) < Strength(e))
    requires s == Wrap(Print(e, names), wrap) && At(text, pos, s) && Ends(text, pos + |s|)
    requires m' == Machine(m.exprs + PendingExprs(e, wrap), m.ops + PendingOps(e, wrap), names[..NextFresh(e, k)], After(e, names, wrap))
    ensures OperatorChars(m'.ops) && Reaches(text, pos, m, pos + |s|, m')
    decreases e, if wrap then 5 else 3
  {
    if wrap {
      ReadWrapped(text, pos, m, e, names, k, s, m');
    } else if e.Bin? {
      ReadBinary(text, pos, m, e, names, k, s, m');
    } else {
      ReadLeaf(text, pos, m, e, names, k, s, m');
    }
  }

  /** A literal or a name is one scanning step. */
  lemma {:induction false} ReadLeaf(text: string, pos: nat, m: Machine, e: Expr, names: seq<string>, k: nat, s: string, m': Machine)
    requires !e.Bin? && Printable(e, names) && ValidNames(names)
    requires CanonicalFrom(e, k) && NextFresh(e, k) <= |names| && m.params == names[..k]
    requires OperatorChars(m.ops)
    requires s == Print(e, names) && At(text, pos, s) && Ends(text, pos + |s|)
    requires m' == Machine(m.exprs + PendingExprs(e, false), m.ops + PendingOps(e, false), names[..NextFresh(e, k)], After(e, names, false))
    ensures OperatorChars(m'.ops) && Reaches(text, pos, m, pos + |s|, m')
  {
    if e.Lit? {
      ReadLiteral(text, pos, m, e, names, k, s, m');
    } else {
      ReadName(text, pos, m, e, names, k, s, m');
    }
  }

  lemma {:induction false} ReadLiteral(text: string, pos: nat, m: Machine, e: Expr, names: seq<string>, k: nat, s: string, m': Machine)
    requires e.Lit? && Printable(e, names)
    requires NextFresh(e, k) <= |names| && m.params == names[..k]
    requires OperatorChars(m.ops)
    requires s == Print(e, names) && At(text, pos, s) && Ends(text, pos + |s|)
    requires m' == Machine(m.exprs + PendingExprs(e, false), m.ops + PendingOps(e, false), names[..NextFresh(e, k)], After(e, names, false))
    ensures OperatorChars(m'.ops) && Reaches(text, pos, m, pos + |s|, m')
  {
    LitValue(e, names);
    var n := e.value.Floor as nat;
    NatToStringDigits(n);
    LitMachine(e, names, k, m, m');
    LiteralStep(text, pos, m, s, n, pos + |s|, s[0], m');
  }

  /** A printable literal is a whole number and prints as its decimal digits. */
  lemma {:induction false} LitValue(e: Expr, names: seq<string>)
    requires e.Lit? && Printable(e, names)
    ensures e.value >= 0.0 && e == Lit((e.value.Floor as nat) as real)
    ensures Print(e, names) == NatToString(e.value.Floor as nat)
  {
    assert PrintableNode(e, names);
  }

  /** Reading a literal pushes it and leaves the operators and the names alone. */
  lemma {:induction false} LitMachine(e: Expr, names: seq<string>, k: nat, m: Machine, m': Machine)
    requires e.Lit? && Printable(e, names)
    requires NextFresh(e, k) <= |names| && m.params == names[..k]
    requires m' == Machine(m.exprs + PendingExprs(e, false), m.ops + PendingOps(e, false), names[..NextFresh(e, k)], After(e, names, false))
    ensures m' == m.(exprs := m.exprs + [e], prev := Print(e, names)[0])
  {
    assert PrintableNode(e, names);
    assert NextFresh(e, k) == k;
    assert PendingExprs(e, false) == [e] && PendingOps(e, false) == [];
  }

  lemma {:induction false} ReadName(text: string, pos: nat, m: Machine, e: Expr, names: seq<string>, k: nat, s: string, m': Machine)
    requires e.Var? && Printable(e, names) && ValidNames(names)
    requires CanonicalFrom(e, k) && NextFresh(e, k) <= |names| && m.params == names[..k]
    requires OperatorChars(m.ops)
    requires s == Print(e, names) && At(text, pos, s) && Ends(text, pos + |s|)
    requires m' == Machine(m.exprs + PendingExprs(e, false), m.ops + PendingOps(e, false), names[..NextFresh(e, k)], After(e, names, false))
    ensures OperatorChars(m'.ops) && Reaches(text, pos, m, pos + |s|, m')
  {
    assert |m.params| == k;
    var i := e.index;
    NameStep(text, pos, m, names, i);
    var k' := if i == k then i + 1 else k;
    assert m' == m.(exprs := m.exprs + [Var(i)], params := names[..k'], prev := names[i][0]);
  }

  /** '(' pushes a barrier, the inner text is read above it, ')' folds it into
      one operand and pops the barrier. */
  lemma {:induction false} ReadWrapped(text: string, pos: nat, m: Machine, e: Expr, names: seq<string>, k: nat, s: string, m': Machine)
    requires Printable(e, names) && ValidNames(names)
    requires CanonicalFrom(e, k) && NextFresh(e, k) <= |names| && m.params == names[..k]
    requires OperatorChars(m.ops)
    requires s == Wrap(Print(e, names), true) && At(text, pos, s) && Ends(text, pos + |s|)
    requires m' == Machine(m.exprs + PendingExprs(e, true), m.ops + PendingOps(e, true), names[..NextFresh(e, k)], After(e, names, true))
    ensures OperatorChars(m'.ops) && Reaches(text, pos, m, pos + |s|, m')
    decreases e, 4
  {
    var p := Print(e, names);
    var inner := pos + 1 + |p|;
    var m1 := m.(ops := m.ops + ['('], prev := '(');
    var m2 := Machine(m.exprs + PendingExprs(e, false), m1.ops + PendingOps(e, false), names[..NextFresh(e, k)], After(e, names, false));
    SplitWrapped(text, pos, p);
    OpenStep(text, pos, m);
    assert TopStrength(m1.ops) == 0;
    ReadPrinted(text, pos + 1, m1, e, names, false, k, p, m2);
    Chain(text, pos, m, pos + 1, m1, inner, m2);
    CloseStep(text, inner, m2, m.exprs, m.ops, e);
    assert m' == m2.(exprs := m.exprs + [e], ops := m.ops, prev := ')');
    Chain(text, pos, m, inner, m2, pos + |s|, m');
  }

  /** The pending stacks of a binary node: its left operand and operator, then
      those of its right operand. */
  lemma {:induction false} PendingBinary(exprs: seq<Expr>, ops: seq<char>, e: Expr)
    requires e.Bin?
    ensures exprs + PendingExprs(e, false) == (exprs + [e.left]) + PendingExprs(e.right, WrapRight(e))
    ensures ops + PendingOps(e, false) == (ops + [OfKind(e.kind).Symbol()]) + PendingOps(e.right, WrapRight(e))
  {
  }

  /** The left operand of a binary node, then its operator, whose reductions
      fold the left operand and stop at the looser operator below. */
  lemma {:induction false} ReadLeftOperand(text: string, pos: nat, m: Machine, e: Expr, names: seq<string>, k: nat, left: string, k1: nat)
    requires e.Bin? && Printable(e.left, names) && ValidNames(names)
    requires CanonicalFrom(e.left, k) && k1 == NextFresh(e.left, k) && k1 <= |names| && m.params == names[..k]
    requires OperatorChars(m.ops) && TopStrength(m.ops) < Strength(e)
    requires left == Wrap(Print(e.left, names), WrapLeft(e)) && At(text, pos, left)
    requires pos + |left| < |text| && text[pos + |left|] == OfKind(e.kind).Symbol()
    ensures var symbol := OfKind(e.kind).Symbol();
      OperatorChars(m.ops + [symbol])
      && Reaches(text, pos, m, pos + |left| + 1, Machine(m.exprs + [e.left], m.ops + [symbol], names[..k1], symbol))
    decreases e, 1
  {
    var l := e.left;
    var op := OfKind(e.kind);
    var symbol := op.Symbol();
    var wl := WrapLeft(e);
    var mid := pos + |left|;
    CastSymbol(op);
    var m1 := Machine(m.exprs + PendingExprs(l, wl), m.ops + PendingOps(l, wl), names[..k1], After(l, names, wl));
    ReadPrinted(text, pos, m, l, names, wl, k, left, m1);
    AfterIsNotSign(l, names, wl);
    OperatorStep(text, mid, m1, m.exprs, m.ops, l, wl, op);
    Chain(text, pos, m, mid, m1, mid + 1, Machine(m.exprs + [l], m.ops + [symbol], names[..k1], symbol));
  }

  /** The left operand and the operator, then the right operand above the
      operator. */
  lemma {:induction false} ReadBinary(text: string, pos: nat, m: Machine, e: Expr, names: seq<string>, k: nat, s: string, m': Machine)
    requires e.Bin? && Printable(e, names) && ValidNames(names)
    requires CanonicalFrom(e, k) && NextFresh(e, k) <= |names| && m.params == names[..k]
    requires OperatorChars(m.ops) && TopStrength(m.ops) < Strength(e)
    requires s == Print(e, names) && At(text, pos, s) && Ends(text, pos + |s|)
    requires m' == Machine(m.exprs + PendingExprs(e, false), m.ops + PendingOps(e, false), names[..NextFresh(e, k)], After(e, names, false))
    ensures OperatorChars(m'.ops) && Reaches(text, pos, m, pos + |s|, m')
    decreases e, 2
  {
    var l, r, wr := e.left, e.right, WrapRight(e);
    var symbol := OfKind(e.kind).Symbol();
    var left, right := Wrap(Print(l, names), WrapLeft(e)), Wrap(Print(r, names), wr);
    var k1 := NextFresh(l, k);
    var mid := pos + |left|;
    BinaryText(text, pos, e, names, s, left, right);
    CanonicalParts(e, k);
    ReadLeftOperand(text, pos, m, e, names, k, left, k1);
    var m2 := Machine(m.exprs + [l], m.ops + [symbol], names[..k1], symbol);
    CastSymbol(OfKind(e.kind));
    assert TopStrength(m2.ops) == Strength(e);
    PendingBinary(m.exprs, m.ops, e);
    assert m' == Machine(m2.exprs + PendingExprs(r, wr), m2.ops + PendingOps(r, wr), names[..NextFresh(r, k1)], After(r, names, wr));
    ReadPrinted(text, mid + 1, m2, r, names, wr, k1, right, m');
    Chain(text, pos, m, mid + 1, m2, pos + |s|, m');
  }

  /** After an operand the previous character is a digit, a letter or ')', so a
      following '+' or '-' is never read as a sign. */
  lemma {:induction false} AfterIsNotSign(e: Expr, names: seq<string>, wrap: bool)
    requires Printable(e, names) && ValidNames(names)
    ensures !SignContext(After(e, names, wrap))
  {
    if !wrap {
      match e
      case Lit(v) => NatToStringDigits(v.Floor as nat);
      case Var(i) => assert IsWord(names[i]);
      case Bin(_, _, r) => AfterIsNotSign(r, names, WrapRight(e));
    }
  }

  /** The scan of the whole printed text, from the cleared state, leaves the
      pending operands and operators of the tree. */
  lemma {:induction false} ScanPrinted(text: string, e: Expr, names: seq<string>, end: nat, final: Machine)
    requires Printable(e, names) && ValidNames(names) && Canonical(e, names)
    requires text == Print(e, names) && end == |text|
    requires final == Machine(PendingExprs(e, false), PendingOps(e, false), names, After(e, names, false))
    ensures OperatorChars(final.ops) && Reaches(text, 0, Start, end, final)
  {
    assert text[0..|text|] == text;
    assert names[..NextFresh(e, 0)] == names;
    assert final == Machine(Start.exprs + PendingExprs(e, false), Start.ops + PendingOps(e, false), names[..NextFresh(e, 0)], After(e, names, false));
    ReadPrinted(text, 0, Start, e, names, false, 0, text, final);
  }

  /** The final reductions fold the pending operands into the tree. */
  lemma {:induction false} FinishPrinted(text: string, e: Expr, names: seq<string>, final: Machine)
    requires Printable(e, names)
    requires final == Machine(PendingExprs(e, false), PendingOps(e, false), names, After(e, names, false))
    requires OperatorChars(final.ops)
    ensures Run(text, |text|, final) == Outcome(Ok(e), names)
  {
    Collapse(UntilEmpty, [], [], e, false);
    assert [] + PendingExprs(e, false) == final.exprs;
    assert [] + PendingOps(e, false) == final.ops;
  }

  /** Parse's scanning loop and final reductions rebuild the printed tree. */
  lemma {:induction false} RunPrinted(text: string, e: Expr, names: seq<string>, final: Machine)
    requires Printable(e, names) && ValidNames(names) && Canonical(e, names)
    requires text == Print(e, names)
    requires final == Machine(PendingExprs(e, false), PendingOps(e, false), names, After(e, names, false))
    ensures Run(text, 0, Start) == Outcome(Ok(e), names)
  {
    ScanPrinted(text, e, names, |text|, final);
    ReachesRun(text, 0, Start, |text|, final);
    FinishPrinted(text, e, names, final);
  }

  /** Parsing the printed text of a tree gives back that tree, with the names in
      order of first use as the parameter list, whatever the list held before. */
  lemma {:induction false} ParsePrint(e: Expr, names: seq<string>, params: seq<string>)
    requires Printable(e, names) && ValidNames(names) && Canonical(e, names)
    ensures ParseSpec(Print(e, names), params) == Outcome(Ok(e), names)
  {
    var text := Print(e, names);
    PrintStart(e, names, false);
    assert !IsWhiteSpace(text[0]);
    RunPrinted(text, e, names, Machine(PendingExprs(e, false), PendingOps(e, false), names, After(e, names, false)));
  }
}
