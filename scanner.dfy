/** Tokenizer helpers: where a numeric literal or an identifier that starts at a
    given position ends, the one-character look-ahead, and the bookkeeping of the
    parameter list. Identifiers(text) is the reference definition of the list of
    variable names a parse discovers. */
module Scanner {
  import opened Chars
  import opened Numbers

  /** operand.EndsWith("e", StringComparison.OrdinalIgnoreCase) */
  predicate EndsWithExponentMarker(operand: string) {
    |operand| > 0 && IsExponentMarker(operand[|operand| - 1])
  }

  /** Whether ReadOperand, having collected text[start..k], also takes text[k]:
      a digit, a '.', an exponent marker, or a sign right after an exponent marker. */
  predicate OperandChar(text: string, start: nat, k: nat)
    requires start <= k < |text|
  {
    var next := text[k];
    IsDigit(next) || next == '.' || IsExponentMarker(next)
    || ((next == '-' || next == '+') && EndsWithExponentMarker(text[start..k]))
  }

  function OperandEndFrom(text: string, start: nat, k: nat): (end: nat)
    requires start <= k <= |text|
    decreases |text| - k
    ensures k <= end <= |text|
    ensures end == |text| || !OperandChar(text, start, end)
  {
    if k < |text| && OperandChar(text, start, k) then OperandEndFrom(text, start, k + 1) else k
  }

  /** The end of the maximal literal that starts with the digit at `start`. */
  function OperandEnd(text: string, start: nat): (end: nat)
    requires start < |text| && IsDigit(text[start])
    ensures start < end <= |text|
    ensures end == |text| || !OperandChar(text, start, end)
  {
    OperandEndFrom(text, start, start)
  }

  /** Every character between `k` and the end OperandEndFrom finds is taken. */
  lemma {:induction false} OperandEndFromRun(text: string, start: nat, k: nat)
    requires start <= k <= |text|
    ensures forall j :: k <= j < OperandEndFrom(text, start, k) ==> OperandChar(text, start, j)
    decreases |text| - k
  {
    if k < |text| && OperandChar(text, start, k) {
      OperandEndFromRun(text, start, k + 1);
    }
  }

  /** The literal is a run of characters ReadOperand takes, and the character
      after it (if any) is one it refuses: the run is maximal. */
  lemma {:induction false} OperandEndRun(text: string, start: nat)
    requires start < |text| && IsDigit(text[start])
    ensures forall j :: start <= j < OperandEnd(text, start) ==> OperandChar(text, start, j)
  {
    OperandEndFromRun(text, start, start);
  }

  function NameEndFrom(text: string, k: nat): (end: nat)
    requires k <= |text|
    decreases |text| - k
    ensures k <= end <= |text|
    ensures forall j :: k <= j < end ==> IsLetter(text[j])
    ensures end == |text| || !IsLetter(text[end])
  {
    if k < |text| && IsLetter(text[k]) then NameEndFrom(text, k + 1) else k
  }

  /** The end of the maximal run of letters that starts at `start`. */
  function NameEnd(text: string, start: nat): (end: nat)
    requires start < |text| && IsLetter(text[start])
    ensures start < end <= |text|
    ensures forall j :: start <= j < end ==> IsLetter(text[j])
    ensures end == |text| || !IsLetter(text[end])
  {
    NameEndFrom(text, start)
  }

  /** The character at `pos` without consuming it, or '\0' at the end of the text. */
  function PeekNextChar(text: string, pos: nat): (c: char)
    ensures pos < |text| ==> c == text[pos]
    ensures pos >= |text| ==> c == '\0'
  {
    if pos < |text| && text[pos] as int > 0 then text[pos] else 0 as char
  }

  predicate Distinct(s: seq<string>) {
    forall i, j :: 0 <= i < j < |s| ==> s[i] != s[j]
  }

  /** A name made of letters only. */
  predicate IsWord(s: string) {
    |s| > 0 && forall i :: 0 <= i < |s| ==> IsLetter(s[i])
  }

  /** Appends `name` to the parameter list unless it is already there. */
  function AddParameter(params: seq<string>, name: string): (r: seq<string>)
    ensures name in r && params <= r
    ensures forall n :: n in r <==> n in params || n == name
    ensures Distinct(params) ==> Distinct(r)
  {
    if name in params then params else params + [name]
  }

  /** List.IndexOf on a list known to hold `name`: its first position. */
  function IndexOf(params: seq<string>, name: string): (i: nat)
    requires name in params
    ensures i < |params| && params[i] == name && name !in params[..i]
  {
    if params[0] == name then 0
    else
      assert name in params[1..];
      var i := IndexOf(params[1..], name);
      assert params[..i + 1] == [params[0]] + params[1..][..i];
      1 + i
  }

  /** In a list without duplicates the position of an element is its index. */
  lemma IndexOfDistinct(params: seq<string>, i: nat)
    requires Distinct(params) && i < |params|
    ensures IndexOf(params, params[i]) == i
  {
  }

  /** Adds every name of `names`, in order, to `acc`. */
  function AddAll(acc: seq<string>, names: seq<string>): (r: seq<string>)
    ensures acc <= r
    ensures forall n :: n in r <==> n in acc || n in names
    ensures Distinct(acc) ==> Distinct(r)
    decreases |names|
  {
    if names == [] then acc else AddAll(AddParameter(acc, names[0]), names[1..])
  }

  /** The identifier tokens of text[i..], in order and with repetitions: a
      letter starts a maximal run of letters; a digit starts a literal, whose
      exponent markers are not identifiers; every other character is skipped. */
  function Names(text: string, i: nat): (ns: seq<string>)
    requires i <= |text|
    decreases |text| - i
    ensures forall n :: n in ns ==> IsWord(n)
  {
    if i == |text| then []
    else if IsDigit(text[i]) then Names(text, OperandEnd(text, i))
    else if IsLetter(text[i]) then
      var end := NameEnd(text, i);
      [text[i..end]] + Names(text, end)
    else Names(text, i + 1)
  }

  /** The variable names of `text`: each identifier once, in order of first occurrence. */
  function Identifiers(text: string): (ids: seq<string>)
    ensures Distinct(ids)
    ensures forall n :: n in ids <==> n in Names(text, 0)
    ensures forall n :: n in ids ==> IsWord(n)
  {
    AddAll([], Names(text, 0))
  }
}
