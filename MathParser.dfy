/**
 * MathExpressionParser: the validator, the two-stack infix evaluator and
 * `evaluateExpression`, which canonicalises its input, validates it, evaluates
 * it and folds every failure into a single error (`None`).
 *
 * Operands are exact reals instead of IEEE doubles.
 */
module MathParser {
  import opened Text

  // ---------------------------------------------------------------------
  // Validator
  // ---------------------------------------------------------------------

  /** Net nesting depth of `s`: its number of `(` minus its number of `)`. */
  function Depth(s: string): int {
    (multiset(s)['('] as int) - (multiset(s)[')'] as int)
  }

  /**
   * The validator's acceptance condition: a non-empty string over the math
   * alphabet in which no prefix closes more parentheses than it opens and the
   * whole string closes exactly as many as it opens.
   */
  predicate IsValid(s: string) {
    && |s| > 0
    && AllMathChars(s)
    && (forall k | 0 <= k <= |s| :: Depth(s[..k]) >= 0)
    && Depth(s) == 0
  }

  /** `isValidMathExpression`: the character check, then a running balance that fails as soon as it goes negative. */
  method IsValidMathExpression(s: string) returns (b: bool)
    ensures b == IsValid(s)
  {
    if |s| == 0 {
      return false;
    }
    if !AllMathChars(s) {
      return false;
    }
    var balance := 0;
    for i := 0 to |s|
      invariant balance == Depth(s[..i])
      invariant forall k | 0 <= k <= i :: Depth(s[..k]) >= 0
    {
      var c := s[i];
      assert s[..i + 1] == s[..i] + [c];
      if c == '(' {
        balance := balance + 1;
      }
      if c == ')' {
        balance := balance - 1;
      }
      if balance < 0 {
        return false;
      }
    }
    assert s[..|s|] == s;
    return balance == 0;
  }

  /** The public name of the validator. */
  method IsValidExpression(s: string) returns (b: bool)
    ensures b == IsValid(s)
  {
    b := IsValidMathExpression(s);
  }

  // ---------------------------------------------------------------------
  // Numeric literals
  // ---------------------------------------------------------------------

  predicate IsNumberChar(c: char) { IsDigit(c) || c == '.' }

  /** Length of the maximal run of digits and dots at the start of `s` (the greedy literal). */
  function NumberRunLength(s: string): (n: nat)
    ensures n <= |s|
    ensures forall i | 0 <= i < n :: IsNumberChar(s[i])
    ensures n < |s| ==> !IsNumberChar(s[n])
  {
    if s != [] && IsNumberChar(s[0]) then 1 + NumberRunLength(s[1..]) else 0
  }

  predicate AllDigits(s: string) {
    forall i | 0 <= i < |s| :: IsDigit(s[i])
  }

  /** The value of a string of decimal digits, most significant first. */
  function DigitsValue(s: string): nat
    requires AllDigits(s)
  {
    if s == [] then 0 else 10 * DigitsValue(s[..|s| - 1]) + (s[|s| - 1] as int - '0' as int)
  }

  function Pow10(n: nat): (p: nat)
    ensures p >= 1
  {
    if n == 0 then 1 else 10 * Pow10(n - 1)
  }

  /** Index of the first `.` of `s`, or `|s|` when it has none. */
  function DotIndex(s: string): (k: nat)
    ensures k <= |s|
    ensures forall i | 0 <= i < k :: s[i] != '.'
    ensures k < |s| ==> s[k] == '.'
  {
    if s == [] || s[0] == '.' then 0 else 1 + DotIndex(s[1..])
  }

  lemma NoneCounted(s: string, c: char)
    requires multiset(s)[c] == 0
    ensures forall i | 0 <= i < |s| :: s[i] != c
  {
    forall i | 0 <= i < |s| ensures s[i] != c {
      assert s[i] in multiset(s);
    }
  }

  lemma NotCounted(s: string, c: char)
    requires forall i | 0 <= i < |s| :: s[i] != c
    ensures multiset(s)[c] == 0
  {
  }

  /**
   * `Double.parseDouble` applied to a greedy literal, with exact arithmetic:
   * it succeeds exactly when the literal holds at most one dot and at least
   * one digit; without a dot its value is the number its digits spell, and
   * with one it is the integer part plus the fraction part scaled down by its
   * number of digits.
   */
  function ParseNumber(lit: string): (r: Option<real>)
    requires forall i | 0 <= i < |lit| :: IsNumberChar(lit[i])
    ensures r.Some? <==> multiset(lit)['.'] <= 1 && multiset(lit)['.'] < |lit|
  {
    if multiset(lit)['.'] > 1 || multiset(lit)['.'] == |lit| then None
    else
      var k := DotIndex(lit);
      if k == |lit| then
        assert AllDigits(lit) by {
          forall i | 0 <= i < |lit| ensures IsDigit(lit[i]) {
            assert IsNumberChar(lit[i]) && lit[i] != '.';
          }
        }
        Some(DigitsValue(lit) as real)
      else
        var whole := lit[..k];
        var frac := lit[k + 1..];
        assert AllDigits(whole) by {
          forall i | 0 <= i < k ensures IsDigit(whole[i]) {
            assert whole[i] == lit[i] && IsNumberChar(lit[i]) && lit[i] != '.';
          }
        }
        assert AllDigits(frac) by {
          assert lit == lit[..k] + [lit[k]] + frac;
          NotCounted(lit[..k], '.');
          assert multiset(frac)['.'] == 0;
          NoneCounted(frac, '.');
          forall i | 0 <= i < |frac| ensures IsDigit(frac[i]) {
            assert frac[i] == lit[k + 1 + i] && IsNumberChar(lit[k + 1 + i]) && frac[i] != '.';
          }
        }
        Some(DigitsValue(whole) as real + DigitsValue(frac) as real / Pow10(|frac|) as real)
  }

  // ---------------------------------------------------------------------
  // Operators
  // ---------------------------------------------------------------------

  /** Binding strength: `*` and `/` bind tighter than `+` and `-`. */
  function Rank(op: char): nat {
    if op == '*' || op == '/' then 2 else 1
  }

  /**
   * `hasPrecedence(op1, op2)`: whether the stacked operator `op2` must be
   * applied before `op1` is pushed. A parenthesis on the stack never is;
   * between operators it is exactly when `op2` binds at least as tightly.
   */
  function HasPrecedence(op1: char, op2: char): (r: bool)
    ensures op2 == '(' || op2 == ')' ==> !r
    ensures IsOperator(op1) && IsOperator(op2) ==> (r <==> Rank(op2) >= Rank(op1))
  {
    if op2 == '(' || op2 == ')' then false
    else if (op1 == '*' || op1 == '/') && (op2 == '+' || op2 == '-') then false
    else true
  }

  datatype EvalError =
    | InvalidNumber
    | EmptyStack
    | DivideByZero
    | MismatchedParentheses
    | InvalidCharacter
    | UnknownOperator
    | InvalidExpression

  datatype Result<T> = Ok(value: T) | Err(error: EvalError)

  /** `applyOperation(op, b, a)`: `a op b`, where `b` was the top operand. */
  function ApplyOperation(op: char, b: real, a: real): (r: Result<real>)
    ensures r == Err(DivideByZero) <==> op == '/' && b == 0.0
    ensures r == Err(UnknownOperator) <==> !IsOperator(op)
    ensures r.Ok? ==> IsOperator(op)
    ensures r.Err? ==> r.error == DivideByZero || r.error == UnknownOperator
  {
    match op
    case '+' => Ok(a + b)
    case '-' => Ok(a - b)
    case '*' => Ok(a * b)
    case '/' => if b == 0.0 then Err(DivideByZero) else Ok(a / b)
    case _ => Err(UnknownOperator)
  }

  // ---------------------------------------------------------------------
  // The two stacks and the evaluation they drive
  // ---------------------------------------------------------------------

  /** The operand stack and the operator stack; the top of each is its last element. */
  datatype Stacks = Stacks(numbers: seq<real>, operators: seq<char>)

  /**
   * `numbers.push(applyOperation(operators.pop(), numbers.pop(), numbers.pop()))`:
   * fails when fewer than two operands are stacked; otherwise the operator
   * stack loses its top and the operand stack its top two, replaced by one.
   */
  function PopAndApply(st: Stacks): (r: Result<Stacks>)
    requires |st.operators| > 0
    ensures |st.numbers| < 2 ==> r == Err(EmptyStack)
    ensures r.Err? ==> r.error == EmptyStack || r.error == DivideByZero || r.error == UnknownOperator
    ensures r == Err(UnknownOperator) <==> |st.numbers| >= 2 && !IsOperator(st.operators[|st.operators| - 1])
    ensures r.Ok? ==> r.value.operators == st.operators[..|st.operators| - 1]
    ensures r.Ok? ==> |st.numbers| >= 2 && |r.value.numbers| == |st.numbers| - 1
    ensures r.Ok? ==> r.value.numbers[..|st.numbers| - 2] == st.numbers[..|st.numbers| - 2]
    ensures |st.numbers| >= 2 ==>
      var n := |st.numbers|;
      var applied := ApplyOperation(st.operators[|st.operators| - 1], st.numbers[n - 1], st.numbers[n - 2]);
      && (r.Ok? ==> applied == Ok(r.value.numbers[n - 2]))
      && (r.Err? ==> applied == Err(r.error))
  {
    var op := st.operators[|st.operators| - 1];
    var n := |st.numbers|;
    if n < 2 then Err(EmptyStack)
    else
      match ApplyOperation(op, st.numbers[n - 1], st.numbers[n - 2])
      case Err(e) => Err(e)
      case Ok(v) => Ok(Stacks(st.numbers[..n - 2] + [v], st.operators[..|st.operators| - 1]))
  }

  /** The `)` case: apply stacked operators down to the nearest `(`, then discard it. */
  function ReduceParen(st: Stacks): Result<Stacks>
    decreases |st.operators|
  {
    if |st.operators| == 0 then Err(MismatchedParentheses)
    else if st.operators[|st.operators| - 1] == '(' then
      Ok(Stacks(st.numbers, st.operators[..|st.operators| - 1]))
    else
      match PopAndApply(st)
      case Err(e) => Err(e)
      case Ok(next) => ReduceParen(next)
  }

  /** The operator case: apply every stacked operator that has precedence over `c`, then push `c`. */
  function ReduceBefore(c: char, st: Stacks): Result<Stacks>
    decreases |st.operators|
  {
    if |st.operators| > 0 && HasPrecedence(c, st.operators[|st.operators| - 1]) then
      match PopAndApply(st)
      case Err(e) => Err(e)
      case Ok(next) => ReduceBefore(c, next)
    else
      Ok(Stacks(st.numbers, st.operators + [c]))
  }

  /** After the scan: apply the remaining operators; the result is the single operand left. */
  function Finish(st: Stacks): Result<real>
    decreases |st.operators|
  {
    if |st.operators| == 0 then
      if |st.numbers| == 1 then Ok(st.numbers[0]) else Err(InvalidExpression)
    else if st.operators[|st.operators| - 1] == '(' then Err(MismatchedParentheses)
    else
      match PopAndApply(st)
      case Err(e) => Err(e)
      case Ok(next) => Finish(next)
  }

  /** The left-to-right scan of `s` from the stacks `st`. */
  function Scan(s: string, st: Stacks): Result<Stacks>
    decreases |s|
  {
    if s == [] then Ok(st)
    else
      var c := s[0];
      if IsNumberChar(c) then
        var n := NumberRunLength(s);
        match ParseNumber(s[..n])
        case None => Err(InvalidNumber)
        case Some(v) => Scan(s[n..], Stacks(st.numbers + [v], st.operators))
      else if c == '(' then
        Scan(s[1..], Stacks(st.numbers, st.operators + ['(']))
      else if c == ')' then
        match ReduceParen(st)
        case Err(e) => Err(e)
        case Ok(next) => Scan(s[1..], next)
      else if IsOperator(c) then
        match ReduceBefore(c, st)
        case Err(e) => Err(e)
        case Ok(next) => Scan(s[1..], next)
      else
        Err(InvalidCharacter)
  }

  /** Scanning `s` from `st` and then finishing. */
  function Continue(s: string, st: Stacks): Result<real> {
    match Scan(s, st)
    case Err(e) => Err(e)
    case Ok(next) => Finish(next)
  }

  /** What `eval` computes: its value, or the failure it raises first. */
  function Evaluated(s: string): Result<real> {
    Continue(s, Stacks([], []))
  }

  // One step of the scan, one lemma per kind of character.

  lemma ContinueNumber(t: string, st: Stacks, n: nat)
    requires t != [] && IsNumberChar(t[0]) && n == NumberRunLength(t)
    ensures Continue(t, st) == match ParseNumber(t[..n])
      case None => Err(InvalidNumber)
      case Some(v) => Continue(t[n..], Stacks(st.numbers + [v], st.operators))
  {
  }

  lemma ContinueOpen(t: string, st: Stacks)
    requires t != [] && t[0] == '('
    ensures Continue(t, st) == Continue(t[1..], Stacks(st.numbers, st.operators + ['(']))
  {
  }

  lemma ContinueClose(t: string, st: Stacks)
    requires t != [] && t[0] == ')'
    ensures Continue(t, st) == match ReduceParen(st)
      case Err(e) => Err(e)
      case Ok(next) => Continue(t[1..], next)
  {
  }

  lemma ContinueOperator(t: string, st: Stacks)
    requires t != [] && IsOperator(t[0])
    ensures Continue(t, st) == match ReduceBefore(t[0], st)
      case Err(e) => Err(e)
      case Ok(next) => Continue(t[1..], next)
  {
  }

  lemma ContinueOther(t: string, st: Stacks)
    requires t != [] && !IsNumberChar(t[0]) && t[0] != '(' && t[0] != ')' && !IsOperator(t[0])
    ensures Continue(t, st) == Err(InvalidCharacter)
  {
  }

  /** `eval`: the two-stack evaluation, with the stacks updated in place as the scan proceeds. */
  method Eval(s: string) returns (r: Result<real>)
    ensures r == Evaluated(s)
  {
    var numbers: seq<real> := [];
    var operators: seq<char> := [];
    var i := 0;
    while i < |s|
      invariant 0 <= i <= |s|
      invariant Continue(s[i..], Stacks(numbers, operators)) == Evaluated(s)
      decreases |s| - i
    {
      var c := s[i];
      ghost var before := Stacks(numbers, operators);
      assert s[i..][0] == c && s[i..][1..] == s[i + 1..];
      if IsNumberChar(c) {
        var j := NumberEnd(s, i);
        ghost var n := j - i;
        assert s[i..][..n] == s[i..j] && s[i..][n..] == s[j..];
        ContinueNumber(s[i..], before, n);
        var number := ParseNumber(s[i..j]);
        if number.None? {
          return Err(InvalidNumber);
        }
        numbers := numbers + [number.value];
        i := j;
      } else if c == '(' {
        ContinueOpen(s[i..], before);
        operators := operators + [c];
        i := i + 1;
      } else if c == ')' {
        ContinueClose(s[i..], before);
        var next := CloseParenthesis(numbers, operators);
        if next.Err? {
          return Err(next.error);
        }
        numbers, operators := next.value.numbers, next.value.operators;
        i := i + 1;
      } else if IsOperator(c) {
        ContinueOperator(s[i..], before);
        var next := PushOperator(c, numbers, operators);
        if next.Err? {
          return Err(next.error);
        }
        numbers, operators := next.value.numbers, next.value.operators;
        i := i + 1;
      } else {
        ContinueOther(s[i..], before);
        return Err(InvalidCharacter);
      }
    }
    r := Unwind(numbers, operators);
  }

  /** The inner loop reading a number: the end of the run of number characters from `i`. */
  method NumberEnd(s: string, i: nat) returns (j: nat)
    requires i < |s| && IsNumberChar(s[i])
    ensures i < j <= |s| && j - i == NumberRunLength(s[i..])
  {
    j := i;
    while j < |s| && IsNumberChar(s[j])
      invariant i <= j <= |s|
      invariant forall k | i <= k < j :: IsNumberChar(s[k])
    {
      j := j + 1;
    }
  }

  /** The inner loop of the `)` case, over the stacks in place. */
  method CloseParenthesis(numbers0: seq<real>, operators0: seq<char>) returns (r: Result<Stacks>)
    ensures r == ReduceParen(Stacks(numbers0, operators0))
  {
    var numbers, operators := numbers0, operators0;
    while |operators| > 0 && operators[|operators| - 1] != '('
      invariant ReduceParen(Stacks(numbers, operators)) == ReduceParen(Stacks(numbers0, operators0))
      decreases |operators|
    {
      var next := PopAndApply(Stacks(numbers, operators));
      if next.Err? {
        return Err(next.error);
      }
      numbers, operators := next.value.numbers, next.value.operators;
    }
    if |operators| > 0 && operators[|operators| - 1] == '(' {
      return Ok(Stacks(numbers, operators[..|operators| - 1]));
    }
    return Err(MismatchedParentheses);
  }

  /** The inner loop of the operator case: apply what has precedence over `c`, then push `c`. */
  method PushOperator(c: char, numbers0: seq<real>, operators0: seq<char>) returns (r: Result<Stacks>)
    ensures r == ReduceBefore(c, Stacks(numbers0, operators0))
  {
    var numbers, operators := numbers0, operators0;
    while |operators| > 0 && HasPrecedence(c, operators[|operators| - 1])
      invariant ReduceBefore(c, Stacks(numbers, operators)) == ReduceBefore(c, Stacks(numbers0, operators0))
      decreases |operators|
    {
      var next := PopAndApply(Stacks(numbers, operators));
      if next.Err? {
        return Err(next.error);
      }
      numbers, operators := next.value.numbers, next.value.operators;
    }
    return Ok(Stacks(numbers, operators + [c]));
  }

  /** The loop after the scan: apply the remaining operators, then take the single operand left. */
  method Unwind(numbers0: seq<real>, operators0: seq<char>) returns (r: Result<real>)
    ensures r == Finish(Stacks(numbers0, operators0))
  {
    var numbers, operators := numbers0, operators0;
    while |operators| > 0
      invariant Finish(Stacks(numbers, operators)) == Finish(Stacks(numbers0, operators0))
      decreases |operators|
    {
      if operators[|operators| - 1] == '(' {
        return Err(MismatchedParentheses);
      }
      var next := PopAndApply(Stacks(numbers, operators));
      if next.Err? {
        return Err(next.error);
      }
      numbers, operators := next.value.numbers, next.value.operators;
    }
    if |numbers| != 1 {
      return Err(InvalidExpression);
    }
    return Ok(numbers[0]);
  }

  // ---------------------------------------------------------------------
  // evaluateExpression
  // ---------------------------------------------------------------------

  const Division: char := '\U{F7}'

  /** Delete whitespace, then `x` and `X` become `*` and the division sign becomes `/`. */
  function Canonical(s: string): (r: string)
    ensures NoneIn(r, JavaWhitespace + {'x', 'X', Division})
  {
    var a := ReplaceEach(s, JavaWhitespace, "");
    ReplaceEachAvoids(s, JavaWhitespace, "", {});
    var b := ReplaceEach(a, {'x'}, "*");
    ReplaceEachAvoids(a, {'x'}, "*", JavaWhitespace);
    var c := ReplaceEach(b, {'X'}, "*");
    ReplaceEachAvoids(b, {'X'}, "*", JavaWhitespace + {'x'});
    ReplaceEachAvoids(c, {Division}, "/", JavaWhitespace + {'x', 'X'});
    assert JavaWhitespace + {'x', 'X'} + {Division} == JavaWhitespace + {'x', 'X', Division};
    ReplaceEach(c, {Division}, "/")
  }

  /**
   * What `evaluateExpression` returns: the value of the canonical form when
   * it validates and evaluates, and otherwise the one error (`None`) that
   * every failure becomes.
   */
  function Evaluation(s: string): (r: Option<real>)
    ensures r.Some? ==> IsValid(Canonical(s)) && Evaluated(Canonical(s)) == Ok(r.value)
    ensures IsValid(Canonical(s)) && Evaluated(Canonical(s)).Ok? ==> r == Some(Evaluated(Canonical(s)).value)
    ensures !IsValid(Canonical(s)) ==> r == None
    ensures (exists e :: Evaluated(Canonical(s)) == Err(e)) ==> r == None
  {
    var t := Canonical(s);
    if !IsValid(t) then None
    else
      match Evaluated(t)
      case Ok(v) => Some(v)
      case Err(_) => None
  }

  method EvaluateExpression(s: string) returns (r: Option<real>)
    ensures r == Evaluation(s)
  {
    var t := ReplaceEach(s, JavaWhitespace, "");
    t := ReplaceEach(t, {'x'}, "*");
    t := ReplaceEach(t, {'X'}, "*");
    t := ReplaceEach(t, {Division}, "/");
    var ok := IsValidMathExpression(t);
    if !ok {
      return None;
    }
    var v := Eval(t);
    match v
    case Ok(x) => return Some(x);
    case Err(_) => return None;
  }
}
