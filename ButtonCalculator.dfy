/**
 * ButtonCalculatorActivity: the keypad's input buffer, the flag recording
 * whether the last key went through the operator path, and the display and
 * result texts the events update.
 *
 * Each event is a function on a `KeypadState` value; the `Keypad` class holds
 * the same four fields and its methods are proved to perform exactly those
 * transitions. A shown result is `Answer(v)`, standing for "= " followed by
 * the formatted value.
 */
module ButtonCalculator {
  import opened Text
  import opened MathParser
  import MathParserProofs

  /** The text of the result view. */
  datatype ResultText = Message(text: string) | Answer(value: real)

  datatype KeypadState = KeypadState(input: string, lastOp: bool, display: string, result: ResultText)

  /** The views as `initializeViews` sets them, with an empty buffer. */
  const Initial := KeypadState([], false, "0", Message("Ready"))

  /**
   * What `calculateResult` shows for a buffer: "0" when it is empty, a
   * rejection by the validator, an evaluation failure, or the value.
   */
  function ResultFor(input: string): ResultText {
    if input == [] then Message("0")
    else if !IsValid(input) then Message("Invalid expression")
    else
      match Evaluation(input)
      case Some(v) => Answer(v)
      case None => Message("Error")
  }

  /** The four outcomes, and an answer only for a valid buffer that evaluates. */
  lemma ResultForCases(input: string)
    ensures input == [] ==> ResultFor(input) == Message("0")
    ensures input != [] && !IsValid(input) ==> ResultFor(input) == Message("Invalid expression")
    ensures ResultFor(input).Answer? <==> input != [] && IsValid(input) && Evaluation(input).Some?
    ensures ResultFor(input).Answer? ==> Evaluation(input) == Some(ResultFor(input).value)
    ensures input != [] && IsValid(input) && Evaluation(input) == None ==> ResultFor(input) == Message("Error")
  {
  }

  /** A buffer typed on the keypad is evaluated as it stands: an answer is the value of the evaluator on it. */
  lemma ResultOfKeypadText(input: string, v: real)
    requires AllMathChars(input)
    ensures ResultFor(input) == Answer(v) <==> input != [] && IsValid(input) && Evaluated(input) == Ok(v)
  {
    assert NoneIn(input, JavaWhitespace + {'x', 'X', Division}) by {
      forall i | 0 <= i < |input| ensures input[i] !in JavaWhitespace + {'x', 'X', Division} {
        assert IsMathChar(input[i]);
      }
    }
    MathParserProofs.CanonicalKeeps(input);
  }

  /** `appendToInput(value, isOperator)`. */
  function AfterAppend(st: KeypadState, value: char, isOperator: bool): KeypadState {
    if st.input == [] && isOperator && value != '-' then st
    else
      var kept := if isOperator && st.lastOp && st.input != [] then st.input[..|st.input| - 1] else st.input;
      var input := kept + [value];
      KeypadState(input, isOperator, input, if isOperator then st.result else ResultFor(input))
  }

  /** `calculateResult`. */
  function AfterCalculate(st: KeypadState): KeypadState {
    st.(result := ResultFor(st.input))
  }

  /** `clearCalculator`. */
  function AfterClear(st: KeypadState): KeypadState {
    KeypadState([], false, "0", Message("Ready"))
  }

  /** `backspace`: the flag is taken from the character removed. */
  function AfterBackspace(st: KeypadState): KeypadState {
    if st.input == [] then st
    else
      var lastChar := st.input[|st.input| - 1];
      var input := st.input[..|st.input| - 1];
      if input == [] then KeypadState([], st.lastOp, "0", Message("Ready"))
      else KeypadState(input, IsOperator(lastChar), input, ResultFor(input))
  }

  /** The parenthesis `toggleParentheses` chooses. */
  function ToggledParen(input: string): char {
    if multiset(input)['('] <= multiset(input)[')'] then '(' else ')'
  }

  /** `toggleParentheses`: through the operator path. */
  function AfterToggle(st: KeypadState): KeypadState {
    AfterAppend(st, ToggledParen(st.input), true)
  }

  /** The keys of the keypad and the event each is wired to. */
  datatype Key = Digit(d: char) | Operator(op: char) | Equals | Clear | Backspace | Parentheses

  /** The labels the keys carry: the ten digits; `+`, `-`, `*`, `/` and `.` on the operator keys. */
  predicate IsKey(k: Key) {
    match k
    case Digit(d) => IsDigit(d)
    case Operator(op) => IsOperator(op) || op == '.'
    case _ => true
  }

  function Press(st: KeypadState, k: Key): KeypadState {
    match k
    case Digit(d) => AfterAppend(st, d, false)
    case Operator(op) => AfterAppend(st, op, true)
    case Equals => AfterCalculate(st)
    case Clear => AfterClear(st)
    case Backspace => AfterBackspace(st)
    case Parentheses => AfterToggle(st)
  }

  function PressAll(st: KeypadState, ks: seq<Key>): KeypadState
    decreases |ks|
  {
    if ks == [] then st else PressAll(Press(st, ks[0]), ks[1..])
  }

  lemma PressThree(st: KeypadState, a: Key, b: Key, c: Key)
    ensures PressAll(st, [a, b, c]) == Press(Press(Press(st, a), b), c)
  {
    var ks := [a, b, c];
    assert ks[1..] == [b, c] && ks[1..][1..] == [c] && ks[1..][1..][1..] == [];
    assert PressAll(st, ks) == PressAll(Press(st, a), [b, c]);
    assert PressAll(Press(st, a), [b, c]) == PressAll(Press(Press(st, a), b), [c]);
    assert PressAll(Press(Press(st, a), b), [c]) == PressAll(Press(Press(Press(st, a), b), c), []);
  }

  lemma PressFour(st: KeypadState, a: Key, b: Key, c: Key, d: Key)
    ensures PressAll(st, [a, b, c, d]) == Press(Press(Press(Press(st, a), b), c), d)
  {
    var ks := [a, b, c, d];
    assert ks[1..] == [b, c, d];
    PressThree(Press(st, a), b, c, d);
  }

  /**
   * The invariant of the views: the buffer holds only the characters of the
   * math alphabet, and the display shows the buffer, or "0" when it is empty.
   */
  predicate Consistent(st: KeypadState) {
    AllMathChars(st.input) && st.display == (if st.input == [] then "0" else st.input)
  }

  // ---------------------------------------------------------------------
  // Properties of the events
  // ---------------------------------------------------------------------

  /** On an empty buffer, every operator-path key but the minus is ignored. */
  lemma EmptyIgnoresOperators(st: KeypadState, value: char)
    requires st.input == [] && value != '-'
    ensures AfterAppend(st, value, true) == st
    ensures Press(st, Parentheses) == st
  {
  }

  /**
   * An accepted append leaves the old buffer, minus its last character when
   * an operator-path key follows one, followed by the key; the display shows
   * it, the flag is the path taken, and only a digit key re-evaluates.
   */
  lemma AppendAccepted(st: KeypadState, value: char, isOperator: bool)
    requires !(st.input == [] && isOperator && value != '-')
    ensures var n := AfterAppend(st, value, isOperator);
      && (isOperator && st.lastOp && st.input != [] ==> n.input == st.input[..|st.input| - 1] + [value] && |n.input| == |st.input|)
      && (!(isOperator && st.lastOp) ==> n.input == st.input + [value])
      && n.input[|n.input| - 1] == value
      && n.display == n.input && n.lastOp == isOperator
      && (!isOperator ==> n.result == ResultFor(n.input))
      && (isOperator ==> n.result == st.result)
  {
  }

  lemma DigitStep(st: KeypadState, d: char)
    ensures Press(st, Digit(d)).input == st.input + [d] && !Press(st, Digit(d)).lastOp
  {
  }

  lemma OperatorStep(st: KeypadState, op: char)
    requires st.input != []
    ensures Press(st, Operator(op)).input == (if st.lastOp then st.input[..|st.input| - 1] else st.input) + [op]
    ensures Press(st, Operator(op)).lastOp
  {
  }

  lemma BackspaceStep(st: KeypadState)
    requires |st.input| >= 2
    ensures Press(st, Backspace).input == st.input[..|st.input| - 1]
    ensures Press(st, Backspace).lastOp == IsOperator(st.input[|st.input| - 1])
  {
  }

  /**
   * An operator after an operator replaces it: from an empty buffer, `2`,
   * `+`, `+`, `3` types `2+3`, and the digit key shows its value, 5.
   */
  lemma RepeatedOperatorReplaces(st: KeypadState)
    requires st.input == []
    ensures PressAll(st, [Digit('2'), Operator('+'), Operator('+'), Digit('3')]).input == "2+3"
    ensures PressAll(st, [Digit('2'), Operator('+'), Operator('+'), Digit('3')]).result == Answer(5.0)
  {
    var s1 := Press(st, Digit('2'));
    DigitStep(st, '2');
    assert s1.input == "2" && !s1.lastOp;
    var s2 := Press(s1, Operator('+'));
    OperatorStep(s1, '+');
    assert s2.input == "2+" && s2.lastOp;
    var s3 := Press(s2, Operator('+'));
    OperatorStep(s2, '+');
    assert s2.input[..|s2.input| - 1] == "2";
    assert s3.input == "2+";
    DigitStep(s3, '3');
    assert Press(s3, Digit('3')).input == "2+3";
    SumShown();
    PressFour(st, Digit('2'), Operator('+'), Operator('+'), Digit('3'));
  }

  lemma SumShown()
    ensures ResultFor("2+3") == Answer(5.0)
  {
    MathParserProofs.SumExample();
    assert AllMathChars("2+3") by {
      var s := "2+3";
      assert s[0] == '2' && s[1] == '+' && s[2] == '3';
    }
    ResultOfKeypadText("2+3", 5.0);
  }

  lemma ToggledAfterDigit()
    ensures ToggledParen("2") == '(' && ToggledParen("2(") == ')'
  {
    assert "2(" == "2" + "(";
    assert multiset("2") == multiset{'2'};
    assert multiset("2(") == multiset{'2', '('};
  }

  lemma OpenAfterDigit(st: KeypadState)
    requires st.input == "2" && !st.lastOp
    ensures Press(st, Parentheses).input == "2(" && Press(st, Parentheses).lastOp
  {
    ToggledAfterDigit();
  }

  lemma CloseReplacesOpen(st: KeypadState)
    requires st.input == "2(" && st.lastOp
    ensures Press(st, Parentheses).input == "2)"
  {
    ToggledAfterDigit();
    assert st.input[..|st.input| - 1] == "2";
  }

  /** The parenthesis key goes through the operator path too, so from an empty buffer a `)` replaces the `(` just typed. */
  lemma ParenthesisReplacesParenthesis(st: KeypadState)
    requires st.input == []
    ensures PressAll(st, [Digit('2'), Parentheses, Parentheses]).input == "2)"
  {
    var s1 := Press(st, Digit('2'));
    DigitStep(st, '2');
    assert s1.input == "2" && !s1.lastOp;
    OpenAfterDigit(s1);
    CloseReplacesOpen(Press(s1, Parentheses));
    PressThree(st, Digit('2'), Parentheses, Parentheses);
  }

  /**
   * The flag after a backspace describes the character removed, not the one
   * now last: after `2`, `+` and a backspace the flag is set, so a `*`
   * replaces the `2`.
   */
  lemma BackspaceFlagQuirk(st: KeypadState)
    requires st.input == []
    ensures PressAll(st, [Digit('2'), Operator('+'), Backspace, Operator('*')]).input == "*"
  {
    var s1 := Press(st, Digit('2'));
    DigitStep(st, '2');
    assert s1.input == "2";
    var s2 := Press(s1, Operator('+'));
    OperatorStep(s1, '+');
    assert s2.input == "2+";
    var s3 := Press(s2, Backspace);
    BackspaceStep(s2);
    assert s2.input[..|s2.input| - 1] == "2";
    assert s3.input == "2" && s3.lastOp;
    OperatorStep(s3, '*');
    assert s3.input[..|s3.input| - 1] == [];
    assert Press(s3, Operator('*')).input == "*";
    PressFour(st, Digit('2'), Operator('+'), Backspace, Operator('*'));
  }

  /** Backspace removes exactly the last character; emptied, the views reset and the flag stays. */
  lemma BackspaceRemovesLast(st: KeypadState)
    requires st.input != []
    ensures var n := AfterBackspace(st);
      && n.input + [st.input[|st.input| - 1]] == st.input
      && (n.input == [] ==> n.display == "0" && n.result == Message("Ready") && n.lastOp == st.lastOp)
      && (n.input != [] ==> n.display == n.input && n.lastOp == IsOperator(st.input[|st.input| - 1]) && n.result == ResultFor(n.input))
  {
  }

  /** Backspace undoes a digit: the buffer is what it was before the key. */
  lemma BackspaceUndoesDigit(st: KeypadState, d: char)
    ensures AfterBackspace(AfterAppend(st, d, false)).input == st.input
  {
    var n := AfterAppend(st, d, false);
    assert n.input[..|n.input| - 1] == st.input;
  }

  /** Clear brings back the initial views, whatever came before. */
  lemma ClearResets(st: KeypadState)
    ensures AfterClear(st) == Initial
    ensures Consistent(AfterClear(st))
  {
  }

  /** A toggle opens a parenthesis exactly when no more are open than closed. */
  lemma ToggleChooses(st: KeypadState)
    requires st.input != [] && !st.lastOp
    ensures var n := AfterToggle(st);
      n.input == st.input + [if multiset(st.input)['('] <= multiset(st.input)[')'] then '(' else ')']
  {
  }

  lemma AllMathCharsAppend(s: string, c: char)
    requires AllMathChars(s) && IsMathChar(c)
    ensures AllMathChars(s + [c])
  {
    assert forall i | 0 <= i < |s| :: (s + [c])[i] == s[i];
  }

  lemma AllMathCharsPrefix(s: string, n: nat)
    requires AllMathChars(s) && n <= |s|
    ensures AllMathChars(s[..n])
  {
    assert forall i | 0 <= i < n :: s[..n][i] == s[i];
  }

  /** Every key keeps the views consistent and the buffer within the math alphabet. */
  lemma PressKeepsConsistent(st: KeypadState, k: Key)
    requires Consistent(st) && IsKey(k)
    ensures Consistent(Press(st, k))
  {
    match k
    case Digit(d) =>
      AppendKeepsConsistent(st, d, false);
    case Operator(op) =>
      AppendKeepsConsistent(st, op, true);
    case Backspace =>
      if st.input != [] {
        AllMathCharsPrefix(st.input, |st.input| - 1);
      }
    case Parentheses =>
      AppendKeepsConsistent(st, ToggledParen(st.input), true);
    case _ =>
  }

  lemma AppendKeepsConsistent(st: KeypadState, value: char, isOperator: bool)
    requires Consistent(st) && IsMathChar(value)
    ensures Consistent(AfterAppend(st, value, isOperator))
  {
    if !(st.input == [] && isOperator && value != '-') {
      if isOperator && st.lastOp && st.input != [] {
        AllMathCharsPrefix(st.input, |st.input| - 1);
        AllMathCharsAppend(st.input[..|st.input| - 1], value);
      } else {
        AllMathCharsAppend(st.input, value);
      }
    }
  }

  /** From the initial views, any sequence of keys keeps them consistent. */
  lemma {:induction false} PressAllKeepsConsistent(st: KeypadState, ks: seq<Key>)
    requires Consistent(st)
    requires forall i | 0 <= i < |ks| :: IsKey(ks[i])
    ensures Consistent(PressAll(st, ks))
    decreases |ks|
  {
    if ks != [] {
      PressKeepsConsistent(st, ks[0]);
      assert forall i | 0 <= i < |ks[1..]| :: ks[1..][i] == ks[i + 1];
      PressAllKeepsConsistent(Press(st, ks[0]), ks[1..]);
    }
  }

  // ---------------------------------------------------------------------
  // The activity
  // ---------------------------------------------------------------------

  class Keypad {
    var currentInput: string
    var lastInputWasOperator: bool
    var display: string
    var result: ResultText

    function State(): KeypadState
      reads this
    {
      KeypadState(currentInput, lastInputWasOperator, display, result)
    }

    /** `onCreate` and `initializeViews`: an empty buffer and the views "0" and "Ready". */
    constructor()
      ensures State() == Initial
    {
      currentInput := [];
      lastInputWasOperator := false;
      display := "0";
      result := Message("Ready");
    }

    method AppendToInput(value: char, isOperator: bool)
      modifies this
      ensures State() == AfterAppend(old(State()), value, isOperator)
    {
      if |currentInput| == 0 && isOperator && value != '-' {
        return;
      }
      if isOperator && lastInputWasOperator {
        if |currentInput| > 0 {
          currentInput := currentInput[..|currentInput| - 1];
        }
      }
      currentInput := currentInput + [value];
      display := currentInput;
      lastInputWasOperator := isOperator;
      if !isOperator {
        CalculateResult();
      }
    }

    method CalculateResult()
      modifies this
      ensures State() == AfterCalculate(old(State()))
    {
      if |currentInput| == 0 {
        result := Message("0");
        return;
      }
      var expression := currentInput;
      var valid := IsValidExpression(expression);
      if valid {
        var value := EvaluateExpression(expression);
        match value
        case Some(v) =>
          result := Answer(v);
        case None =>
          result := Message("Error");
      } else {
        result := Message("Invalid expression");
      }
    }

    method ClearCalculator()
      modifies this
      ensures State() == AfterClear(old(State()))
    {
      currentInput := [];
      display := "0";
      result := Message("Ready");
      lastInputWasOperator := false;
    }

    method Backspace()
      modifies this
      ensures State() == AfterBackspace(old(State()))
    {
      if |currentInput| > 0 {
        var lastChar := currentInput[|currentInput| - 1];
        currentInput := currentInput[..|currentInput| - 1];
        if |currentInput| == 0 {
          display := "0";
          result := Message("Ready");
        } else {
          display := currentInput;
          lastInputWasOperator := IsOperator(lastChar);
          CalculateResult();
        }
      }
    }

    method ToggleParentheses()
      modifies this
      ensures State() == AfterToggle(old(State()))
    {
      var expression := currentInput;
      var openCount := CountOccurrences(expression, '(');
      var closeCount := CountOccurrences(expression, ')');
      if openCount <= closeCount {
        AppendToInput('(', true);
      } else {
        AppendToInput(')', true);
      }
    }

    /** `countOccurrences`: the number of times `ch` occurs in `str`. */
    method CountOccurrences(str: string, ch: char) returns (count: nat)
      ensures count == multiset(str)[ch]
    {
      count := 0;
      for i := 0 to |str|
        invariant count == multiset(str[..i])[ch]
      {
        assert str[..i + 1] == str[..i] + [str[i]];
        if str[i] == ch {
          count := count + 1;
        }
      }
      assert str[..|str|] == str;
    }
  }
}
