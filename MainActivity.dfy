/**
 * MainActivity: the last cleaning of the recognised text, the activity's own
 * copy of the validator, and what `onOCRSuccess` decides to show.
 */
module MainActivity {
  import opened Text
  import opened MathParser
  import MathParserProofs

  /** The characters the final cleaning collapses when doubled. */
  const Collapsed: set<char> := {'+', '-', '*', '/', '.'}

  /** The math alphabet as a set, for the filter. */
  const MathChars: set<char> := set c: char | IsMathChar(c)

  lemma MathCharsAre(c: char)
    ensures c in MathChars <==> IsMathChar(c)
  {
  }

  /**
   * `finalCleanText`: keep only the math alphabet, then shrink each
   * non-overlapping pair `++`, `--`, `**`, `//`, `..` to one character; the
   * last two replacements of a parenthesis by itself change nothing.
   */
  function FinalCleanText(text: string): string {
    if text == [] then []
    else
      var t5 := CollapsePairs(KeepOnly(text, MathChars));
      var t6 := ReplaceEach(t5, {'('}, "(");
      ReplaceEach(t6, {')'}, ")")
  }

  /** The five pair replacements, in the order of the source. */
  function CollapsePairs(s: string): string {
    var t1 := CollapseDouble(s, '+');
    var t2 := CollapseDouble(t1, '-');
    var t3 := CollapseDouble(t2, '*');
    var t4 := CollapseDouble(t3, '/');
    CollapseDouble(t4, '.')
  }

  lemma CollapsePairsShrinks(s: string)
    ensures multiset(CollapsePairs(s)) <= multiset(s)
  {
    var t1 := CollapseDouble(s, '+');
    var t2 := CollapseDouble(t1, '-');
    var t3 := CollapseDouble(t2, '*');
    var t4 := CollapseDouble(t3, '/');
    assert multiset(CollapseDouble(t4, '.')) <= multiset(t4) <= multiset(t3) <= multiset(t2) <= multiset(t1) <= multiset(s);
  }

  /** The final cleaning is the pair replacements after the filter: the parenthesis replacements change nothing. */
  lemma FinalCleanIsCollapse(text: string)
    requires text != []
    ensures FinalCleanText(text) == CollapsePairs(KeepOnly(text, MathChars))
  {
    var t5 := CollapsePairs(KeepOnly(text, MathChars));
    ReplaceByItself(t5, '(');
    ReplaceByItself(t5, ')');
  }

  /** Only math characters of the text are kept, so the result is never longer. */
  lemma FinalCleanShape(text: string)
    ensures AllMathChars(FinalCleanText(text))
    ensures multiset(FinalCleanText(text)) <= multiset(text)
    ensures |FinalCleanText(text)| <= |text|
  {
    if text != [] {
      var t0 := KeepOnly(text, MathChars);
      FinalCleanIsCollapse(text);
      CollapsePairsShrinks(t0);
      MathOnlyShrinks(t0, CollapsePairs(t0));
    }
    SizeOfSmaller(FinalCleanText(text), text);
  }

  lemma SizeOfSmaller(r: string, s: string)
    requires multiset(r) <= multiset(s)
    ensures |r| <= |s|
  {
    var d := multiset(s) - multiset(r);
    assert multiset(s) == multiset(r) + d;
    assert |multiset(s)| == |multiset(r)| + |d|;
    assert |multiset(r)| == |r| && |multiset(s)| == |s|;
  }

  lemma MathOnlyShrinks(t0: string, t5: string)
    requires forall i | 0 <= i < |t0| :: t0[i] in MathChars
    requires multiset(t5) <= multiset(t0)
    ensures AllMathChars(t5)
  {
    forall i | 0 <= i < |t5| ensures IsMathChar(t5[i]) {
      assert t5[i] in multiset(t0);
      var j :| 0 <= j < |t0| && t0[j] == t5[i];
      MathCharsAre(t0[j]);
    }
  }

  /** Replacing a character by itself is the identity. */
  lemma {:induction false} ReplaceByItself(s: string, c: char)
    ensures ReplaceEach(s, {c}, [c]) == s
    decreases |s|
  {
    if s != [] {
      ReplaceByItself(s[1..], c);
      assert s == [s[0]] + s[1..];
    }
  }

  /** Shrinking pairs of `c` keeps the number of every other character. */
  lemma CollapseDoubleCounts(s: string, c: char, d: char)
    requires d != c
    ensures multiset(CollapseDouble(s, c))[d] == multiset(s)[d]
  {
    CollapseDoubleKeepsOthers(s, c);
  }

  /** Every digit and every parenthesis of the text is kept; only other characters and doubled operators or dots go. */
  lemma FinalCleanKeepsOperands(text: string, d: char)
    requires IsMathChar(d) && d !in Collapsed
    ensures multiset(FinalCleanText(text))[d] == multiset(text)[d]
  {
    if text != [] {
      MathCharsAre(d);
      FinalCleanIsCollapse(text);
      var t0 := KeepOnly(text, MathChars);
      CollapseDoubleCounts(t0, '+', d);
      var t1 := CollapseDouble(t0, '+');
      CollapseDoubleCounts(t1, '-', d);
      var t2 := CollapseDouble(t1, '-');
      CollapseDoubleCounts(t2, '*', d);
      var t3 := CollapseDouble(t2, '*');
      CollapseDoubleCounts(t3, '/', d);
      var t4 := CollapseDouble(t3, '/');
      CollapseDoubleCounts(t4, '.', d);
    }
  }


  /**
   * `isValidMathExpression` of the activity, written out again in the source;
   * it accepts exactly the strings the parser's validator accepts.
   */
  method IsValidMathExpression(expression: string) returns (b: bool)
    ensures b == IsValid(expression)
  {
    if expression == [] {
      return false;
    }
    if exists k | 0 <= k < |expression| :: !IsMathChar(expression[k]) {
      return false;
    }
    var balance := 0;
    var i := 0;
    while i < |expression|
      invariant 0 <= i <= |expression|
      invariant balance == Depth(expression[..i]) && balance >= 0
      invariant forall k | 0 <= k <= i :: Depth(expression[..k]) >= 0
    {
      assert expression[..i + 1] == expression[..i] + [expression[i]];
      if expression[i] == '(' {
        balance := balance + 1;
      }
      if expression[i] == ')' {
        balance := balance - 1;
      }
      if balance < 0 {
        return false;
      }
      i := i + 1;
    }
    assert expression[..i] == expression;
    b := balance == 0;
  }

  /** What the two views show after a recognition. */
  datatype Outcome =
    | NoText                                  // "No text recognized"
    | NotValid(recognized: string)            // "Not a valid math expression"
    | CantSolve(recognized: string)           // "Can't solve"
    | Solved(recognized: string, value: real) // "Result:" and the formatted value

  /** The decision of `onOCRSuccess`; `None` stands for a null text. */
  function Decide(recognizedText: Option<string>): Outcome {
    match recognizedText
    case None => NoText
    case Some(text) =>
      if Trim(text) == [] then NoText
      else
        var finalText := FinalCleanText(text);
        if !IsValid(finalText) then NotValid(finalText)
        else
          match Evaluation(finalText)
          case Some(v) => Solved(finalText, v)
          case None => CantSolve(finalText)
  }

  /** `onOCRSuccess`, without the views: the same checks and calls in the same order. */
  method OnOcrSuccess(recognizedText: Option<string>) returns (o: Outcome)
    ensures o == Decide(recognizedText)
  {
    if recognizedText.None? || Trim(recognizedText.value) == [] {
      return NoText;
    }
    var finalText := FinalCleanText(recognizedText.value);
    var valid := IsValidMathExpression(finalText);
    if !valid {
      return NotValid(finalText);
    }
    var result := EvaluateExpression(finalText);
    match result
    case Some(v) =>
      o := Solved(finalText, v);
    case None =>
      o := CantSolve(finalText);
  }

  /** Text over the math alphabet is already canonical, so the evaluator sees it as it stands. */
  lemma MathTextIsCanonical(f: string)
    requires AllMathChars(f)
    ensures Canonical(f) == f
  {
    assert NoneIn(f, JavaWhitespace + {'x', 'X', Division}) by {
      forall i | 0 <= i < |f| ensures f[i] !in JavaWhitespace + {'x', 'X', Division} {
        assert IsMathChar(f[i]);
      }
    }
    MathParserProofs.CanonicalKeeps(f);
  }

  /** The outcome for a valid or invalid cleaned text `f`. */
  lemma DecideFor(text: string, f: string)
    requires Trim(text) != [] && f == FinalCleanText(text) && AllMathChars(f)
    ensures && (Decide(Some(text)).Solved? <==> IsValid(f) && Evaluated(f).Ok?)
      && (Decide(Some(text)).Solved? ==> Decide(Some(text)) == Solved(f, Evaluated(f).value))
      && (Decide(Some(text)).CantSolve? <==> IsValid(f) && Evaluated(f).Err?)
      && (Decide(Some(text)).NotValid? <==> !IsValid(f))
  {
    MathTextIsCanonical(f);
  }

  /**
   * A solved text is the cleaned text, valid and of that value; a text the
   * activity cannot solve is valid but fails to evaluate, and only with one
   * of the errors a valid text can meet.
   */
  lemma DecideMeans(text: string)
    requires Trim(text) != []
    ensures var f := FinalCleanText(text);
      && (Decide(Some(text)).Solved? <==> IsValid(f) && Evaluated(f).Ok?)
      && (Decide(Some(text)).Solved? ==> Decide(Some(text)) == Solved(f, Evaluated(f).value))
      && (Decide(Some(text)).CantSolve? <==> IsValid(f) && Evaluated(f).Err?)
      && (Decide(Some(text)).CantSolve? ==> MathParserProofs.Benign(Evaluated(f).error))
      && (Decide(Some(text)).NotValid? <==> !IsValid(f))
  {
    var f := FinalCleanText(text);
    FinalCleanShape(text);
    DecideFor(text, f);
    if IsValid(f) {
      MathParserProofs.ValidatedFailuresAreBenign(f);
    }
  }

  /** Only a null, empty or blank text counts as nothing recognised. */
  lemma NoTextMeansBlank(recognizedText: Option<string>)
    ensures Decide(recognizedText) == NoText <==> recognizedText.None? || Trim(recognizedText.value) == []
  {
  }

  /** A text without a single math character cleans to the empty text, which is not valid. */
  lemma NoMathCharsNotValid(text: string)
    requires Trim(text) != [] && forall i | 0 <= i < |text| :: !IsMathChar(text[i])
    ensures Decide(Some(text)) == NotValid("")
  {
    NoMathCharsCleanToNothing(text);
  }

  lemma NoMathCharsCleanToNothing(text: string)
    requires forall i | 0 <= i < |text| :: !IsMathChar(text[i])
    ensures FinalCleanText(text) == []
  {
    forall i | 0 <= i < |text| ensures text[i] !in MathChars {
      MathCharsAre(text[i]);
    }
    NothingKept(text);
    if text != [] {
      FinalCleanIsCollapse(text);
      CollapsePairsOfNothing();
    }
  }

  lemma CollapsePairsOfNothing()
    ensures CollapsePairs([]) == []
  {
    assert CollapseDouble([], '+') == [];
    assert CollapseDouble([], '-') == [];
    assert CollapseDouble([], '*') == [];
    assert CollapseDouble([], '/') == [];
  }

  lemma {:induction false} NothingKept(s: string)
    requires forall i | 0 <= i < |s| :: s[i] !in MathChars
    ensures KeepOnly(s, MathChars) == []
    decreases |s|
  {
    if s != [] {
      assert forall i | 0 <= i < |s[1..]| :: s[1..][i] == s[i + 1];
      NothingKept(s[1..]);
    }
  }

}
