# Handwritten-math calculator: a verified model of its text and arithmetic core

The app has two front ends. One recognises a handwritten expression from a
drawing. The other is a button keypad. Both feed the same infix evaluator.
This project models in Dafny the parts that are plain logic over strings and
stacks, and proves what they promise:

- **`MathParser`** models `MathExpressionParser`.
  - The validator checks the character set and a running parenthesis balance.
  - `eval` is a two-stack evaluator with greedy literals. `*` and `/` bind
    tighter than `+` and `-`, equal ranks associate to the left, and
    `applyOperation` computes `a op b` with `b` the top operand.
  - `evaluateExpression` deletes whitespace, rewrites `x`, `X` and `÷`, then
    validates and evaluates. Every failure becomes one error.
  - The stacks are local sequences updated in a loop (`Eval`). The method is
    proved equal to the function `Evaluated`.
- **`MathParserProofs`** relates the parser to a reference semantics.
  - A fully parenthesised printed expression tree validates and evaluates to
    the tree's value.
  - `a o1 b o2 c` groups by precedence.
  - On validated text the mismatched-parenthesis, invalid-character and
    unknown-operator branches cannot be reached.
  - Worked cases: `2+3*4`, `10-4-3`, `8/4/2`, `-5` and `(1)(2)`.
- **`OcrHelper`** models `OCRHelper`.
  - The confidence heuristic is in integer tenths.
  - The line selection of `processOCRResult` runs over a sequence of
    `(text, hasBoundingBox)` lines. They stand for the recogniser's blocks of
    lines, flattened in block-then-line order.
  - The three cleaning passes of `cleanMathematicalText`:
    - a per-character correction table;
    - doubled-operator and decimal-separator replacements;
    - `fixCommonPatterns`, which keeps the **first** operator of a run of
      operators.
  - Cleaning is proved idempotent.
- **`ButtonCalculator`** models `ButtonCalculatorActivity`.
  - Its state is the input buffer, the `lastInputWasOperator` flag, and the
    display and result texts.
  - The class `Keypad` has those four fields. Each event method is proved to
    perform a transition function on a `KeypadState` value. The lemmas are
    stated over those functions.
  - The quirks of the source are modelled as written:
    - the decimal point is wired as an operator;
    - parentheses go through the operator path, so a `)` can replace the `(`
      just typed;
    - backspace sets the flag from the character it removed. After `2`, `+`
      and a backspace the flag is set, so a following `*` replaces the `2`.
- **`MainActivity`** models the final cleaning `finalCleanText`.
  - It also models the activity's own copy of the validator, which is proved
    to agree with the parser's.
  - The decision of `onOCRSuccess` is a pure function to an outcome: no text,
    not valid, cannot solve, or solved with a value.
- **`Text`** holds the shared character classes.
  - It holds the string functions that the source's `replaceAll` calls
    compute, one per pattern shape. A one-character class in the pattern is
    a per-character replacement.
  - `"cc"` with `"c"` is a left-to-right replacement of pairs that do not
    overlap, so `+++` becomes `++`.
  - It also holds Java's `trim()`.

Operands are exact reals. A numeric literal parses exactly when it has at
least one digit and at most one dot. Java's `\s` is the six ASCII whitespace
characters. `String.matches(".*[..].*")` also fails on a line terminator,
because `.` stops there, and the model keeps that. In `fixCommonPatterns`
the comment says the last operator of a run is kept, but the code compares
each character with its predecessor in the input and keeps the first. The
model follows the code.

## Model

| member | source | states |
|---|---|---|
| `MathParser.IsValidMathExpression` | Calculator/app/src/main/java/com/example/calculator/MathExpressionParser.java:31-51 | the loop's answer is `IsValid`: non-empty, math alphabet only, no prefix closes more parentheses than it opens, balanced at the end |
| `MathParser.IsValidExpression` | Calculator/app/src/main/java/com/example/calculator/MathExpressionParser.java:27-29 | the public name accepts exactly what the validator accepts |
| `MathParser.NumberRunLength` | Calculator/app/src/main/java/com/example/calculator/MathExpressionParser.java:61-67 | the literal is the maximal leading run of digits and dots |
| `MathParser.ParseNumber` | Calculator/app/src/main/java/com/example/calculator/MathExpressionParser.java:68-72 | a literal parses exactly when it has at most one dot and at least one digit |
| `MathParserProofs.ParseDecimal` | Calculator/app/src/main/java/com/example/calculator/MathExpressionParser.java:69 | every decimal numeral reads back as its exact value |
| `MathParserProofs.ParseWhole` | Calculator/app/src/main/java/com/example/calculator/MathExpressionParser.java:69 | a run of digits without a dot reads as the number those digits spell |
| `MathParserProofs.ParseFraction` | Calculator/app/src/main/java/com/example/calculator/MathExpressionParser.java:69 | digits, a dot and digits, either side possibly empty, read as all the digits spelled as one number divided by ten to the number of digits after the dot |
| `MathParserProofs.ParseDigitDotDigit` | Calculator/app/src/main/java/com/example/calculator/MathExpressionParser.java:69 | a digit, a dot and a digit read as the two-digit number over ten |
| `MathParserProofs.ParseDotDigit` | Calculator/app/src/main/java/com/example/calculator/MathExpressionParser.java:69 | a dot and a digit read as the digit over ten |
| `MathParserProofs.ParseDigitDot` | Calculator/app/src/main/java/com/example/calculator/MathExpressionParser.java:69 | a digit and a trailing dot read as the digit |
| `MathParserProofs.ParseOneAndAHalf` | Calculator/app/src/main/java/com/example/calculator/MathExpressionParser.java:69 | `1.5` reads as 1.5 |
| `MathParserProofs.ParseHalf` | Calculator/app/src/main/java/com/example/calculator/MathExpressionParser.java:69 | `.5` reads as 0.5: the integer part may be empty |
| `MathParserProofs.ParseTwoDot` | Calculator/app/src/main/java/com/example/calculator/MathExpressionParser.java:69 | `2.` reads as 2: the fraction part may be empty |
| `MathParser.HasPrecedence` | Calculator/app/src/main/java/com/example/calculator/MathExpressionParser.java:119-127 | a stacked parenthesis never has precedence; between operators, the stacked one has precedence exactly when it binds at least as tightly |
| `MathParser.ApplyOperation` | Calculator/app/src/main/java/com/example/calculator/MathExpressionParser.java:129-145 | fails with a division by zero exactly for `/` with a zero top operand, and as an unknown operator exactly for a non-operator |
| `MathParser.PopAndApply` | Calculator/app/src/main/java/com/example/calculator/MathExpressionParser.java:81 | fewer than two operands is an empty-stack failure; otherwise the outcome is `applyOperation` of the top operator on the top operand and the one below it: its failure, or that value replacing the two operands and the operator, with the rest of the stacks unchanged |
| `MathParser.Eval` | Calculator/app/src/main/java/com/example/calculator/MathExpressionParser.java:53-113 | the in-place two-stack loop computes `Evaluated`: the value, or the first failure the scan or the final reduction raises |
| `MathParser.NumberEnd` | Calculator/app/src/main/java/com/example/calculator/MathExpressionParser.java:61-67 | the literal loop stops at the end of the run of digits and dots, so the step-back leaves the scan on the run's last character |
| `MathParser.CloseParenthesis` | Calculator/app/src/main/java/com/example/calculator/MathExpressionParser.java:79-88 | the `)` loop computes `ReduceParen`: it applies operators down to the nearest `(` and pops it, or fails with the mismatch or the first application failure |
| `MathParser.PushOperator` | Calculator/app/src/main/java/com/example/calculator/MathExpressionParser.java:90-94 | the operator loop computes `ReduceBefore`: it applies every stacked operator with precedence, then pushes the new one |
| `MathParser.Unwind` | Calculator/app/src/main/java/com/example/calculator/MathExpressionParser.java:100-112 | the closing loop computes `Finish`: a stacked `(` is a mismatch, and exactly one remaining operand is the value |
| `MathParser.Canonical` | Calculator/app/src/main/java/com/example/calculator/MathExpressionParser.java:10-13 | the rewritten text has no whitespace, no `x`, no `X` and no division sign |
| `MathParserProofs.CanonicalConcat` | Calculator/app/src/main/java/com/example/calculator/MathExpressionParser.java:10-13 | the rewrite works character by character: the rewrite of a concatenation is the concatenation of the rewrites |
| `MathParserProofs.CanonicalSingle` | Calculator/app/src/main/java/com/example/calculator/MathExpressionParser.java:10-13 | on one character: whitespace is deleted, `x` and `X` become `*`, the division sign becomes `/`, every other character stays |
| `MathParser.Evaluation` | Calculator/app/src/main/java/com/example/calculator/MathExpressionParser.java:7-24 | a value exactly when the canonical text validates and evaluates, and then the evaluator's value; invalid text and every evaluation failure give the one error |
| `MathParser.EvaluateExpression` | Calculator/app/src/main/java/com/example/calculator/MathExpressionParser.java:7-24 | the method computes `Evaluation` |
| `MathParserProofs.ScanPrint` | Calculator/app/src/main/java/com/example/calculator/MathExpressionParser.java:57-98 | scanning the printed text of a tree pushes exactly the tree's value on any stacks, or fails only on a division by zero |
| `MathParserProofs.EvaluatedPrint` | Calculator/app/src/main/java/com/example/calculator/MathExpressionParser.java:53-113 | `eval` of a fully parenthesised tree is the tree's value |
| `MathParserProofs.PrintIsValid` | Calculator/app/src/main/java/com/example/calculator/MathExpressionParser.java:31-51 | the printed text of every tree passes the validator |
| `MathParserProofs.EvaluationPrint` | Calculator/app/src/main/java/com/example/calculator/MathExpressionParser.java:7-24 | `evaluateExpression` returns the reference value of every printed tree |
| `MathParserProofs.Precedence` | Calculator/app/src/main/java/com/example/calculator/MathExpressionParser.java:90-94 | `a o1 b o2 c` groups to the right exactly when `o2` binds tighter than `o1`, otherwise to the left |
| `MathParserProofs.ReduceParenSafe` | Calculator/app/src/main/java/com/example/calculator/MathExpressionParser.java:79-88 | with an open parenthesis stacked, a `)` fails only on operands or division, and removes exactly one open parenthesis |
| `MathParserProofs.FinishSafe` | Calculator/app/src/main/java/com/example/calculator/MathExpressionParser.java:100-110 | with no open parenthesis stacked, the final reduction fails only on operands, division or the leftover-count check |
| `MathParserProofs.ScanSafe` | Calculator/app/src/main/java/com/example/calculator/MathExpressionParser.java:57-98 | on text whose running depth never goes negative, the scan fails only benignly and tracks the open-parenthesis count |
| `MathParserProofs.ValidatedFailuresAreBenign` | Calculator/app/src/main/java/com/example/calculator/MathExpressionParser.java:79-110 | on validated text, no mismatched-parenthesis, invalid-character or unknown-operator failure occurs |
| `MathParserProofs.OneOperation` | Calculator/app/src/main/java/com/example/calculator/MathExpressionParser.java:53-113 | `eval` of `a o b` is `a o b`, or the division-by-zero failure |
| `MathParserProofs.SumExample` | Calculator/app/src/main/java/com/example/calculator/MathExpressionParser.java:31-113 | `2+3` passes the validator and evaluates to 5 |
| `MathParserProofs.NoParensValid` | Calculator/app/src/main/java/com/example/calculator/MathExpressionParser.java:31-51 | non-empty text over the math alphabet without parentheses passes the validator |
| `MathParserProofs.ProductFirstExample` | Calculator/app/src/main/java/com/example/calculator/MathExpressionParser.java:119-127 | `2+3*4` evaluates to 14 |
| `MathParserProofs.LeftAssociativeExample` | Calculator/app/src/main/java/com/example/calculator/MathExpressionParser.java:90-94 | `10-4-3` evaluates to 3 |
| `MathParserProofs.DivisionLeftAssociativeExample` | Calculator/app/src/main/java/com/example/calculator/MathExpressionParser.java:90-94 | `8/4/2` evaluates to 1 |
| `MathParserProofs.UnaryMinusFails` | Calculator/app/src/main/java/com/example/calculator/MathExpressionParser.java:91-92 | `-5` validates but fails, for lack of a second operand |
| `MathParserProofs.LitValid` | Calculator/app/src/main/java/com/example/calculator/MathExpressionParser.java:31-51 | every decimal numeral passes the validator and uses only math characters |
| `MathParserProofs.GroupValid` | Calculator/app/src/main/java/com/example/calculator/MathExpressionParser.java:31-51 | wrapping text that never underflows and is balanced in one pair of parentheses keeps it balanced and never underflowing |
| `MathParserProofs.TwoGroupsValid` | Calculator/app/src/main/java/com/example/calculator/MathExpressionParser.java:31-51 | any two parenthesised literals side by side pass the validator |
| `MathParserProofs.AdjacentGroupsValid` | Calculator/app/src/main/java/com/example/calculator/MathExpressionParser.java:31-51 | `(1)(2)` passes the validator |
| `MathParserProofs.TwoGroupsFail` | Calculator/app/src/main/java/com/example/calculator/MathExpressionParser.java:108-110 | two parenthesised literals side by side leave two operands, which is the invalid-expression failure |
| `MathParserProofs.AdjacentGroupsFail` | Calculator/app/src/main/java/com/example/calculator/MathExpressionParser.java:108-110 | `(1)(2)` fails because two values remain |
| `OcrHelper.Confidence` | Calculator/app/src/main/java/com/example/calculator/OCRHelper.java:147-158 | the score is at most ten tenths; it is zero exactly when no bonus applies, and above one half exactly when digit and operator, or one of them with a parenthesis and a reasonable length, are present |
| `OcrHelper.BestIsMaximal` | Calculator/app/src/main/java/com/example/calculator/OCRHelper.java:110-124 | no line with a bounding box scores above the chosen confidence |
| `OcrHelper.BestIsFirstMaximal` | Calculator/app/src/main/java/com/example/calculator/OCRHelper.java:116-124 | a positive best is the earliest boxed line reaching that score, scoring strictly above every earlier boxed line |
| `OcrHelper.BestOfNothing` | Calculator/app/src/main/java/com/example/calculator/OCRHelper.java:107-108 | with no positive score the best line stays empty |
| `OcrHelper.BestHasText` | Calculator/app/src/main/java/com/example/calculator/OCRHelper.java:119-123 | a positive best has a non-empty text |
| `OcrHelper.JoinedIsJoinWords` | Calculator/app/src/main/java/com/example/calculator/OCRHelper.java:126-131 | the builder holds exactly the non-empty trimmed texts in order, one space between each two |
| `OcrHelper.CollectLines` | Calculator/app/src/main/java/com/example/calculator/OCRHelper.java:110-133 | the loop over blocks and lines ends with the first maximal confidence and its line (`Best`) and the builder text (`Joined`) |
| `OcrHelper.ProcessOcrResult` | Calculator/app/src/main/java/com/example/calculator/OCRHelper.java:105-145 | the loop over the lines returns `Selected`: the cleaned best line when it is non-empty and scores above one half, otherwise the cleaned joined text |
| `OcrHelper.SelectedIsBestOrAll` | Calculator/app/src/main/java/com/example/calculator/OCRHelper.java:135-144 | above one half the best line wins outright; otherwise the result is the cleaning of all non-empty lines joined by spaces |
| `OcrHelper.FirstPassOfChar` | Calculator/app/src/main/java/com/example/calculator/OCRHelper.java:169-192 | the 23 chained replacements map one character as the correction table says |
| `OcrHelper.FirstPassIsMap` | Calculator/app/src/main/java/com/example/calculator/OCRHelper.java:169-192 | the first pass is exactly the correction table applied to every character in turn |
| `OcrHelper.FirstPassIsLocal` | Calculator/app/src/main/java/com/example/calculator/OCRHelper.java:169-192 | the first pass commutes with concatenation |
| `OcrHelper.LookalikesOfChar` | Calculator/app/src/main/java/com/example/calculator/OCRHelper.java:171-176 | `l L \| ! I` become 1, `o O` 0, `s S` 5, `z Z` 2, `a A` 4, `:` a slash |
| `OcrHelper.BracketsOfChar` | Calculator/app/src/main/java/com/example/calculator/OCRHelper.java:177-182 | each brace becomes `()`, brackets become parentheses, the three quote marks are deleted |
| `OcrHelper.LettersOfChar` | Calculator/app/src/main/java/com/example/calculator/OCRHelper.java:183-192 | `i` becomes 1, `B` 8, `b` 6, `g q` 9, `t T Y` 7, `Z` 2, `S` 5 |
| `OcrHelper.FirstPassClears` | Calculator/app/src/main/java/com/example/calculator/OCRHelper.java:169-192 | after the first pass no whitespace and no corrected character is left |
| `OcrHelper.FirstPassKeeps` | Calculator/app/src/main/java/com/example/calculator/OCRHelper.java:169-192 | text without such characters is left as it is |
| `OcrHelper.SecondPassClears` | Calculator/app/src/main/java/com/example/calculator/OCRHelper.java:195-202 | after the second pass no `=`, `,` or `;` is left |
| `OcrHelper.SecondPassKeepsOut` | Calculator/app/src/main/java/com/example/calculator/OCRHelper.java:195-202 | the second pass writes no character but the dot |
| `OcrHelper.SecondPassKeeps` | Calculator/app/src/main/java/com/example/calculator/OCRHelper.java:195-202 | text without those characters and without adjacent operators is left as it is |
| `OcrHelper.TriplePlus` | Calculator/app/src/main/java/com/example/calculator/OCRHelper.java:196 | pairs are replaced without overlap, so `+++` becomes `++` |
| `OcrHelper.DropSeparates` | Calculator/app/src/main/java/com/example/calculator/OCRHelper.java:217-229 | no two operators are left adjacent; the result is empty exactly when the text is; it ends in an operator only when the text does |
| `OcrHelper.DropShrinks` | Calculator/app/src/main/java/com/example/calculator/OCRHelper.java:217-229 | only characters of the text are kept |
| `OcrHelper.DropKeepsOperands` | Calculator/app/src/main/java/com/example/calculator/OCRHelper.java:217-229 | the non-operators keep their order; only operators are dropped |
| `OcrHelper.DropIdentity` | Calculator/app/src/main/java/com/example/calculator/OCRHelper.java:217-229 | text without adjacent operators is unchanged |
| `OcrHelper.DropShort` | Calculator/app/src/main/java/com/example/calculator/OCRHelper.java:211-213 | texts shorter than two characters are returned unchanged |
| `OcrHelper.DropStep` | Calculator/app/src/main/java/com/example/calculator/OCRHelper.java:217-229 | one more character is dropped exactly when it is an operator following an operator |
| `OcrHelper.DropKeepsFirstOperator` | Calculator/app/src/main/java/com/example/calculator/OCRHelper.java:217-229 | `1+-2` becomes `1+2`: of two adjacent operators the first is kept |
| `OcrHelper.FixCommonPatterns` | Calculator/app/src/main/java/com/example/calculator/OCRHelper.java:210-232 | the loop drops each operator whose predecessor in the input is an operator, and keeps the first of every run |
| `OcrHelper.Clean` | Calculator/app/src/main/java/com/example/calculator/OCRHelper.java:160-208 | the three passes leave no corrected character, no `=`, `,` or `;`, and no adjacent operators |
| `OcrHelper.CleanMathematicalText` | Calculator/app/src/main/java/com/example/calculator/OCRHelper.java:160-208 | the method computes `Clean`, with the empty text returned as it is |
| `OcrHelper.CleanKeeps` | Calculator/app/src/main/java/com/example/calculator/OCRHelper.java:160-232 | clean text is its own cleaning |
| `OcrHelper.CleanIdempotent` | Calculator/app/src/main/java/com/example/calculator/OCRHelper.java:160-232 | cleaning twice is cleaning once |
| `Text.KeepOnly` | Calculator/app/src/main/java/com/example/calculator/MainActivity.java:114 | the filter keeps exactly the occurrences of the kept characters and nothing else |
| `Text.KeepOnlyConcat` | Calculator/app/src/main/java/com/example/calculator/MainActivity.java:114 | the filter commutes with concatenation, so the kept characters stay in their order |
| `Text.KeepOnlySingle` | Calculator/app/src/main/java/com/example/calculator/MainActivity.java:114 | one character is kept exactly when it is in the kept set |
| `Text.CollapseDouble` | Calculator/app/src/main/java/com/example/calculator/OCRHelper.java:196-199 | replacing `cc` by `c` only removes characters |
| `Text.CollapseDoubleKeepsOthers` | Calculator/app/src/main/java/com/example/calculator/OCRHelper.java:196-199 | every character other than `c` stays, in order |
| `Text.CollapseDoubleIdentity` | Calculator/app/src/main/java/com/example/calculator/OCRHelper.java:196-199 | without a doubled `c` nothing changes |
| `Text.ReplaceEachConcat` | Calculator/app/src/main/java/com/example/calculator/OCRHelper.java:170-192 | a per-character replacement commutes with concatenation |
| `Text.Trim` | Calculator/app/src/main/java/com/example/calculator/OCRHelper.java:112 | `trim()` returns a contiguous piece of the text with only characters up to U+0020 outside it, and neither end of the result is such a character; text already without them is unchanged |
| `ButtonCalculator.ResultForCases` | Calculator/app/src/main/java/com/example/calculator/ButtonCalculatorActivity.java:92-111 | an empty buffer shows "0", an invalid one "Invalid expression", an evaluation failure "Error", and otherwise the value |
| `ButtonCalculator.ResultOfKeypadText` | Calculator/app/src/main/java/com/example/calculator/ButtonCalculatorActivity.java:99-104 | for a typed buffer the shown value is the evaluator's value on the buffer as it stands |
| `ButtonCalculator.SumShown` | Calculator/app/src/main/java/com/example/calculator/ButtonCalculatorActivity.java:92-111 | the buffer `2+3` shows the answer 5 |
| `ButtonCalculator.EmptyIgnoresOperators` | Calculator/app/src/main/java/com/example/calculator/ButtonCalculatorActivity.java:70-73 | on an empty buffer every operator-path key but the minus changes nothing, the parenthesis key included |
| `ButtonCalculator.AppendAccepted` | Calculator/app/src/main/java/com/example/calculator/ButtonCalculatorActivity.java:75-89 | an accepted key replaces the last character after an operator-path key, otherwise is added; the display shows the buffer and the flag is the path taken; a digit shows the result of the new buffer, an operator-path key keeps the old result |
| `ButtonCalculator.RepeatedOperatorReplaces` | Calculator/app/src/main/java/com/example/calculator/ButtonCalculatorActivity.java:75-82 | from an empty buffer, `2`, `+`, `+`, `3` types `2+3` and shows the answer 5 |
| `ButtonCalculator.ParenthesisReplacesParenthesis` | Calculator/app/src/main/java/com/example/calculator/ButtonCalculatorActivity.java:151-161 | from an empty buffer, `2` and two parenthesis presses type `2)` |
| `ButtonCalculator.BackspaceFlagQuirk` | Calculator/app/src/main/java/com/example/calculator/ButtonCalculatorActivity.java:130-145 | from an empty buffer, `2`, `+`, backspace, `*` types `*`: the flag comes from the removed `+` |
| `ButtonCalculator.BackspaceRemovesLast` | Calculator/app/src/main/java/com/example/calculator/ButtonCalculatorActivity.java:130-145 | backspace removes exactly the last character; emptied, the views reset and the flag stays, otherwise the flag tells whether the removed character was an operator and the result is that of the shortened buffer |
| `ButtonCalculator.BackspaceUndoesDigit` | Calculator/app/src/main/java/com/example/calculator/ButtonCalculatorActivity.java:130-133 | backspace after a digit restores the buffer |
| `ButtonCalculator.ClearResets` | Calculator/app/src/main/java/com/example/calculator/ButtonCalculatorActivity.java:123-128 | clear brings back the initial views from any state |
| `ButtonCalculator.ToggleChooses` | Calculator/app/src/main/java/com/example/calculator/ButtonCalculatorActivity.java:151-161 | after a digit the toggle adds `(` exactly when no more are open than closed, otherwise `)` |
| `ButtonCalculator.PressKeepsConsistent` | Calculator/app/src/main/java/com/example/calculator/ButtonCalculatorActivity.java:37-60 | every key keeps the buffer within the math alphabet and the display showing it, or "0" |
| `ButtonCalculator.PressAllKeepsConsistent` | Calculator/app/src/main/java/com/example/calculator/ButtonCalculatorActivity.java:37-60 | so does every sequence of keys |
| `ButtonCalculator.Keypad.constructor` | Calculator/app/src/main/java/com/example/calculator/ButtonCalculatorActivity.java:26-33 | the keypad starts empty, with "0" and "Ready" shown |
| `ButtonCalculator.Keypad.AppendToInput` | Calculator/app/src/main/java/com/example/calculator/ButtonCalculatorActivity.java:70-90 | the fields after the call are `AfterAppend` of the fields before |
| `ButtonCalculator.Keypad.CalculateResult` | Calculator/app/src/main/java/com/example/calculator/ButtonCalculatorActivity.java:92-111 | only the result changes, to `ResultFor` the buffer |
| `ButtonCalculator.Keypad.ClearCalculator` | Calculator/app/src/main/java/com/example/calculator/ButtonCalculatorActivity.java:123-128 | the fields become the initial ones |
| `ButtonCalculator.Keypad.Backspace` | Calculator/app/src/main/java/com/example/calculator/ButtonCalculatorActivity.java:130-145 | the fields after the call are `AfterBackspace` of the fields before |
| `ButtonCalculator.Keypad.ToggleParentheses` | Calculator/app/src/main/java/com/example/calculator/ButtonCalculatorActivity.java:151-161 | the fields after the call are `AfterToggle` of the fields before |
| `ButtonCalculator.Keypad.CountOccurrences` | Calculator/app/src/main/java/com/example/calculator/ButtonCalculatorActivity.java:163-169 | the count is the number of occurrences of the character |
| `MainActivity.FinalCleanShape` | Calculator/app/src/main/java/com/example/calculator/MainActivity.java:107-122 | the result holds only math characters, only characters of the text, and is never longer |
| `MainActivity.FinalCleanIsCollapse` | Calculator/app/src/main/java/com/example/calculator/MainActivity.java:113-121 | the two parenthesis replacements change nothing: the result is the pair replacements after the filter |
| `MainActivity.FinalCleanKeepsOperands` | Calculator/app/src/main/java/com/example/calculator/MainActivity.java:113-121 | every digit and parenthesis of the text is kept |
| `MainActivity.IsValidMathExpression` | Calculator/app/src/main/java/com/example/calculator/MainActivity.java:134-153 | the activity's validator accepts exactly what the parser's validator accepts |
| `MainActivity.OnOcrSuccess` | Calculator/app/src/main/java/com/example/calculator/MainActivity.java:73-96 | the method computes the decision `Decide` |
| `MainActivity.DecideMeans` | Calculator/app/src/main/java/com/example/calculator/MainActivity.java:79-90 | solved exactly when the cleaned text validates and evaluates, with that value; cannot solve exactly when it validates but fails, then only benignly; not valid exactly when it does not validate |
| `MainActivity.NoTextMeansBlank` | Calculator/app/src/main/java/com/example/calculator/MainActivity.java:75-94 | nothing is recognised exactly for a null, empty or blank text |
| `MainActivity.NoMathCharsNotValid` | Calculator/app/src/main/java/com/example/calculator/MainActivity.java:75-89 | a non-blank text without a math character cleans to the empty text and is not valid |

## Left out

- `DrawingView` is not part of this model: touch handling, drawing and the grid are user interface.
- The recogniser client is left out: OCR initialisation, bitmap recognition with its success and failure callbacks, `close`, and `preprocessImage`'s colour-matrix filter. They are foreign calls and floating-point image work.
- The recogniser's `Text` result is replaced by a sequence of `Line(text, hasBoundingBox)` in block-then-line order. Only the presence of a bounding box is used, not its geometry.
- Activity lifecycle and wiring are left out: `onCreate` beyond the initial views, listeners, intents, toasts, `runOnUiThread`, `onOCRError` and logging.
- Both `formatResult` methods are left out: they depend on a double-to-int cast and `String.format`. A keypad result is `Answer(v)`, standing for "= " and the formatted `v`. A solved recognition is `Solved(text, v)`. The fixed prefixes of the view texts are not modelled.
- Arithmetic is on exact reals, so IEEE-754 rounding, infinities and `Double.parseDouble` precision are left out. A literal is valid exactly when it has at least one digit and at most one dot.
- Confidence is in tenths. The source's double sums take nine distinct values ordered like those tenths, so every comparison agrees.
- Strings are sequences of Unicode scalar values, not UTF-16 code units. The length bonus of the confidence agrees with the source's `length()` only for characters of the Basic Multilingual Plane. `trim()` agrees on every character, since each character it removes is one code unit.
- `Character.isDigit` in the evaluator accepts non-ASCII digits. The model uses ASCII digits, which is what the evaluator meets after the validator.
- The null arguments of `cleanMathematicalText` and `fixCommonPatterns` are not modelled, since every caller passes a string. Only `onOCRSuccess` takes `Option<string>`, with `None` for null.
- Exceptions are modelled as `Result`/`Option` values. Their messages are left out, except where a view shows one.
