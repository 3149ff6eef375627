/**
 * OCRHelper: the confidence heuristic, the selection of the recognised text
 * among the lines the recogniser returns, and the three cleaning passes
 * of `cleanMathematicalText`.
 *
 * The recogniser's result (blocks of lines) is flattened into a sequence of
 * `Line`s in block-then-line order; only a line's text and whether it has a
 * bounding box matter to the selection.
 */
module OcrHelper {
  import opened Text

  // ---------------------------------------------------------------------
  // Confidence, in tenths
  // ---------------------------------------------------------------------

  const Digits: set<char> := {'0', '1', '2', '3', '4', '5', '6', '7', '8', '9'}
  const Operators: set<char> := {'+', '-', '*', '/'}
  const Parens: set<char> := {'(', ')'}

  /**
   * `text.matches(".*[cs].*")`: the whole text matches, so it holds a character
   * of `cs` and, since `.` stops at line terminators, no line terminator.
   */
  predicate Matches(text: string, cs: set<char>) {
    NoneIn(text, LineTerminators) && exists i | 0 <= i < |text| :: text[i] in cs
  }

  predicate ReasonableLength(text: string) { 3 <= |text| <= 15 }

  /**
   * `calculateConfidence` in tenths: 3 for a digit, 3 for an operator, 2 for a
   * parenthesis, 2 for a length from 3 to 15. The double sums of the source
   * take nine distinct values ordered like these tenths, and 0.3 + 0.2 is
   * exactly 0.5, so every comparison of the source agrees with this one.
   */
  function Confidence(text: string): (r: nat)
    ensures r <= 10
    ensures r == 0 <==> !Matches(text, Digits) && !Matches(text, Operators) && !Matches(text, Parens) && !ReasonableLength(text)
    ensures r > 5 <==>
      || (Matches(text, Digits) && Matches(text, Operators))
      || ((Matches(text, Digits) || Matches(text, Operators)) && Matches(text, Parens) && ReasonableLength(text))
  {
    (if Matches(text, Digits) then 3 else 0)
    + (if Matches(text, Operators) then 3 else 0)
    + (if Matches(text, Parens) then 2 else 0)
    + (if ReasonableLength(text) then 2 else 0)
  }

  /** Only a non-empty text can score. */
  lemma ConfidenceOfEmpty()
    ensures Confidence("") == 0
  {
  }

  // ---------------------------------------------------------------------
  // First pass: the per-character corrections
  // ---------------------------------------------------------------------

  /** The characters a correction writes: digits, parentheses and the slash. */
  predicate IsCorrectionOutput(c: char) { IsDigit(c) || c == '(' || c == ')' || c == '/' }

  /** No correction writes a character of `x`. */
  predicate Unwritten(x: set<char>) { forall c | c in x :: !IsCorrectionOutput(c) }

  const LookalikeChars: set<char> := {'l', 'L', '|', '!', 'I', 'o', 'O', 's', 'S', 'z', 'Z', 'a', 'A', ':'}

  /** Part of the first pass: digits and the slash that the recogniser reads as letters or punctuation. */
  function Lookalikes(s: string): string {
    var t0 := ReplaceEach(s, {'l', 'L', '|', '!', 'I'}, "1");
    var t1 := ReplaceEach(t0, {'o', 'O'}, "0");
    var t2 := ReplaceEach(t1, {'s', 'S'}, "5");
    var t3 := ReplaceEach(t2, {'z', 'Z'}, "2");
    var t4 := ReplaceEach(t3, {'a', 'A'}, "4");
    ReplaceEach(t4, {':'}, "/")
  }

  lemma LookalikesConcat(a: string, b: string)
    ensures Lookalikes(a + b) == Lookalikes(a) + Lookalikes(b)
  {
    ReplaceEachConcat(a, b, {'l', 'L', '|', '!', 'I'}, "1");
    var a0, b0 := ReplaceEach(a, {'l', 'L', '|', '!', 'I'}, "1"), ReplaceEach(b, {'l', 'L', '|', '!', 'I'}, "1");
    ReplaceEachConcat(a0, b0, {'o', 'O'}, "0");
    var a1, b1 := ReplaceEach(a0, {'o', 'O'}, "0"), ReplaceEach(b0, {'o', 'O'}, "0");
    ReplaceEachConcat(a1, b1, {'s', 'S'}, "5");
    var a2, b2 := ReplaceEach(a1, {'s', 'S'}, "5"), ReplaceEach(b1, {'s', 'S'}, "5");
    ReplaceEachConcat(a2, b2, {'z', 'Z'}, "2");
    var a3, b3 := ReplaceEach(a2, {'z', 'Z'}, "2"), ReplaceEach(b2, {'z', 'Z'}, "2");
    ReplaceEachConcat(a3, b3, {'a', 'A'}, "4");
    var a4, b4 := ReplaceEach(a3, {'a', 'A'}, "4"), ReplaceEach(b3, {'a', 'A'}, "4");
    ReplaceEachConcat(a4, b4, {':'}, "/");
  }

  lemma LookalikesKeeps(s: string)
    requires NoneIn(s, LookalikeChars)
    ensures Lookalikes(s) == s
  {
    ReplaceEachIdentity(s, {'l', 'L', '|', '!', 'I'}, "1");
    ReplaceEachIdentity(s, {'o', 'O'}, "0");
    ReplaceEachIdentity(s, {'s', 'S'}, "5");
    ReplaceEachIdentity(s, {'z', 'Z'}, "2");
    ReplaceEachIdentity(s, {'a', 'A'}, "4");
    ReplaceEachIdentity(s, {':'}, "/");
  }

  lemma LookalikesClears(s: string)
    ensures NoneIn(Lookalikes(s), LookalikeChars)
  {
    var t2 := ReplaceEach(ReplaceEach(ReplaceEach(s, {'l', 'L', '|', '!', 'I'}, "1"), {'o', 'O'}, "0"), {'s', 'S'}, "5");
    LookalikesClearsFront(s);
    LookalikesClearsBack(t2);
  }

  lemma LookalikesClearsFront(s: string)
    ensures NoneIn(ReplaceEach(ReplaceEach(ReplaceEach(s, {'l', 'L', '|', '!', 'I'}, "1"), {'o', 'O'}, "0"), {'s', 'S'}, "5"),
                   {'l', 'L', '|', '!', 'I', 'o', 'O', 's', 'S'})
  {
    var t0 := ReplaceEach(s, {'l', 'L', '|', '!', 'I'}, "1");
    ReplaceEachClears(s, {'l', 'L', '|', '!', 'I'}, "1");
    var t1 := ReplaceEach(t0, {'o', 'O'}, "0");
    ReplaceEachAvoids(t0, {'o', 'O'}, "0", {'l', 'L', '|', '!', 'I'});
    ReplaceEachAvoids(t1, {'s', 'S'}, "5", {'l', 'L', '|', '!', 'I'} + {'o', 'O'});
    assert {'l', 'L', '|', '!', 'I'} + {'o', 'O'} + {'s', 'S'} == {'l', 'L', '|', '!', 'I', 'o', 'O', 's', 'S'};
  }

  lemma LookalikesClearsBack(t2: string)
    requires NoneIn(t2, {'l', 'L', '|', '!', 'I', 'o', 'O', 's', 'S'})
    ensures NoneIn(ReplaceEach(ReplaceEach(ReplaceEach(t2, {'z', 'Z'}, "2"), {'a', 'A'}, "4"), {':'}, "/"), LookalikeChars)
  {
    var x := {'l', 'L', '|', '!', 'I', 'o', 'O', 's', 'S'};
    var t3 := ReplaceEach(t2, {'z', 'Z'}, "2");
    ReplaceEachAvoids(t2, {'z', 'Z'}, "2", x);
    var t4 := ReplaceEach(t3, {'a', 'A'}, "4");
    ReplaceEachAvoids(t3, {'a', 'A'}, "4", x + {'z', 'Z'});
    ReplaceEachAvoids(t4, {':'}, "/", x + {'z', 'Z'} + {'a', 'A'});
    assert x + {'z', 'Z'} + {'a', 'A'} + {':'} == LookalikeChars;
  }

  lemma LookalikesKeepsOut(s: string, x: set<char>)
    requires NoneIn(s, x) && Unwritten(x)
    ensures NoneIn(Lookalikes(s), x)
  {
    var t0 := ReplaceEach(s, {'l', 'L', '|', '!', 'I'}, "1");
    ReplaceEachKeepsOut(s, {'l', 'L', '|', '!', 'I'}, "1", x);
    var t1 := ReplaceEach(t0, {'o', 'O'}, "0");
    ReplaceEachKeepsOut(t0, {'o', 'O'}, "0", x);
    var t2 := ReplaceEach(t1, {'s', 'S'}, "5");
    ReplaceEachKeepsOut(t1, {'s', 'S'}, "5", x);
    var t3 := ReplaceEach(t2, {'z', 'Z'}, "2");
    ReplaceEachKeepsOut(t2, {'z', 'Z'}, "2", x);
    var t4 := ReplaceEach(t3, {'a', 'A'}, "4");
    ReplaceEachKeepsOut(t3, {'a', 'A'}, "4", x);
    var t5 := ReplaceEach(t4, {':'}, "/");
    ReplaceEachKeepsOut(t4, {':'}, "/", x);
  }

  const BracketChars: set<char> := {'{', '}', '[', ']', '\'', '"', '`'}

  /** Part of the first pass: braces and brackets become parentheses, quotes and backticks go. */
  function Brackets(s: string): string {
    var t0 := ReplaceEach(s, {'{', '}'}, "()");
    var t1 := ReplaceEach(t0, {'['}, "(");
    var t2 := ReplaceEach(t1, {']'}, ")");
    var t3 := ReplaceEach(t2, {'\''}, "");
    var t4 := ReplaceEach(t3, {'"'}, "");
    ReplaceEach(t4, {'`'}, "")
  }

  lemma BracketsConcat(a: string, b: string)
    ensures Brackets(a + b) == Brackets(a) + Brackets(b)
  {
    ReplaceEachConcat(a, b, {'{', '}'}, "()");
    var a0, b0 := ReplaceEach(a, {'{', '}'}, "()"), ReplaceEach(b, {'{', '}'}, "()");
    ReplaceEachConcat(a0, b0, {'['}, "(");
    var a1, b1 := ReplaceEach(a0, {'['}, "("), ReplaceEach(b0, {'['}, "(");
    ReplaceEachConcat(a1, b1, {']'}, ")");
    var a2, b2 := ReplaceEach(a1, {']'}, ")"), ReplaceEach(b1, {']'}, ")");
    ReplaceEachConcat(a2, b2, {'\''}, "");
    var a3, b3 := ReplaceEach(a2, {'\''}, ""), ReplaceEach(b2, {'\''}, "");
    ReplaceEachConcat(a3, b3, {'"'}, "");
    var a4, b4 := ReplaceEach(a3, {'"'}, ""), ReplaceEach(b3, {'"'}, "");
    ReplaceEachConcat(a4, b4, {'`'}, "");
  }

  lemma BracketsKeeps(s: string)
    requires NoneIn(s, BracketChars)
    ensures Brackets(s) == s
  {
    ReplaceEachIdentity(s, {'{', '}'}, "()");
    ReplaceEachIdentity(s, {'['}, "(");
    ReplaceEachIdentity(s, {']'}, ")");
    ReplaceEachIdentity(s, {'\''}, "");
    ReplaceEachIdentity(s, {'"'}, "");
    ReplaceEachIdentity(s, {'`'}, "");
  }

  lemma BracketsClears(s: string)
    ensures NoneIn(Brackets(s), BracketChars)
  {
    var t0 := ReplaceEach(s, {'{', '}'}, "()");
    ReplaceEachClears(s, {'{', '}'}, "()");
    var t1 := ReplaceEach(t0, {'['}, "(");
    ReplaceEachAvoids(t0, {'['}, "(", {'{', '}'});
    var t2 := ReplaceEach(t1, {']'}, ")");
    ReplaceEachAvoids(t1, {']'}, ")", {'{', '}'} + {'['});
    var t3 := ReplaceEach(t2, {'\''}, "");
    ReplaceEachAvoids(t2, {'\''}, "", {'{', '}'} + {'['} + {']'});
    var t4 := ReplaceEach(t3, {'"'}, "");
    ReplaceEachAvoids(t3, {'"'}, "", {'{', '}'} + {'['} + {']'} + {'\''});
    var t5 := ReplaceEach(t4, {'`'}, "");
    ReplaceEachAvoids(t4, {'`'}, "", {'{', '}'} + {'['} + {']'} + {'\''} + {'"'});
    assert {'{', '}'} + {'['} + {']'} + {'\''} + {'"'} + {'`'} == BracketChars;
  }

  lemma BracketsKeepsOut(s: string, x: set<char>)
    requires NoneIn(s, x) && Unwritten(x)
    ensures NoneIn(Brackets(s), x)
  {
    var t0 := ReplaceEach(s, {'{', '}'}, "()");
    ReplaceEachKeepsOut(s, {'{', '}'}, "()", x);
    var t1 := ReplaceEach(t0, {'['}, "(");
    ReplaceEachKeepsOut(t0, {'['}, "(", x);
    var t2 := ReplaceEach(t1, {']'}, ")");
    ReplaceEachKeepsOut(t1, {']'}, ")", x);
    var t3 := ReplaceEach(t2, {'\''}, "");
    ReplaceEachKeepsOut(t2, {'\''}, "", x);
    var t4 := ReplaceEach(t3, {'"'}, "");
    ReplaceEachKeepsOut(t3, {'"'}, "", x);
    var t5 := ReplaceEach(t4, {'`'}, "");
    ReplaceEachKeepsOut(t4, {'`'}, "", x);
  }

  const LetterChars: set<char> := {'i', 'B', 'b', 'g', 'q', 't', 'T', 'Y', 'Z', 'S'}

  /** Part of the first pass: single letters read as digits. */
  function Letters(s: string): string {
    var t0 := ReplaceEach(s, {'i'}, "1");
    var t1 := ReplaceEach(t0, {'B'}, "8");
    var t2 := ReplaceEach(t1, {'b'}, "6");
    var t3 := ReplaceEach(t2, {'g'}, "9");
    var t4 := ReplaceEach(t3, {'q'}, "9");
    var t5 := ReplaceEach(t4, {'t'}, "7");
    var t6 := ReplaceEach(t5, {'T'}, "7");
    var t7 := ReplaceEach(t6, {'Y'}, "7");
    var t8 := ReplaceEach(t7, {'Z'}, "2");
    ReplaceEach(t8, {'S'}, "5")
  }

  lemma LettersConcat(a: string, b: string)
    ensures Letters(a + b) == Letters(a) + Letters(b)
  {
    ReplaceEachConcat(a, b, {'i'}, "1");
    var a0, b0 := ReplaceEach(a, {'i'}, "1"), ReplaceEach(b, {'i'}, "1");
    ReplaceEachConcat(a0, b0, {'B'}, "8");
    var a1, b1 := ReplaceEach(a0, {'B'}, "8"), ReplaceEach(b0, {'B'}, "8");
    ReplaceEachConcat(a1, b1, {'b'}, "6");
    var a2, b2 := ReplaceEach(a1, {'b'}, "6"), ReplaceEach(b1, {'b'}, "6");
    ReplaceEachConcat(a2, b2, {'g'}, "9");
    var a3, b3 := ReplaceEach(a2, {'g'}, "9"), ReplaceEach(b2, {'g'}, "9");
    ReplaceEachConcat(a3, b3, {'q'}, "9");
    var a4, b4 := ReplaceEach(a3, {'q'}, "9"), ReplaceEach(b3, {'q'}, "9");
    ReplaceEachConcat(a4, b4, {'t'}, "7");
    var a5, b5 := ReplaceEach(a4, {'t'}, "7"), ReplaceEach(b4, {'t'}, "7");
    ReplaceEachConcat(a5, b5, {'T'}, "7");
    var a6, b6 := ReplaceEach(a5, {'T'}, "7"), ReplaceEach(b5, {'T'}, "7");
    ReplaceEachConcat(a6, b6, {'Y'}, "7");
    var a7, b7 := ReplaceEach(a6, {'Y'}, "7"), ReplaceEach(b6, {'Y'}, "7");
    ReplaceEachConcat(a7, b7, {'Z'}, "2");
    var a8, b8 := ReplaceEach(a7, {'Z'}, "2"), ReplaceEach(b7, {'Z'}, "2");
    ReplaceEachConcat(a8, b8, {'S'}, "5");
  }

  lemma LettersKeeps(s: string)
    requires NoneIn(s, LetterChars)
    ensures Letters(s) == s
  {
    ReplaceEachIdentity(s, {'i'}, "1");
    ReplaceEachIdentity(s, {'B'}, "8");
    ReplaceEachIdentity(s, {'b'}, "6");
    ReplaceEachIdentity(s, {'g'}, "9");
    ReplaceEachIdentity(s, {'q'}, "9");
    ReplaceEachIdentity(s, {'t'}, "7");
    ReplaceEachIdentity(s, {'T'}, "7");
    ReplaceEachIdentity(s, {'Y'}, "7");
    ReplaceEachIdentity(s, {'Z'}, "2");
    ReplaceEachIdentity(s, {'S'}, "5");
  }

  lemma LettersClears(s: string)
    ensures NoneIn(Letters(s), LetterChars)
  {
    var t4 := ReplaceEach(ReplaceEach(ReplaceEach(ReplaceEach(ReplaceEach(s, {'i'}, "1"), {'B'}, "8"), {'b'}, "6"), {'g'}, "9"), {'q'}, "9");
    LettersClearsFront(s);
    LettersClearsBack(t4);
  }

  lemma LettersClearsFront(s: string)
    ensures NoneIn(ReplaceEach(ReplaceEach(ReplaceEach(ReplaceEach(ReplaceEach(s, {'i'}, "1"), {'B'}, "8"), {'b'}, "6"), {'g'}, "9"), {'q'}, "9"), {'i', 'B', 'b', 'g', 'q'})
  {
    var t0 := ReplaceEach(s, {'i'}, "1");
    ReplaceEachClears(s, {'i'}, "1");
    var t1 := ReplaceEach(t0, {'B'}, "8");
    ReplaceEachAvoids(t0, {'B'}, "8", {'i'});
    var t2 := ReplaceEach(t1, {'b'}, "6");
    ReplaceEachAvoids(t1, {'b'}, "6", {'i', 'B'});
    var t3 := ReplaceEach(t2, {'g'}, "9");
    ReplaceEachAvoids(t2, {'g'}, "9", {'i', 'B', 'b'});
    ReplaceEachAvoids(t3, {'q'}, "9", {'i', 'B', 'b', 'g'});
    assert {'i', 'B', 'b', 'g'} + {'q'} == {'i', 'B', 'b', 'g', 'q'};
  }

  lemma LettersClearsBack(t4: string)
    requires NoneIn(t4, {'i', 'B', 'b', 'g', 'q'})
    ensures NoneIn(ReplaceEach(ReplaceEach(ReplaceEach(ReplaceEach(ReplaceEach(t4, {'t'}, "7"), {'T'}, "7"), {'Y'}, "7"), {'Z'}, "2"), {'S'}, "5"), LetterChars)
  {
    var x := {'i', 'B', 'b', 'g', 'q'};
    var t5 := ReplaceEach(t4, {'t'}, "7");
    ReplaceEachAvoids(t4, {'t'}, "7", x);
    var t6 := ReplaceEach(t5, {'T'}, "7");
    ReplaceEachAvoids(t5, {'T'}, "7", x + {'t'});
    var t7 := ReplaceEach(t6, {'Y'}, "7");
    ReplaceEachAvoids(t6, {'Y'}, "7", x + {'t'} + {'T'});
    var t8 := ReplaceEach(t7, {'Z'}, "2");
    ReplaceEachAvoids(t7, {'Z'}, "2", x + {'t'} + {'T'} + {'Y'});
    ReplaceEachAvoids(t8, {'S'}, "5", x + {'t'} + {'T'} + {'Y'} + {'Z'});
    assert x + {'t'} + {'T'} + {'Y'} + {'Z'} + {'S'} == LetterChars;
  }

  lemma LettersKeepsOut(s: string, x: set<char>)
    requires NoneIn(s, x) && Unwritten(x)
    ensures NoneIn(Letters(s), x)
  {
    var t0 := ReplaceEach(s, {'i'}, "1");
    ReplaceEachKeepsOut(s, {'i'}, "1", x);
    var t1 := ReplaceEach(t0, {'B'}, "8");
    ReplaceEachKeepsOut(t0, {'B'}, "8", x);
    var t2 := ReplaceEach(t1, {'b'}, "6");
    ReplaceEachKeepsOut(t1, {'b'}, "6", x);
    var t3 := ReplaceEach(t2, {'g'}, "9");
    ReplaceEachKeepsOut(t2, {'g'}, "9", x);
    var t4 := ReplaceEach(t3, {'q'}, "9");
    ReplaceEachKeepsOut(t3, {'q'}, "9", x);
    var t5 := ReplaceEach(t4, {'t'}, "7");
    ReplaceEachKeepsOut(t4, {'t'}, "7", x);
    var t6 := ReplaceEach(t5, {'T'}, "7");
    ReplaceEachKeepsOut(t5, {'T'}, "7", x);
    var t7 := ReplaceEach(t6, {'Y'}, "7");
    ReplaceEachKeepsOut(t6, {'Y'}, "7", x);
    var t8 := ReplaceEach(t7, {'Z'}, "2");
    ReplaceEachKeepsOut(t7, {'Z'}, "2", x);
    var t9 := ReplaceEach(t8, {'S'}, "5");
    ReplaceEachKeepsOut(t8, {'S'}, "5", x);
  }

  /** The characters the first pass rewrites or deletes. */
  const FirstPassChars: set<char> := JavaWhitespace + LookalikeChars + BracketChars + LetterChars

  /** The first pass: the chain of `replaceAll` calls, in the source's order. */
  function FirstPass(s: string): string {
    Letters(Brackets(Lookalikes(ReplaceEach(s, JavaWhitespace, ""))))
  }

  // ---------------------------------------------------------------------
  // The first pass, one character at a time
  // ---------------------------------------------------------------------

  function LookalikeOf(c: char): char {
    if c in {'l', 'L', '|', '!', 'I'} then '1'
    else if c in {'o', 'O'} then '0'
    else if c in {'s', 'S'} then '5'
    else if c in {'z', 'Z'} then '2'
    else if c in {'a', 'A'} then '4'
    else if c == ':' then '/'
    else c
  }

  lemma LookalikesOfChar(c: char)
    ensures Lookalikes([c]) == [LookalikeOf(c)]
  {
    var c2 := if c in {'l', 'L', '|', '!', 'I'} then '1' else if c in {'o', 'O'} then '0' else if c in {'s', 'S'} then '5' else c;
    LookalikesFrontOfChar(c);
    LookalikesBackOfChar(c2);
  }

  lemma LookalikesFrontOfChar(c: char)
    ensures ReplaceEach(ReplaceEach(ReplaceEach([c], {'l', 'L', '|', '!', 'I'}, "1"), {'o', 'O'}, "0"), {'s', 'S'}, "5")
         == [if c in {'l', 'L', '|', '!', 'I'} then '1' else if c in {'o', 'O'} then '0' else if c in {'s', 'S'} then '5' else c]
  {
    var c0 := if c in {'l', 'L', '|', '!', 'I'} then '1' else c;
    ReplaceEachChar(c, {'l', 'L', '|', '!', 'I'}, '1');
    var c1 := if c0 in {'o', 'O'} then '0' else c0;
    ReplaceEachChar(c0, {'o', 'O'}, '0');
    ReplaceEachChar(c1, {'s', 'S'}, '5');
  }

  lemma LookalikesBackOfChar(c2: char)
    ensures ReplaceEach(ReplaceEach(ReplaceEach([c2], {'z', 'Z'}, "2"), {'a', 'A'}, "4"), {':'}, "/")
         == [if c2 in {'z', 'Z'} then '2' else if c2 in {'a', 'A'} then '4' else if c2 == ':' then '/' else c2]
  {
    var c3 := if c2 in {'z', 'Z'} then '2' else c2;
    ReplaceEachChar(c2, {'z', 'Z'}, '2');
    var c4 := if c3 in {'a', 'A'} then '4' else c3;
    ReplaceEachChar(c3, {'a', 'A'}, '4');
    ReplaceEachChar(c4, {':'}, '/');
  }

  function BracketOf(c: char): string {
    if c in {'{', '}'} then "()"
    else if c == '[' then "("
    else if c == ']' then ")"
    else if c in {'\'', '"', '`'} then ""
    else [c]
  }

  lemma BracketsOfChar(c: char)
    ensures Brackets([c]) == BracketOf(c)
  {
    ReplaceEachSingle(c, {'{', '}'}, "()");
    if c in {'{', '}'} {
      BracketsRestKeeps("()");
    } else {
      var c1 := if c == '[' then '(' else c;
      ReplaceEachChar(c, {'['}, '(');
      var c2 := if c1 == ']' then ')' else c1;
      ReplaceEachChar(c1, {']'}, ')');
      ReplaceEachSingle(c2, {'\''}, "");
      if c2 != '\'' {
        ReplaceEachSingle(c2, {'"'}, "");
        if c2 != '"' {
          ReplaceEachSingle(c2, {'`'}, "");
        }
      }
    }
  }

  /** The steps of `Brackets` after the first leave parentheses alone. */
  lemma BracketsRestKeeps(s: string)
    requires NoneIn(s, {'[', ']', '\'', '"', '`'})
    ensures ReplaceEach(ReplaceEach(ReplaceEach(ReplaceEach(ReplaceEach(s, {'['}, "("), {']'}, ")"), {'\''}, ""), {'"'}, ""), {'`'}, "") == s
  {
    ReplaceEachIdentity(s, {'['}, "(");
    ReplaceEachIdentity(s, {']'}, ")");
    ReplaceEachIdentity(s, {'\''}, "");
    ReplaceEachIdentity(s, {'"'}, "");
    ReplaceEachIdentity(s, {'`'}, "");
  }

  function LetterOf(c: char): char {
    if c == 'i' then '1'
    else if c == 'B' then '8'
    else if c == 'b' then '6'
    else if c in {'g', 'q'} then '9'
    else if c in {'t', 'T', 'Y'} then '7'
    else if c == 'Z' then '2'
    else if c == 'S' then '5'
    else c
  }

  lemma LettersOfChar(c: char)
    ensures Letters([c]) == [LetterOf(c)]
  {
    var c4 := if c == 'i' then '1' else if c == 'B' then '8' else if c == 'b' then '6' else if c in {'g', 'q'} then '9' else c;
    LettersFrontOfChar(c);
    LettersBackOfChar(c4);
  }

  lemma LettersFrontOfChar(c: char)
    ensures ReplaceEach(ReplaceEach(ReplaceEach(ReplaceEach(ReplaceEach([c], {'i'}, "1"), {'B'}, "8"), {'b'}, "6"), {'g'}, "9"), {'q'}, "9")
         == [if c == 'i' then '1' else if c == 'B' then '8' else if c == 'b' then '6' else if c in {'g', 'q'} then '9' else c]
  {
    var c0 := if c == 'i' then '1' else c;
    ReplaceEachChar(c, {'i'}, '1');
    var c1 := if c0 == 'B' then '8' else c0;
    ReplaceEachChar(c0, {'B'}, '8');
    var c2 := if c1 == 'b' then '6' else c1;
    ReplaceEachChar(c1, {'b'}, '6');
    var c3 := if c2 == 'g' then '9' else c2;
    ReplaceEachChar(c2, {'g'}, '9');
    ReplaceEachChar(c3, {'q'}, '9');
  }

  lemma LettersBackOfChar(c4: char)
    ensures ReplaceEach(ReplaceEach(ReplaceEach(ReplaceEach(ReplaceEach([c4], {'t'}, "7"), {'T'}, "7"), {'Y'}, "7"), {'Z'}, "2"), {'S'}, "5")
         == [if c4 in {'t', 'T', 'Y'} then '7' else if c4 == 'Z' then '2' else if c4 == 'S' then '5' else c4]
  {
    var c5 := if c4 == 't' then '7' else c4;
    ReplaceEachChar(c4, {'t'}, '7');
    var c6 := if c5 == 'T' then '7' else c5;
    ReplaceEachChar(c5, {'T'}, '7');
    var c7 := if c6 == 'Y' then '7' else c6;
    ReplaceEachChar(c6, {'Y'}, '7');
    var c8 := if c7 == 'Z' then '2' else c7;
    ReplaceEachChar(c7, {'Z'}, '2');
    ReplaceEachChar(c8, {'S'}, '5');
  }

  /**
   * The first pass as a table: whitespace and the three quote marks vanish,
   * lookalike letters and punctuation become digits or the slash, brackets
   * become parentheses, and each brace becomes a pair of parentheses.
   */
  function FirstPassOf(c: char): (r: string)
    ensures |r| <= 2
  {
    if c in JavaWhitespace || c in {'\'', '"', '`'} then ""
    else if c in {'l', 'L', '|', '!', 'I', 'i'} then "1"
    else if c in {'o', 'O'} then "0"
    else if c in {'s', 'S'} then "5"
    else if c in {'z', 'Z'} then "2"
    else if c in {'a', 'A'} then "4"
    else if c == 'B' then "8"
    else if c == 'b' then "6"
    else if c in {'g', 'q'} then "9"
    else if c in {'t', 'T', 'Y'} then "7"
    else if c == ':' then "/"
    else if c == '[' then "("
    else if c == ']' then ")"
    else if c in {'{', '}'} then "()"
    else [c]
  }

  /** The table composed from the three stages. */
  lemma FirstPassOfStages(c: char)
    requires c !in JavaWhitespace
    ensures var b := BracketOf(LookalikeOf(c));
      FirstPassOf(c) == if |b| == 1 then [LetterOf(b[0])] else b
  {
  }

  lemma LettersOfBracket(d: char)
    ensures var b := BracketOf(d); Letters(b) == if |b| == 1 then [LetterOf(b[0])] else b
  {
    var b := BracketOf(d);
    if |b| == 1 {
      assert b == [b[0]];
      LettersOfChar(b[0]);
    } else {
      LettersKeeps(b);
    }
  }

  lemma FirstPassOfChar(c: char)
    ensures FirstPass([c]) == FirstPassOf(c)
  {
    ReplaceEachSingle(c, JavaWhitespace, "");
    if c !in JavaWhitespace {
      LookalikesOfChar(c);
      BracketsOfChar(LookalikeOf(c));
      LettersOfBracket(LookalikeOf(c));
      FirstPassOfStages(c);
    } else {
      LookalikesKeeps("");
      BracketsKeeps("");
      LettersKeeps("");
    }
  }

  /** The table applied to every character in turn. */
  function MapFirstPass(s: string): string {
    if s == [] then [] else FirstPassOf(s[0]) + MapFirstPass(s[1..])
  }

  /** The first pass acts character by character: it commutes with concatenation. */
  lemma FirstPassIsLocal(a: string, b: string)
    ensures FirstPass(a + b) == FirstPass(a) + FirstPass(b)
  {
    ReplaceEachConcat(a, b, JavaWhitespace, "");
    var a0, b0 := ReplaceEach(a, JavaWhitespace, ""), ReplaceEach(b, JavaWhitespace, "");
    LookalikesConcat(a0, b0);
    BracketsConcat(Lookalikes(a0), Lookalikes(b0));
    LettersConcat(Brackets(Lookalikes(a0)), Brackets(Lookalikes(b0)));
  }

  /** The first pass is exactly the per-character table. */
  lemma {:induction false} FirstPassIsMap(s: string)
    ensures FirstPass(s) == MapFirstPass(s)
    decreases |s|
  {
    if s != [] {
      assert s == [s[0]] + s[1..];
      FirstPassIsLocal([s[0]], s[1..]);
      FirstPassOfChar(s[0]);
      FirstPassIsMap(s[1..]);
    }
  }


  lemma NoneInUnion(s: string, x: set<char>, y: set<char>)
    requires NoneIn(s, x) && NoneIn(s, y)
    ensures NoneIn(s, x + y)
  {
  }

  lemma LookalikesAfterSpaces(s: string)
    ensures NoneIn(Lookalikes(ReplaceEach(s, JavaWhitespace, "")), JavaWhitespace + LookalikeChars)
  {
    var u0 := ReplaceEach(s, JavaWhitespace, "");
    ReplaceEachClears(s, JavaWhitespace, "");
    LookalikesClears(u0);
    LookalikesKeepsOut(u0, JavaWhitespace);
    NoneInUnion(Lookalikes(u0), JavaWhitespace, LookalikeChars);
  }

  lemma BracketsAfter(u: string, x: set<char>)
    requires NoneIn(u, x) && Unwritten(x)
    ensures NoneIn(Brackets(u), x + BracketChars)
  {
    BracketsClears(u);
    BracketsKeepsOut(u, x);
    NoneInUnion(Brackets(u), x, BracketChars);
  }

  lemma LettersAfter(u: string, x: set<char>)
    requires NoneIn(u, x) && Unwritten(x)
    ensures NoneIn(Letters(u), x + LetterChars)
  {
    LettersClears(u);
    LettersKeepsOut(u, x);
    NoneInUnion(Letters(u), x, LetterChars);
  }

  /** After the first pass no character it corrects is left. */
  lemma FirstPassClears(s: string)
    ensures NoneIn(FirstPass(s), FirstPassChars)
  {
    LookalikesAfterSpaces(s);
    AfterLookalikes(Lookalikes(ReplaceEach(s, JavaWhitespace, "")));
  }

  /** The corrections write none of the characters the earlier stages cleared. */
  lemma EarlierStagesUnwritten()
    ensures Unwritten(JavaWhitespace + LookalikeChars)
    ensures Unwritten(JavaWhitespace + LookalikeChars + BracketChars)
  {
  }

  lemma AfterLookalikes(u1: string)
    requires NoneIn(u1, JavaWhitespace + LookalikeChars)
    ensures NoneIn(Letters(Brackets(u1)), FirstPassChars)
  {
    EarlierStagesUnwritten();
    BracketsAfter(u1, JavaWhitespace + LookalikeChars);
    LettersAfter(Brackets(u1), JavaWhitespace + LookalikeChars + BracketChars);
  }

  /** Text without any character the first pass corrects is left as it is. */
  lemma FirstPassKeeps(s: string)
    requires NoneIn(s, FirstPassChars)
    ensures FirstPass(s) == s
  {
    ReplaceEachIdentity(s, JavaWhitespace, "");
    LookalikesKeeps(s);
    BracketsKeeps(s);
    LettersKeeps(s);
  }

  // ---------------------------------------------------------------------
  // Second pass: operator pairs and decimal separators
  // ---------------------------------------------------------------------

  /** The characters the second pass deletes or rewrites into a dot. */
  const SecondPassChars: set<char> := {'=', ',', ';'}

  /** The second chain of `replaceAll` calls: one of each doubled operator, no `=`, `,` and `;` as `.`. */
  function SecondPass(s: string): string {
    var t0 := CollapseDouble(s, '+');
    var t1 := CollapseDouble(t0, '-');
    var t2 := CollapseDouble(t1, '*');
    var t3 := CollapseDouble(t2, '/');
    var t4 := ReplaceEach(t3, {'='}, "");
    var t5 := ReplaceEach(t4, {','}, ".");
    ReplaceEach(t5, {';'}, ".")
  }

  lemma NoneInShrinks(s: string, r: string, x: set<char>)
    requires multiset(r) <= multiset(s) && NoneIn(s, x)
    ensures NoneIn(r, x)
  {
    forall i | 0 <= i < |r| ensures r[i] !in x {
      assert r[i] in multiset(r);
      var j :| 0 <= j < |s| && s[j] == r[i];
    }
  }

  lemma SecondPassClears(s: string)
    ensures NoneIn(SecondPass(s), SecondPassChars)
  {
    SeparatorsClear(CollapseDouble(CollapseDouble(CollapseDouble(CollapseDouble(s, '+'), '-'), '*'), '/'));
  }

  /** The last three replacements of the second pass leave no `=`, `,` or `;`. */
  lemma SeparatorsClear(t3: string)
    ensures NoneIn(ReplaceEach(ReplaceEach(ReplaceEach(t3, {'='}, ""), {','}, "."), {';'}, "."), SecondPassChars)
  {
    var t4 := ReplaceEach(t3, {'='}, "");
    ReplaceEachClears(t3, {'='}, "");
    var t5 := ReplaceEach(t4, {','}, ".");
    ReplaceEachAvoids(t4, {','}, ".", {'='});
    ReplaceEachAvoids(t5, {';'}, ".", {'=', ','});
    assert {'=', ','} + {';'} == SecondPassChars;
  }

  /** The second pass writes no character but a dot. */
  lemma SecondPassKeepsOut(s: string, x: set<char>)
    requires NoneIn(s, x) && '.' !in x
    ensures NoneIn(SecondPass(s), x)
  {
    var t0 := CollapseDouble(s, '+');
    NoneInShrinks(s, t0, x);
    var t1 := CollapseDouble(t0, '-');
    NoneInShrinks(t0, t1, x);
    var t2 := CollapseDouble(t1, '*');
    NoneInShrinks(t1, t2, x);
    var t3 := CollapseDouble(t2, '/');
    NoneInShrinks(t2, t3, x);
    var t4 := ReplaceEach(t3, {'='}, "");
    ReplaceEachKeepsOut(t3, {'='}, "", x);
    var t5 := ReplaceEach(t4, {','}, ".");
    ReplaceEachKeepsOut(t4, {','}, ".", x);
    ReplaceEachKeepsOut(t5, {';'}, ".", x);
  }

  lemma SecondPassKeeps(s: string)
    requires NoneIn(s, SecondPassChars) && NoAdjacentOperators(s)
    ensures SecondPass(s) == s
  {
    NoDoubleOperator(s, '+');
    CollapseDoubleIdentity(s, '+');
    NoDoubleOperator(s, '-');
    CollapseDoubleIdentity(s, '-');
    NoDoubleOperator(s, '*');
    CollapseDoubleIdentity(s, '*');
    NoDoubleOperator(s, '/');
    CollapseDoubleIdentity(s, '/');
    NoneInPart(s, '=');
    ReplaceEachIdentity(s, {'='}, "");
    NoneInPart(s, ',');
    ReplaceEachIdentity(s, {','}, ".");
    NoneInPart(s, ';');
    ReplaceEachIdentity(s, {';'}, ".");
  }

  lemma NoDoubleOperator(s: string, c: char)
    requires NoAdjacentOperators(s) && IsOperator(c)
    ensures NoDouble(s, c)
  {
  }

  lemma NoneInPart(s: string, c: char)
    requires NoneIn(s, SecondPassChars) && c in SecondPassChars
    ensures NoneIn(s, {c})
  {
  }

  /** Pairs are matched left to right without overlap: three pluses leave two. */
  lemma TriplePlus()
    ensures CollapseDouble("+++", '+') == "++"
  {
    assert "+++"[2..] == "+";
    assert CollapseDouble("+", '+') == "+" by {
      assert "+"[1..] == [];
    }
  }

  // ---------------------------------------------------------------------
  // Third pass: fixCommonPatterns
  // ---------------------------------------------------------------------

  /**
   * The text without each operator whose predecessor in the text is an
   * operator: of a run of operators only the first is kept.
   */
  function DropRepeatedOperators(s: string): string
    decreases |s|
  {
    if s == [] then []
    else
      var n := |s|;
      DropRepeatedOperators(s[..n - 1]) + (if n >= 2 && IsOperator(s[n - 1]) && IsOperator(s[n - 2]) then [] else [s[n - 1]])
  }

  /** Only characters of the text are kept. */
  lemma {:induction false} DropShrinks(s: string)
    ensures multiset(DropRepeatedOperators(s)) <= multiset(s)
    decreases |s|
  {
    if s != [] {
      DropShrinks(s[..|s| - 1]);
      assert s == s[..|s| - 1] + [s[|s| - 1]];
    }
  }

  /**
   * No two operators are left side by side, and the result ends in an
   * operator only where the text does.
   */
  lemma {:induction false} DropSeparates(s: string)
    ensures var r := DropRepeatedOperators(s);
      NoAdjacentOperators(r) && (r == [] <==> s == []) &&
      (r != [] && IsOperator(r[|r| - 1]) ==> IsOperator(s[|s| - 1]))
    decreases |s|
  {
    if s != [] {
      var n := |s|;
      var init := s[..n - 1];
      DropSeparates(init);
      var prev := DropRepeatedOperators(init);
      if !(n >= 2 && IsOperator(s[n - 1]) && IsOperator(s[n - 2])) {
        var r := prev + [s[n - 1]];
        assert n >= 2 ==> init[n - 2] == s[n - 2];
        forall i | 0 < i < |r| ensures !(IsOperator(r[i - 1]) && IsOperator(r[i])) {
          if i < |prev| {
            assert r[i - 1] == prev[i - 1] && r[i] == prev[i];
          }
        }
      }
    }
  }

  /** Texts shorter than two characters are returned as they are. */
  lemma DropShort(s: string)
    requires |s| < 2
    ensures DropRepeatedOperators(s) == s
  {
    if |s| == 1 {
      assert s[..0] == [];
    }
  }

  /** The operands, that is the characters that are not operators, in order. */
  function Operands(s: string): string
    decreases |s|
  {
    if s == [] then []
    else Operands(s[..|s| - 1]) + (if IsOperator(s[|s| - 1]) then [] else [s[|s| - 1]])
  }

  /** Only operators are dropped: the operands keep their order. */
  lemma {:induction false} DropKeepsOperands(s: string)
    ensures Operands(DropRepeatedOperators(s)) == Operands(s)
    decreases |s|
  {
    if s != [] {
      var init, c := s[..|s| - 1], s[|s| - 1];
      assert s == init + [c];
      DropKeepsOperands(init);
      var prev := DropRepeatedOperators(init);
      OperandsAppend(init, c);
      if init == [] {
        DropShort(s);
      } else {
        DropStep(init, c);
        if IsOperator(c) && IsOperator(init[|init| - 1]) {
          assert prev + [] == prev && Operands(init) + [] == Operands(init);
        } else {
          OperandsAppend(prev, c);
        }
      }
    }
  }

  lemma OperandsAppend(t: string, c: char)
    ensures Operands(t + [c]) == Operands(t) + (if IsOperator(c) then [] else [c])
  {
    var u := t + [c];
    assert u[..|u| - 1] == t && u[|u| - 1] == c;
  }

  /** Text without adjacent operators is left as it is. */
  lemma {:induction false} DropIdentity(s: string)
    requires NoAdjacentOperators(s)
    ensures DropRepeatedOperators(s) == s
    decreases |s|
  {
    if s != [] {
      var init := s[..|s| - 1];
      NoAdjacentInit(s);
      DropIdentity(init);
      DropKeepsLast(s);
      assert s == init + [s[|s| - 1]];
    }
  }

  lemma NoAdjacentInit(s: string)
    requires s != [] && NoAdjacentOperators(s)
    ensures NoAdjacentOperators(s[..|s| - 1])
  {
    var init := s[..|s| - 1];
    forall i | 0 < i < |init| ensures !(IsOperator(init[i - 1]) && IsOperator(init[i])) {
      assert init[i - 1] == s[i - 1] && init[i] == s[i];
    }
  }

  lemma DropKeepsLast(s: string)
    requires s != [] && NoAdjacentOperators(s)
    ensures DropRepeatedOperators(s) == DropRepeatedOperators(s[..|s| - 1]) + [s[|s| - 1]]
  {
    var n := |s|;
    assert n >= 2 ==> !(IsOperator(s[n - 1]) && IsOperator(s[n - 2]));
  }

  /** Of two adjacent operators the first is kept, whatever the second one means: `1+-2` becomes `1+2`. */
  lemma DropKeepsFirstOperator()
    ensures DropRepeatedOperators("1+-2") == "1+2"
  {
    DropShort("1");
    DropStep("1", '+');
    assert "1" + ['+'] == "1+";
    DropStep("1+", '-');
    assert "1+" + ['-'] == "1+-";
    DropStep("1+-", '2');
    assert "1+-" + ['2'] == "1+-2";
  }

  /** One more character: it is dropped exactly when it is an operator following an operator. */
  lemma DropStep(t: string, c: char)
    requires t != []
    ensures DropRepeatedOperators(t + [c])
         == DropRepeatedOperators(t) + (if IsOperator(c) && IsOperator(t[|t| - 1]) then [] else [c])
  {
    var u := t + [c];
    assert u[..|u| - 1] == t && u[|u| - 1] == c && u[|u| - 2] == t[|t| - 1];
  }

  /** `fixCommonPatterns`: copies the text, skipping each operator that follows an operator. */
  method FixCommonPatterns(text: string) returns (r: string)
    ensures r == DropRepeatedOperators(text)
  {
    if |text| < 2 {
      DropShort(text);
      return text;
    }
    r := [];
    for i := 0 to |text|
      invariant r == DropRepeatedOperators(text[..i])
    {
      var current := text[i];
      assert text[..i + 1][..i] == text[..i];
      if i > 0 && IsOperator(current) && IsOperator(text[i - 1]) {
        continue;
      }
      r := r + [current];
    }
    assert text[..|text|] == text;
  }

  // ---------------------------------------------------------------------
  // cleanMathematicalText
  // ---------------------------------------------------------------------

  /** What a cleaning leaves: no corrected character, no `=`, `,` or `;`, no two adjacent operators. */
  predicate IsClean(s: string) {
    NoneIn(s, FirstPassChars + SecondPassChars) && NoAdjacentOperators(s)
  }

  /** The second pass keeps out what the first pass cleared, and clears its own characters. */
  lemma SecondPassAfterFirst(t: string)
    requires NoneIn(t, FirstPassChars)
    ensures NoneIn(SecondPass(t), FirstPassChars + SecondPassChars)
  {
    SecondPassKeepsOut(t, FirstPassChars);
    SecondPassClears(t);
    NoneInUnion(SecondPass(t), FirstPassChars, SecondPassChars);
  }

  /** The third pass keeps out what the first two cleared, and separates the operators. */
  lemma DropAfterSecond(u: string)
    requires NoneIn(u, FirstPassChars + SecondPassChars)
    ensures IsClean(DropRepeatedOperators(u))
  {
    DropShrinks(u);
    DropSeparates(u);
    NoneInShrinks(u, DropRepeatedOperators(u), FirstPassChars + SecondPassChars);
  }

  /** The three passes; the empty text is returned as it is. */
  function Clean(s: string): (r: string)
    ensures IsClean(r)
  {
    if s == [] then []
    else
      FirstPassClears(s);
      SecondPassAfterFirst(FirstPass(s));
      DropAfterSecond(SecondPass(FirstPass(s)));
      DropRepeatedOperators(SecondPass(FirstPass(s)))
  }

  /** `cleanMathematicalText`. */
  method CleanMathematicalText(text: string) returns (r: string)
    ensures r == Clean(text)
  {
    if text == [] {
      return [];
    }
    var cleaned := FirstPass(text);
    cleaned := SecondPass(cleaned);
    r := FixCommonPatterns(cleaned);
  }

  /** Clean text is its own cleaning. */
  lemma CleanKeeps(s: string)
    requires IsClean(s)
    ensures Clean(s) == s
  {
    if s != [] {
      FirstPassKeeps(s);
      SecondPassKeeps(s);
      DropIdentity(s);
    }
  }

  /** Cleaning is idempotent. */
  lemma CleanIdempotent(s: string)
    ensures Clean(Clean(s)) == Clean(s)
  {
    CleanKeeps(Clean(s));
  }

  // ---------------------------------------------------------------------
  // processOCRResult
  // ---------------------------------------------------------------------

  /** A recognised line: its text, and whether the recognizer gave it a bounding box. */
  datatype Line = Line(text: string, hasBoundingBox: bool)

  /** The trimmed text of a line, as the loop reads it. */
  function Trimmed(l: Line): string { Trim(l.text) }

  /** The score of a line. */
  function Score(l: Line): nat { Confidence(Trimmed(l)) }

  /** The best line so far and its confidence. */
  datatype Choice = Choice(confidence: nat, text: string)

  /** The first boxed line whose score beats every earlier one, after the lines in order. */
  function Best(lines: seq<Line>): Choice
    decreases |lines|
  {
    if lines == [] then Choice(0, "")
    else
      var prev := Best(lines[..|lines| - 1]);
      var last := lines[|lines| - 1];
      if last.hasBoundingBox && Score(last) > prev.confidence then Choice(Score(last), Trimmed(last)) else prev
  }

  /** No boxed line scores above the best. */
  lemma {:induction false} BestIsMaximal(lines: seq<Line>)
    ensures forall i | 0 <= i < |lines| && lines[i].hasBoundingBox :: Score(lines[i]) <= Best(lines).confidence
    decreases |lines|
  {
    if lines != [] {
      var init := lines[..|lines| - 1];
      BestIsMaximal(init);
      forall i | 0 <= i < |lines| - 1 && lines[i].hasBoundingBox ensures Score(lines[i]) <= Best(lines).confidence {
        assert lines[i] == init[i];
      }
    }
  }

  /** Line `i` is boxed, gives the choice `c`, and scores strictly above every boxed line before it. */
  predicate IsFirstBest(lines: seq<Line>, i: int, c: Choice) {
    0 <= i < |lines| && lines[i].hasBoundingBox && c == Choice(Score(lines[i]), Trimmed(lines[i])) &&
    forall j | 0 <= j < i && lines[j].hasBoundingBox :: Score(lines[j]) < Score(lines[i])
  }

  /** A first best of all lines but the last stays one when the last is added. */
  lemma FirstBestExtends(lines: seq<Line>, i: int, c: Choice)
    requires lines != [] && IsFirstBest(lines[..|lines| - 1], i, c)
    ensures IsFirstBest(lines, i, c)
  {
    var init := lines[..|lines| - 1];
    assert lines[i] == init[i];
    forall j | 0 <= j < i && lines[j].hasBoundingBox ensures Score(lines[j]) < Score(lines[i]) {
      assert lines[j] == init[j];
    }
  }

  /** A boxed last line scoring above the best of the others is the first best. */
  lemma FirstBestAppended(lines: seq<Line>)
    requires lines != []
    requires lines[|lines| - 1].hasBoundingBox && Score(lines[|lines| - 1]) > Best(lines[..|lines| - 1]).confidence
    ensures IsFirstBest(lines, |lines| - 1, Choice(Score(lines[|lines| - 1]), Trimmed(lines[|lines| - 1])))
  {
    var init := lines[..|lines| - 1];
    BestIsMaximal(init);
    forall j | 0 <= j < |init| && lines[j].hasBoundingBox ensures Score(lines[j]) < Score(lines[|lines| - 1]) {
      assert lines[j] == init[j];
    }
  }

  /** With no positive score the best text is empty. */
  lemma {:induction false} BestOfNothing(lines: seq<Line>)
    ensures Best(lines).confidence == 0 ==> Best(lines).text == ""
    decreases |lines|
  {
    if lines != [] {
      BestOfNothing(lines[..|lines| - 1]);
    }
  }

  /** A best line with a positive score is the earliest boxed line reaching that score. */
  lemma {:induction false} BestIsFirstMaximal(lines: seq<Line>)
    ensures Best(lines).confidence > 0 ==> exists i :: IsFirstBest(lines, i, Best(lines))
    decreases |lines|
  {
    if lines != [] {
      var init := lines[..|lines| - 1];
      BestIsFirstMaximal(init);
      var prev := Best(init);
      var last := lines[|lines| - 1];
      if last.hasBoundingBox && Score(last) > prev.confidence {
        FirstBestAppended(lines);
        assert Best(lines) == Choice(Score(last), Trimmed(last));
        assert IsFirstBest(lines, |lines| - 1, Best(lines));
      } else if prev.confidence > 0 {
        var i :| IsFirstBest(init, i, prev);
        FirstBestExtends(lines, i, prev);
        assert Best(lines) == prev;
        assert IsFirstBest(lines, i, Best(lines));
      } else {
        assert Best(lines) == prev;
      }
    }
  }

  /** A line with a positive score has a nonempty text, so the best line does too. */
  lemma BestHasText(lines: seq<Line>)
    ensures Best(lines).confidence > 0 ==> Best(lines).text != ""
  {
    BestIsFirstMaximal(lines);
    ConfidenceOfEmpty();
    if Best(lines).confidence > 0 {
      var i :| IsFirstBest(lines, i, Best(lines));
    }
  }

  /** The nonempty trimmed texts, in order: what the `StringBuilder` collects. */
  function Words(lines: seq<Line>): seq<string>
    decreases |lines|
  {
    if lines == [] then []
    else Words(lines[..|lines| - 1]) + (if Trimmed(lines[|lines| - 1]) == [] then [] else [Trimmed(lines[|lines| - 1])])
  }

  /** Words separated by one space. */
  function JoinWords(ws: seq<string>): string
    decreases |ws|
  {
    if ws == [] then []
    else if |ws| == 1 then ws[0]
    else JoinWords(ws[..|ws| - 1]) + " " + ws[|ws| - 1]
  }

  /** The `StringBuilder` after the lines in order: a space goes in only after a nonempty prefix. */
  function Joined(lines: seq<Line>): string
    decreases |lines|
  {
    if lines == [] then []
    else
      var prev := Joined(lines[..|lines| - 1]);
      var t := Trimmed(lines[|lines| - 1]);
      if t == [] then prev else if prev == [] then t else prev + " " + t
  }

  /** Words of nonempty texts join into a nonempty text. */
  lemma {:induction false} JoinWordsEmpty(ws: seq<string>)
    requires forall i | 0 <= i < |ws| :: ws[i] != []
    ensures JoinWords(ws) == [] <==> ws == []
    decreases |ws|
  {
    if |ws| > 1 {
      var init := ws[..|ws| - 1];
      assert forall i | 0 <= i < |init| :: init[i] == ws[i];
      JoinWordsEmpty(init);
    }
  }

  lemma {:induction false} WordsNonEmpty(lines: seq<Line>)
    ensures forall i | 0 <= i < |Words(lines)| :: Words(lines)[i] != []
    decreases |lines|
  {
    if lines != [] {
      WordsNonEmpty(lines[..|lines| - 1]);
    }
  }

  /** One step of the builder: appending a word after a space, or as the first word. */
  lemma JoinStep(ws: seq<string>, t: string)
    requires forall i | 0 <= i < |ws| :: ws[i] != []
    ensures var prev := JoinWords(ws);
      (if t == [] then prev else if prev == [] then t else prev + " " + t) ==
      JoinWords(ws + (if t == [] then [] else [t]))
  {
    JoinWordsEmpty(ws);
    if t == [] {
      assert ws + [] == ws;
    } else {
      var vs := ws + [t];
      assert vs[..|vs| - 1] == ws;
      if ws == [] {
        assert vs == [t];
      }
    }
  }

  /** The builder holds exactly the nonempty trimmed texts, one space between each two. */
  lemma {:induction false} JoinedIsJoinWords(lines: seq<Line>)
    ensures Joined(lines) == JoinWords(Words(lines))
    decreases |lines|
  {
    if lines != [] {
      var init := lines[..|lines| - 1];
      JoinedIsJoinWords(init);
      WordsNonEmpty(init);
      JoinStep(Words(init), Trimmed(lines[|lines| - 1]));
    }
  }

  /** What `processOCRResult` returns: the cleaned best line if it scores above one half, else the cleaned whole text. */
  function Selected(lines: seq<Line>): (r: string)
  {
    var best := Best(lines);
    if best.text != [] && best.confidence > 5 then Clean(best.text) else Clean(Joined(lines))
  }

  /** One iteration of the loop of `processOCRResult`, in terms of its variables. */
  lemma SelectionStep(lines: seq<Line>, k: nat, maxConfidence: nat, bestLine: string, result: string)
    requires k < |lines|
    requires Best(lines[..k]) == Choice(maxConfidence, bestLine) && Joined(lines[..k]) == result
    ensures var t := Trim(lines[k].text); var c := Confidence(t);
      && Best(lines[..k + 1]) == (if lines[k].hasBoundingBox && c > maxConfidence then Choice(c, t) else Choice(maxConfidence, bestLine))
      && Joined(lines[..k + 1]) == (if t == [] then result else if result == [] then t else result + " " + t)
  {
    var pre := lines[..k + 1];
    assert pre[..|pre| - 1] == lines[..k] && pre[|pre| - 1] == lines[k];
    BestLast(pre);
    JoinedLast(pre);
  }

  lemma BestLast(lines: seq<Line>)
    requires lines != []
    ensures var last := lines[|lines| - 1]; var prev := Best(lines[..|lines| - 1]);
      Best(lines) == if last.hasBoundingBox && Score(last) > prev.confidence then Choice(Score(last), Trimmed(last)) else prev
  {
  }

  lemma JoinedLast(lines: seq<Line>)
    requires lines != []
    ensures var t := Trimmed(lines[|lines| - 1]); var prev := Joined(lines[..|lines| - 1]);
      Joined(lines) == if t == [] then prev else if prev == [] then t else prev + " " + t
  {
  }

  lemma SelectedFrom(lines: seq<Line>, maxConfidence: nat, bestLine: string, result: string)
    requires Best(lines) == Choice(maxConfidence, bestLine) && Joined(lines) == result
    ensures Selected(lines) == if bestLine != [] && maxConfidence > 5 then Clean(bestLine) else Clean(result)
  {
  }

  /**
   * The loop of `processOCRResult` over the lines of every block in order:
   * the best boxed line with its confidence, and the non-empty trimmed texts
   * joined by spaces.
   */
  method CollectLines(lines: seq<Line>) returns (maxConfidence: nat, bestLine: string, result: string)
    ensures Best(lines) == Choice(maxConfidence, bestLine)
    ensures Joined(lines) == result
  {
    result := [];
    maxConfidence := 0;
    bestLine := [];
    for k := 0 to |lines|
      invariant Best(lines[..k]) == Choice(maxConfidence, bestLine)
      invariant Joined(lines[..k]) == result
    {
      SelectionStep(lines, k, maxConfidence, bestLine, result);
      var lineText := Trim(lines[k].text);
      if lines[k].hasBoundingBox {
        var confidence := Confidence(lineText);
        if confidence > maxConfidence {
          maxConfidence := confidence;
          bestLine := lineText;
        }
      }
      if lineText != [] {
        // a space goes in before every text but the first
        if |result| > 0 {
          result := result + " " + lineText;
        } else {
          result := lineText;
        }
      }
    }
    assert lines[..|lines|] == lines;
  }

  /** `processOCRResult`: the cleaned best line when it scores above one half, else the cleaned joined text. */
  method ProcessOcrResult(lines: seq<Line>) returns (r: string)
    ensures r == Selected(lines)
  {
    var maxConfidence, bestLine, result := CollectLines(lines);
    SelectedFrom(lines, maxConfidence, bestLine, result);
    if bestLine != [] && maxConfidence > 5 {
      r := CleanMathematicalText(bestLine);
      return;
    }
    r := CleanMathematicalText(result);
  }

  /** A best line scoring above one half wins outright; below, every line's text counts. */
  lemma SelectedIsBestOrAll(lines: seq<Line>)
    ensures Best(lines).confidence > 5 ==> Selected(lines) == Clean(Best(lines).text)
    ensures Best(lines).confidence <= 5 ==> Selected(lines) == Clean(JoinWords(Words(lines)))
  {
    BestHasText(lines);
    JoinedIsJoinWords(lines);
  }
}
