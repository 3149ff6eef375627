/**
 * What the two-stack evaluator of MathParser computes, proved against a
 * reference semantics on expression trees: fully parenthesised expressions
 * evaluate to their value, `*` and `/` bind tighter than `+` and `-` and equal
 * precedence associates to the left, and on validated input the parenthesis,
 * character and operator failures cannot happen.
 */
module MathParserProofs {
  import opened Text
  import opened MathParser

  // ---------------------------------------------------------------------
  // Reference semantics
  // ---------------------------------------------------------------------

  datatype Op = Add | Sub | Mul | Div

  datatype Expr = Lit(n: nat) | Bin(op: Op, left: Expr, right: Expr)

  function OpChar(op: Op): (c: char)
    ensures IsOperator(c)
  {
    match op
    case Add => '+'
    case Sub => '-'
    case Mul => '*'
    case Div => '/'
  }

  /** `a op b` in exact arithmetic; `None` for a division by zero. */
  function Arith(op: Op, a: real, b: real): Option<real> {
    match op
    case Add => Some(a + b)
    case Sub => Some(a - b)
    case Mul => Some(a * b)
    case Div => if b == 0.0 then None else Some(a / b)
  }

  /** The value of an expression tree; `None` when it divides by zero somewhere. */
  function Value(e: Expr): Option<real> {
    match e
    case Lit(n) => Some(n as real)
    case Bin(op, l, r) =>
      match (Value(l), Value(r))
      case (Some(a), Some(b)) => Arith(op, a, b)
      case _ => None
  }

  /** The evaluator's outcome that the value stands for: dividing by zero is its only failure. */
  function AsResult(v: Option<real>): Result<real> {
    match v
    case Some(x) => Ok(x)
    case None => Err(DivideByZero)
  }

  function DigitChar(d: nat): (c: char)
    requires d < 10
    ensures IsDigit(c) && c as int - '0' as int == d
  {
    ('0' as int + d) as char
  }

  /** The decimal numeral of `n`, without leading zeros. */
  function DecimalString(n: nat): (s: string)
    ensures |s| > 0 && AllDigits(s)
    ensures DigitsValue(s) == n
  {
    if n < 10 then [DigitChar(n)]
    else
      var s := DecimalString(n / 10) + [DigitChar(n % 10)];
      assert s[..|s| - 1] == DecimalString(n / 10);
      s
  }

  /** Fully parenthesised text of an expression: `(l op r)` for every operator node. */
  function Print(e: Expr): (s: string)
    ensures |s| > 0
    ensures IsDigit(s[0]) || s[0] == '('
    ensures IsDigit(s[|s| - 1]) || s[|s| - 1] == ')'
  {
    match e
    case Lit(n) => DecimalString(n)
    case Bin(op, l, r) => "(" + Print(l) + [OpChar(op)] + Print(r) + ")"
  }

  // ---------------------------------------------------------------------
  // Literals
  // ---------------------------------------------------------------------

  lemma NumberRunLengthIs(s: string, m: nat)
    requires m <= |s|
    requires forall i | 0 <= i < m :: IsNumberChar(s[i])
    requires m < |s| ==> !IsNumberChar(s[m])
    ensures NumberRunLength(s) == m
  {
  }

  /** `Double.parseDouble` reads back every decimal numeral exactly. */
  lemma ParseDecimal(n: nat)
    ensures ParseNumber(DecimalString(n)) == Some(n as real)
  {
    ParseWhole(DecimalString(n));
  }

  /** A literal without a dot reads as the number its digits spell. */
  lemma ParseWhole(whole: string)
    requires |whole| > 0 && AllDigits(whole)
    ensures AllNumberChars(whole) && ParseNumber(whole) == Some(DigitsValue(whole) as real)
  {
    assert forall i | 0 <= i < |whole| :: whole[i] != '.';
    NotCounted(whole, '.');
    DotIndexNone(whole);
  }

  lemma {:induction false} DotIndexNone(s: string)
    requires forall i | 0 <= i < |s| :: s[i] != '.'
    ensures DotIndex(s) == |s|
    decreases |s|
  {
    if s != [] {
      assert s[0] != '.';
      assert forall i | 0 <= i < |s[1..]| :: s[1..][i] == s[i + 1];
      DotIndexNone(s[1..]);
    }
  }

  predicate AllNumberChars(s: string) {
    forall i | 0 <= i < |s| :: IsNumberChar(s[i])
  }

  /**
   * A literal with one dot reads as the number its digits spell with the dot
   * left out, divided by ten to the number of digits after the dot; a side of
   * the dot may be empty, but not both.
   */
  lemma ParseFraction(whole: string, frac: string)
    requires AllDigits(whole) && AllDigits(frac) && |whole| + |frac| > 0
    ensures AllDigits(whole + frac) && AllNumberChars(whole + "." + frac)
    ensures ParseNumber(whole + "." + frac) == Some(DigitsValue(whole + frac) as real / Pow10(|frac|) as real)
  {
    ParseFractionAs(whole, frac, whole + "." + frac, whole + frac);
  }

  /** `ParseFraction` with the literal and the digits without the dot given by name. */
  lemma ParseFractionAs(whole: string, frac: string, lit: string, digits: string)
    requires AllDigits(whole) && AllDigits(frac) && |whole| + |frac| > 0
    requires lit == whole + "." + frac && digits == whole + frac
    ensures AllDigits(digits) && AllNumberChars(lit)
    ensures ParseNumber(lit) == Some(DigitsValue(digits) as real / Pow10(|frac|) as real)
  {
    FractionShape(whole, frac);
    var k := |whole|;
    assert lit[..k] == whole && lit[k + 1..] == frac;
    DigitsValueConcat(lit[..k], lit[k + 1..]);
    ParseAtDot(lit, k, digits);
  }

  /** The literal's value is its digits without the dot, scaled down past the digits after the dot. */
  lemma ParseAtDot(lit: string, k: nat, digits: string)
    requires AllNumberChars(lit) && multiset(lit)['.'] == 1 && |lit| >= 2 && k < |lit| && DotIndex(lit) == k
    requires AllDigits(lit[..k]) && AllDigits(lit[k + 1..]) && AllDigits(digits)
    requires DigitsValue(digits) == DigitsValue(lit[..k]) * Pow10(|lit[k + 1..]|) + DigitsValue(lit[k + 1..])
    ensures ParseNumber(lit) == Some(DigitsValue(digits) as real / Pow10(|lit[k + 1..]|) as real)
  {
    ParseWithDot(lit, k);
    ScaleDown(DigitsValue(lit[..k]), DigitsValue(lit[k + 1..]), Pow10(|lit[k + 1..]|), DigitsValue(digits));
  }

  /** Where the dot of `whole.frac` sits, and what lies on either side of it. */
  lemma FractionShape(whole: string, frac: string)
    requires AllDigits(whole) && AllDigits(frac) && |whole| + |frac| > 0
    ensures var lit := whole + "." + frac;
      && AllNumberChars(lit) && multiset(lit)['.'] == 1 && |lit| >= 2
      && DotIndex(lit) == |whole| && lit[..|whole|] == whole && lit[|whole| + 1..] == frac
  {
    var lit := whole + "." + frac;
    forall i | 0 <= i < |lit| ensures IsNumberChar(lit[i]) {
      if i < |whole| {
        assert lit[i] == whole[i];
      } else if i > |whole| {
        assert lit[i] == frac[i - |whole| - 1];
      }
    }
    assert forall i | 0 <= i < |whole| :: whole[i] != '.';
    assert forall i | 0 <= i < |frac| :: frac[i] != '.';
    NotCounted(whole, '.');
    NotCounted(frac, '.');
    assert multiset(lit) == multiset(whole) + multiset{'.'} + multiset(frac);
    assert lit == whole + ("." + frac);
    DotIndexAfter(whole, "." + frac);
  }

  /** The value `ParseNumber` gives a literal whose one dot is at `k`. */
  lemma ParseWithDot(lit: string, k: nat)
    requires AllNumberChars(lit) && multiset(lit)['.'] == 1 && |lit| >= 2 && k < |lit| && DotIndex(lit) == k
    requires AllDigits(lit[..k]) && AllDigits(lit[k + 1..])
    ensures ParseNumber(lit) == Some(DigitsValue(lit[..k]) as real + DigitsValue(lit[k + 1..]) as real / Pow10(|lit[k + 1..]|) as real)
  {
  }

  lemma ScaleDown(w: int, f: int, p: int, n: int)
    requires p > 0 && n == w * p + f
    ensures n as real / p as real == w as real + f as real / p as real
  {
    assert n as real == w as real * p as real + f as real;
  }

  lemma {:induction false} DotIndexAfter(whole: string, rest: string)
    requires forall i | 0 <= i < |whole| :: whole[i] != '.'
    requires rest != [] && rest[0] == '.'
    ensures DotIndex(whole + rest) == |whole|
    decreases |whole|
  {
    if whole == [] {
      assert whole + rest == rest;
    } else {
      assert (whole + rest)[0] == whole[0] && (whole + rest)[1..] == whole[1..] + rest;
      DotIndexAfter(whole[1..], rest);
    }
  }

  /** The digits of `a` followed by those of `b` spell `a`'s number shifted past `b`'s digits, plus `b`'s. */
  lemma {:induction false} DigitsValueConcat(a: string, b: string)
    requires AllDigits(a) && AllDigits(b)
    ensures AllDigits(a + b) && DigitsValue(a + b) == DigitsValue(a) * Pow10(|b|) + DigitsValue(b)
    decreases |b|
  {
    DigitsConcat(a, b);
    if b == [] {
      assert a + b == a;
    } else {
      var b0 := b[..|b| - 1];
      DigitsConcat(a, b0);
      DigitsValueConcat(a, b0);
      LastDigit(a, b);
      Shift(DigitsValue(a), DigitsValue(b0), Pow10(|b0|), b[|b| - 1] as int - '0' as int);
    }
  }

  lemma DigitsConcat(a: string, b: string)
    requires AllDigits(a) && AllDigits(b)
    ensures AllDigits(a + b)
  {
    var ab := a + b;
    forall i | 0 <= i < |ab| ensures IsDigit(ab[i]) {
      if i >= |a| {
        assert ab[i] == b[i - |a|];
      }
    }
  }

  /** Dropping the last digit of `a + b` drops the last digit of `b`. */
  lemma LastDigit(a: string, b: string)
    requires b != [] && AllDigits(a + b) && AllDigits(a + b[..|b| - 1])
    ensures DigitsValue(a + b) == 10 * DigitsValue(a + b[..|b| - 1]) + (b[|b| - 1] as int - '0' as int)
  {
    var ab := a + b;
    assert ab[..|ab| - 1] == a + b[..|b| - 1] && ab[|ab| - 1] == b[|b| - 1];
  }

  lemma Shift(x: int, y: int, p: int, d: int)
    ensures 10 * (x * p + y) + d == x * (10 * p) + (10 * y + d)
  {
  }

  /** A digit, a dot and a digit read as the two-digit number they spell, divided by ten. */
  lemma ParseDigitDotDigit(w: char, f: char)
    requires IsDigit(w) && IsDigit(f)
    ensures ParseNumber([w, '.', f]) == Some(((w as int - '0' as int) * 10 + (f as int - '0' as int)) as real / 10.0)
  {
    OneDigit(w);
    OneDigit(f);
    assert [w] + "." + [f] == [w, '.', f];
    assert [w] + [f] == [w, f];
    ParseFractionAs([w], [f], [w, '.', f], [w, f]);
    TwoDigits(w, f);
    Tenth(DigitsValue([w, f]), Pow10(|[f]|));
  }

  lemma TwoDigits(w: char, f: char)
    requires IsDigit(w) && IsDigit(f)
    ensures AllDigits([w, f]) && DigitsValue([w, f]) == (w as int - '0' as int) * 10 + (f as int - '0' as int)
  {
    OneDigit(w);
    assert [w, f][..1] == [w];
  }

  lemma OneDigit(w: char)
    requires IsDigit(w)
    ensures AllDigits([w]) && DigitsValue([w]) == w as int - '0' as int
  {
    assert [w][..0] == [];
  }

  /** `1.5` reads as one and a half. */
  lemma ParseOneAndAHalf()
    ensures ParseNumber("1.5") == Some(1.5)
  {
    ParseDigitDotDigit('1', '5');
  }

  /** `.5` reads as a half: the integer part may be empty. */
  lemma ParseHalf()
    ensures ParseNumber(".5") == Some(0.5)
  {
    ParseDotDigit('5');
  }

  lemma ParseDotDigit(f: char)
    requires IsDigit(f)
    ensures ParseNumber(['.', f]) == Some((f as int - '0' as int) as real / 10.0)
  {
    OneDigit(f);
    assert [] + "." + [f] == ['.', f];
    assert [] + [f] == [f];
    ParseFractionAs([], [f], ['.', f], [f]);
    Tenth(DigitsValue([f]), Pow10(|[f]|));
  }

  lemma Tenth(n: int, p: int)
    requires p == Pow10(1)
    ensures n as real / p as real == n as real / 10.0
  {
  }

  /** `2.` reads as two: the fraction part may be empty. */
  lemma ParseTwoDot()
    ensures ParseNumber("2.") == Some(2.0)
  {
    ParseDigitDot('2');
  }

  lemma ParseDigitDot(w: char)
    requires IsDigit(w)
    ensures ParseNumber([w, '.']) == Some((w as int - '0' as int) as real)
  {
    OneDigit(w);
    assert [w] + "." + [] == [w, '.'];
    assert [w] + [] == [w];
    ParseFractionAs([w], [], [w, '.'], [w]);
  }

  lemma ScanDecimal(n: nat, st: Stacks)
    ensures Scan(DecimalString(n), st) == Ok(Stacks(st.numbers + [n as real], st.operators))
  {
    var s := DecimalString(n);
    NumberRunLengthIs(s, |s|);
    ParseDecimal(n);
    assert s[..|s|] == s && s[|s|..] == [];
  }

  // ---------------------------------------------------------------------
  // The scan is compositional
  // ---------------------------------------------------------------------

  /** Continue a scan result with the rest of the text. */
  function Then(r: Result<Stacks>, b: string): Result<Stacks> {
    match r
    case Err(e) => Err(e)
    case Ok(m) => Scan(b, m)
  }

  /** Scanning `a + b` is scanning `a` and then `b`, unless the cut splits a numeric literal. */
  lemma {:induction false} ScanConcat(a: string, b: string, st: Stacks)
    requires a == [] || b == [] || !IsNumberChar(a[|a| - 1]) || !IsNumberChar(b[0])
    ensures Scan(a + b, st) == Then(Scan(a, st), b)
    decreases |a|, 1
  {
    if a == [] {
      assert a + b == b;
    } else if IsNumberChar(a[0]) {
      ScanConcatNumber(a, b, st);
    } else {
      ScanConcatSymbol(a, b, st);
    }
  }

  /** `ScanConcat` when `a` starts with a literal. */
  lemma {:induction false} ScanConcatNumber(a: string, b: string, st: Stacks)
    requires a != [] && IsNumberChar(a[0])
    requires b == [] || !IsNumberChar(a[|a| - 1]) || !IsNumberChar(b[0])
    ensures Scan(a + b, st) == Then(Scan(a, st), b)
    decreases |a|, 0
  {
    var s := a + b;
    assert s[0] == a[0];
    var n := NumberRunLength(a);
    NumberRunLengthIs(s, n);
    assert s[..n] == a[..n];
    assert s[n..] == a[n..] + b;
    match ParseNumber(a[..n])
    case None =>
    case Some(v) =>
      ScanConcat(a[n..], b, Stacks(st.numbers + [v], st.operators));
  }

  /** `ScanConcat` when `a` starts with anything but a literal. */
  lemma {:induction false} ScanConcatSymbol(a: string, b: string, st: Stacks)
    requires a != [] && !IsNumberChar(a[0])
    requires b == [] || !IsNumberChar(a[|a| - 1]) || !IsNumberChar(b[0])
    ensures Scan(a + b, st) == Then(Scan(a, st), b)
    decreases |a|, 0
  {
    var s := a + b;
    var c := a[0];
    assert s[0] == c;
    assert s[1..] == a[1..] + b;
    if c == '(' {
      ScanConcat(a[1..], b, Stacks(st.numbers, st.operators + ['(']));
    } else if c == ')' {
      match ReduceParen(st)
      case Err(_) =>
      case Ok(next) => ScanConcat(a[1..], b, next);
    } else if IsOperator(c) {
      match ReduceBefore(c, st)
      case Err(_) =>
      case Ok(next) => ScanConcat(a[1..], b, next);
    }
  }

  // ---------------------------------------------------------------------
  // Fully parenthesised expressions evaluate to their value
  // ---------------------------------------------------------------------

  lemma ScanOpen(st: Stacks)
    ensures Scan("(", st) == Ok(Stacks(st.numbers, st.operators + ['(']))
  {
    assert "("[1..] == [];
  }

  /** An operator above a `(` is pushed without applying anything. */
  lemma ScanOperatorAfterOpen(o: char, st: Stacks)
    requires IsOperator(o) && |st.operators| > 0 && st.operators[|st.operators| - 1] == '('
    ensures Scan([o], st) == Ok(Stacks(st.numbers, st.operators + [o]))
  {
    assert ReduceBefore(o, st) == Ok(Stacks(st.numbers, st.operators + [o]));
    assert [o][1..] == [];
  }

  lemma ApplyArith(op: Op, a: real, b: real)
    ensures ApplyOperation(OpChar(op), b, a) == AsResult(Arith(op, a, b))
  {
  }

  /** A `)` above `( o` applies `o` to the top two operands and discards the `(`. */
  lemma ScanCloseAfterOperator(op: Op, ns: seq<real>, os: seq<char>, a: real, b: real)
    ensures Scan(")", Stacks(ns + [a, b], os + ['(', OpChar(op)]))
         == match Arith(op, a, b)
            case Some(v) => Ok(Stacks(ns + [v], os))
            case None => Err(DivideByZero)
  {
    var st := Stacks(ns + [a, b], os + ['(', OpChar(op)]);
    ApplyArith(op, a, b);
    assert st.numbers[|st.numbers| - 1] == b && st.numbers[|st.numbers| - 2] == a;
    assert st.numbers[..|st.numbers| - 2] == ns;
    assert st.operators[..|st.operators| - 1] == os + ['('];
    match Arith(op, a, b)
    case None =>
      assert PopAndApply(st) == Err(DivideByZero);
    case Some(v) =>
      assert PopAndApply(st) == Ok(Stacks(ns + [v], os + ['(']));
      assert (os + ['('])[..|os|] == os;
      assert ReduceParen(Stacks(ns + [v], os + ['('])) == Ok(Stacks(ns + [v], os));
    assert ")"[1..] == [];
  }

  /** The stacks after a subexpression of value `v` was scanned from `st`. */
  function Pushed(v: Option<real>, st: Stacks): Result<Stacks> {
    match v
    case Some(x) => Ok(Stacks(st.numbers + [x], st.operators))
    case None => Err(DivideByZero)
  }

  /** `( l o r )` scans like one operand when `l` and `r` each scan like one operand from any stacks. */
  lemma ScanBin(op: Op, pl: string, pr: string, vl: Option<real>, vr: Option<real>, st: Stacks)
    requires forall m :: Scan(pl, m) == Pushed(vl, m)
    requires forall m :: Scan(pr, m) == Pushed(vr, m)
    ensures Scan("(" + pl + [OpChar(op)] + pr + ")", st)
         == Pushed(match (vl, vr) case (Some(a), Some(b)) => Arith(op, a, b) case _ => None, st)
  {
    var o := OpChar(op);
    var tail := [o] + (pr + ")");
    assert "(" + pl + [o] + pr + ")" == "(" + (pl + tail);
    ScanConcat("(", pl + tail, st);
    ScanOpen(st);
    var st1 := Stacks(st.numbers, st.operators + ['(']);
    ScanConcat(pl, tail, st1);
    assert Scan(pl, st1) == Pushed(vl, st1);
    match vl
    case None =>
    case Some(a) =>
      var st2 := Stacks(st1.numbers + [a], st1.operators);
      ScanConcat([o], pr + ")", st2);
      ScanOperatorAfterOpen(o, st2);
      var st3 := Stacks(st2.numbers, st2.operators + [o]);
      ScanConcat(pr, ")", st3);
      assert Scan(pr, st3) == Pushed(vr, st3);
      match vr
      case None =>
      case Some(b) =>
        var st4 := Stacks(st3.numbers + [b], st3.operators);
        assert st4 == Stacks(st.numbers + [a, b], st.operators + ['(', o]);
        ScanCloseAfterOperator(op, st.numbers, st.operators, a, b);
  }

  /** Scanning the text of `e` pushes its value, from any stacks, and leaves the operator stack as it was. */
  lemma {:induction false} ScanPrint(e: Expr, st: Stacks)
    ensures Scan(Print(e), st) == Pushed(Value(e), st)
  {
    match e
    case Lit(n) => ScanDecimal(n, st);
    case Bin(op, l, r) =>
      forall m ensures Scan(Print(l), m) == Pushed(Value(l), m) {
        ScanPrint(l, m);
      }
      forall m ensures Scan(Print(r), m) == Pushed(Value(r), m) {
        ScanPrint(r, m);
      }
      ScanBin(op, Print(l), Print(r), Value(l), Value(r), st);
  }

  /** The evaluator computes the value of every fully parenthesised expression, and fails only on a division by zero. */
  lemma EvaluatedPrint(e: Expr)
    ensures Evaluated(Print(e)) == AsResult(Value(e))
  {
    ScanPrint(e, Stacks([], []));
    match Value(e)
    case None =>
    case Some(v) => assert Finish(Stacks([v], [])) == Ok(v);
  }

  // ---------------------------------------------------------------------
  // Printed expressions pass the validator and canonicalisation
  // ---------------------------------------------------------------------

  /** No prefix of `s` closes more parentheses than it opens. */
  predicate NeverUnderflows(s: string) {
    forall k | 0 <= k <= |s| :: Depth(s[..k]) >= 0
  }

  lemma DepthConcat(x: string, y: string)
    ensures Depth(x + y) == Depth(x) + Depth(y)
  {
    assert multiset(x + y) == multiset(x) + multiset(y);
  }

  lemma NeverUnderflowsConcat(x: string, y: string)
    requires NeverUnderflows(x) && NeverUnderflows(y) && Depth(x) >= 0
    ensures NeverUnderflows(x + y)
  {
    forall k | 0 <= k <= |x + y| ensures Depth((x + y)[..k]) >= 0 {
      if k <= |x| {
        assert (x + y)[..k] == x[..k];
      } else {
        assert (x + y)[..k] == x + y[..k - |x|];
        DepthConcat(x, y[..k - |x|]);
      }
    }
  }

  lemma NeverUnderflowsClose(x: string)
    requires NeverUnderflows(x) && Depth(x) >= 1
    ensures NeverUnderflows(x + [')'])
  {
    forall k | 0 <= k <= |x| + 1 ensures Depth((x + [')'])[..k]) >= 0 {
      if k <= |x| {
        assert (x + [')'])[..k] == x[..k];
      } else {
        assert (x + [')'])[..k] == x + [')'];
        DepthConcat(x, [')']);
      }
    }
  }

  /** The characters the validator and the canonicalisation care about, for a printed expression. */
  predicate Printable(s: string) {
    && AllMathChars(s)
    && NoneIn(s, JavaWhitespace + {'x', 'X', Division})
  }

  lemma PrintableConcat(x: string, y: string)
    requires Printable(x) && Printable(y)
    ensures Printable(x + y)
  {
    forall i | 0 <= i < |x + y| ensures IsMathChar((x + y)[i]) && (x + y)[i] !in JavaWhitespace + {'x', 'X', Division} {
      if i < |x| { assert (x + y)[i] == x[i]; } else { assert (x + y)[i] == y[i - |x|]; }
    }
  }

  lemma LitValid(n: nat)
    ensures IsValid(DecimalString(n)) && Printable(DecimalString(n))
  {
    DigitsValid(DecimalString(n));
  }

  /** A non-empty string of digits is valid and printable. */
  lemma DigitsValid(s: string)
    requires |s| > 0 && AllDigits(s)
    ensures IsValid(s) && Printable(s)
  {
    forall k | 0 <= k <= |s| ensures Depth(s[..k]) == 0 {
      DigitsHaveNoParens(s, k);
    }
    assert s[..|s|] == s;
  }

  lemma DigitsHaveNoParens(s: string, k: nat)
    requires AllDigits(s) && k <= |s|
    ensures Depth(s[..k]) == 0
  {
    var p := s[..k];
    forall i | 0 <= i < |p| ensures p[i] != '(' && p[i] != ')' {
      assert p[i] == s[i];
    }
    DepthOfNoParens(p);
  }

  lemma BinDepth(o: char, pl: string, pr: string)
    requires IsOperator(o)
    requires NeverUnderflows(pl) && Depth(pl) == 0 && NeverUnderflows(pr) && Depth(pr) == 0
    ensures NeverUnderflows("(" + pl + [o] + pr + ")") && Depth("(" + pl + [o] + pr + ")") == 0
  {
    var w0: string := ['('];
    assert NeverUnderflows(w0) && Depth(w0) == 1 by {
      assert w0[..0] == [] && w0[..1] == w0;
    }
    assert NeverUnderflows([o]) && Depth([o]) == 0 by {
      assert [o][..0] == [] && [o][..1] == [o];
    }
    NeverUnderflowsConcat(w0, pl);
    DepthConcat(w0, pl);
    var w1 := w0 + pl;
    NeverUnderflowsConcat(w1, [o]);
    DepthConcat(w1, [o]);
    var w2 := w1 + [o];
    NeverUnderflowsConcat(w2, pr);
    DepthConcat(w2, pr);
    var w3 := w2 + pr;
    NeverUnderflowsClose(w3);
    DepthConcat(w3, [')']);
  }

  lemma BinPrintable(o: char, pl: string, pr: string)
    requires IsOperator(o) && Printable(pl) && Printable(pr)
    ensures Printable("(" + pl + [o] + pr + ")")
  {
    var w0: string := ['('];
    assert Printable(w0) && Printable([o]) && Printable([')']);
    PrintableConcat(w0, pl);
    PrintableConcat(w0 + pl, [o]);
    PrintableConcat(w0 + pl + [o], pr);
    PrintableConcat(w0 + pl + [o] + pr, [')']);
  }

  lemma BinValid(o: char, pl: string, pr: string)
    requires IsOperator(o)
    requires IsValid(pl) && Printable(pl) && IsValid(pr) && Printable(pr)
    ensures IsValid("(" + pl + [o] + pr + ")") && Printable("(" + pl + [o] + pr + ")")
  {
    assert NeverUnderflows(pl) && NeverUnderflows(pr);
    BinDepth(o, pl, pr);
    BinPrintable(o, pl, pr);
  }

  /** Every printed expression passes the validator and is left alone by the canonicalisation. */
  lemma {:induction false} PrintIsValid(e: Expr)
    ensures IsValid(Print(e))
    ensures NoneIn(Print(e), JavaWhitespace + {'x', 'X', Division})
  {
    match e
    case Lit(n) => LitValid(n);
    case Bin(op, l, r) =>
      PrintIsValid(l);
      PrintIsValid(r);
      BinValid(OpChar(op), Print(l), Print(r));
  }

  lemma CanonicalKeeps(s: string)
    requires NoneIn(s, JavaWhitespace + {'x', 'X', Division})
    ensures Canonical(s) == s
  {
    ReplaceEachIdentity(s, JavaWhitespace, "");
    ReplaceEachIdentity(s, {'x'}, "*");
    ReplaceEachIdentity(s, {'X'}, "*");
    ReplaceEachIdentity(s, {Division}, "/");
  }

  /** The rewrite before evaluation works character by character: it commutes with concatenation. */
  lemma CanonicalConcat(a: string, b: string)
    ensures Canonical(a + b) == Canonical(a) + Canonical(b)
  {
    ReplaceEachConcat(a, b, JavaWhitespace, "");
    var a1, b1 := ReplaceEach(a, JavaWhitespace, ""), ReplaceEach(b, JavaWhitespace, "");
    ReplaceEachConcat(a1, b1, {'x'}, "*");
    var a2, b2 := ReplaceEach(a1, {'x'}, "*"), ReplaceEach(b1, {'x'}, "*");
    ReplaceEachConcat(a2, b2, {'X'}, "*");
    var a3, b3 := ReplaceEach(a2, {'X'}, "*"), ReplaceEach(b2, {'X'}, "*");
    ReplaceEachConcat(a3, b3, {Division}, "/");
  }

  /**
   * The rewrite of one character: whitespace is deleted, `x` and `X` become
   * `*`, the division sign becomes `/`, and every other character stays.
   */
  lemma CanonicalSingle(c: char)
    ensures c in JavaWhitespace ==> Canonical([c]) == []
    ensures c == 'x' || c == 'X' ==> Canonical([c]) == "*"
    ensures c == Division ==> Canonical([c]) == "/"
    ensures c !in JavaWhitespace + {'x', 'X', Division} ==> Canonical([c]) == [c]
  {
    ReplaceEachSingle(c, JavaWhitespace, "");
    if c !in JavaWhitespace {
      ReplaceEachChar(c, {'x'}, '*');
      var c2 := if c == 'x' then '*' else c;
      ReplaceEachChar(c2, {'X'}, '*');
      var c3 := if c2 == 'X' then '*' else c2;
      ReplaceEachChar(c3, {Division}, '/');
    }
  }

  /** Round trip through the text: `evaluateExpression` of a printed expression is its value. */
  lemma EvaluationPrint(e: Expr)
    ensures Evaluation(Print(e)) == Value(e)
  {
    PrintIsValid(e);
    CanonicalKeeps(Print(e));
    EvaluatedPrint(e);
  }

  // ---------------------------------------------------------------------
  // Precedence and associativity
  // ---------------------------------------------------------------------

  function OpRank(op: Op): nat {
    if op == Mul || op == Div then 2 else 1
  }

  lemma ScanNumberThen(n: nat, rest: string, st: Stacks)
    requires rest == [] || !IsNumberChar(rest[0])
    ensures Scan(DecimalString(n) + rest, st) == Scan(rest, Stacks(st.numbers + [n as real], st.operators))
  {
    ScanConcat(DecimalString(n), rest, st);
    ScanDecimal(n, st);
  }

  lemma ScanOperatorThen(c: char, rest: string, st: Stacks)
    requires IsOperator(c)
    ensures Scan([c] + rest, st) == Then(ReduceBefore(c, st), rest)
  {
    assert ([c] + rest)[0] == c && ([c] + rest)[1..] == rest;
  }

  lemma Regroup(x1: string, x2: string, x3: string, x4: string, x5: string)
    ensures x1 + x2 + x3 + x4 + x5 == x1 + (x2 + (x3 + (x4 + x5)))
  {
  }

  lemma ReduceBeforeEmpty(c: char, ns: seq<real>)
    ensures ReduceBefore(c, Stacks(ns, [])) == Ok(Stacks(ns, [c]))
  {
    assert [] + [c] == [c];
  }

  /** The text `a o1 b o2 c` scans up to `o2` by stacking `a`, `b` and `o1`. */
  lemma ScanTwoOperands(a: nat, b: nat, c: nat, o1: Op, o2: Op)
    ensures Evaluated(DecimalString(a) + ([OpChar(o1)] + (DecimalString(b) + ([OpChar(o2)] + DecimalString(c)))))
         == Continue([OpChar(o2)] + DecimalString(c), Stacks([a as real, b as real], [OpChar(o1)]))
  {
    var tail := [OpChar(o2)] + DecimalString(c);
    assert tail[0] == OpChar(o2);
    ScanOperandOperand(a, OpChar(o1), b, tail);
  }

  /** `a o1 b` followed by a text that does not continue the numeral stacks `a`, `b` and `o1`. */
  lemma ScanOperandOperand(a: nat, c1: char, b: nat, tail: string)
    requires IsOperator(c1) && (tail == [] || !IsNumberChar(tail[0]))
    ensures Scan(DecimalString(a) + ([c1] + (DecimalString(b) + tail)), Stacks([], []))
         == Scan(tail, Stacks([a as real, b as real], [c1]))
  {
    ScanFirstOperand(a, c1, DecimalString(b) + tail);
    ScanNumberThen(b, tail, Stacks([a as real], [c1]));
    assert [a as real] + [b as real] == [a as real, b as real];
  }

  /** `a o1` followed by any text stacks `a` and `o1`. */
  lemma ScanFirstOperand(a: nat, c1: char, rest: string)
    requires IsOperator(c1)
    ensures Scan(DecimalString(a) + ([c1] + rest), Stacks([], [])) == Scan(rest, Stacks([a as real], [c1]))
  {
    ScanNumberThen(a, [c1] + rest, Stacks([], []));
    assert [] + [a as real] == [a as real];
    ScanOperatorThen(c1, rest, Stacks([a as real], []));
    ReduceBeforeEmpty(c1, [a as real]);
  }

  lemma OpRankIsRank(op: Op)
    ensures Rank(OpChar(op)) == OpRank(op)
  {
  }

  /** An operator that binds tighter than the stacked one is pushed above it. */
  lemma ReduceBeforeTighter(c2: char, ns: seq<real>, c1: char)
    requires IsOperator(c1) && IsOperator(c2) && Rank(c2) > Rank(c1)
    ensures ReduceBefore(c2, Stacks(ns, [c1])) == Ok(Stacks(ns, [c1, c2]))
  {
    assert [c1] + [c2] == [c1, c2];
  }

  /** An operator that binds no tighter than the stacked one first applies it. */
  lemma ReduceBeforeLooser(c2: char, x: real, y: real, c1: char)
    requires IsOperator(c1) && IsOperator(c2) && Rank(c2) <= Rank(c1)
    ensures ReduceBefore(c2, Stacks([x, y], [c1]))
         == match ApplyOperation(c1, y, x) case Err(e) => Err(e) case Ok(v) => Ok(Stacks([v], [c2]))
  {
    var st := Stacks([x, y], [c1]);
    assert st.numbers[..0] == [] && st.operators[..0] == [];
    match ApplyOperation(c1, y, x)
    case Err(e) =>
    case Ok(v) =>
      assert PopAndApply(st) == Ok(Stacks([v], []));
      ReduceBeforeEmpty(c2, [v]);
  }

  lemma FinishOne(x: real, y: real, c: char)
    requires IsOperator(c)
    ensures Finish(Stacks([x, y], [c]))
         == match ApplyOperation(c, y, x) case Err(e) => Err(e) case Ok(v) => Ok(v)
  {
    var st := Stacks([x, y], [c]);
    assert st.numbers[..0] == [] && st.operators[..0] == [];
    match ApplyOperation(c, y, x)
    case Err(e) =>
    case Ok(v) =>
      assert PopAndApply(st) == Ok(Stacks([v], []));
  }

  lemma FinishTwo(x: real, y: real, z: real, c1: char, c2: char)
    requires IsOperator(c2)
    ensures Finish(Stacks([x, y, z], [c1, c2]))
         == match ApplyOperation(c2, z, y) case Err(e) => Err(e) case Ok(v) => Finish(Stacks([x, v], [c1]))
  {
    var st := Stacks([x, y, z], [c1, c2]);
    assert st.numbers[..1] == [x] && st.operators[..1] == [c1];
    assert st.numbers[2] == z && st.numbers[1] == y && st.operators[1] == c2;
    match ApplyOperation(c2, z, y)
    case Err(e) =>
    case Ok(v) =>
      assert [x] + [v] == [x, v];
      assert PopAndApply(st) == Ok(Stacks([x, v], [c1]));
  }

  lemma ContinueDecimal(n: nat, st: Stacks)
    ensures Continue(DecimalString(n), st) == Finish(Stacks(st.numbers + [n as real], st.operators))
  {
    ScanDecimal(n, st);
  }

  /** From the stacks `a b | o1`, the rest `o2 c` computes `a o1 (b o2 c)` when `o2` binds tighter. */
  lemma RightTail(a: nat, b: nat, c: nat, o1: Op, o2: Op)
    requires OpRank(o2) > OpRank(o1)
    ensures Continue([OpChar(o2)] + DecimalString(c), Stacks([a as real, b as real], [OpChar(o1)]))
         == AsResult(Value(Bin(o1, Lit(a), Bin(o2, Lit(b), Lit(c)))))
  {
    var c1, c2, sc := OpChar(o1), OpChar(o2), DecimalString(c);
    var x, y, z := a as real, b as real, c as real;
    OpRankIsRank(o1);
    OpRankIsRank(o2);
    TighterStep(x, y, z, c1, c2, c);
    ApplyArith(o2, y, z);
    var inner := Bin(o2, Lit(b), Lit(c));
    assert Value(inner) == Arith(o2, y, z);
    match Arith(o2, y, z)
    case None =>
    case Some(v) =>
      FinishOne(x, v, c1);
      ApplyArith(o1, x, v);
  }

  /** From the stacks `x y | c1`, a tighter `c2` and the literal `c` stack up before anything is applied. */
  lemma TighterStep(x: real, y: real, z: real, c1: char, c2: char, c: nat)
    requires IsOperator(c1) && IsOperator(c2) && Rank(c2) > Rank(c1) && z == c as real
    ensures Continue([c2] + DecimalString(c), Stacks([x, y], [c1]))
         == match ApplyOperation(c2, z, y) case Err(e) => Err(e) case Ok(v) => Finish(Stacks([x, v], [c1]))
  {
    var sc := DecimalString(c);
    var st4 := Stacks([x, y], [c1, c2]);
    ReduceBeforeTighter(c2, [x, y], c1);
    assert ([c2] + sc)[0] == c2 && ([c2] + sc)[1..] == sc;
    ContinueOperator([c2] + sc, Stacks([x, y], [c1]));
    ContinueDecimal(c, st4);
    assert [x, y] + [z] == [x, y, z];
    FinishTwo(x, y, z, c1, c2);
  }

  /** From the stacks `a b | o1`, the rest `o2 c` computes `(a o1 b) o2 c` unless `o2` binds tighter. */
  lemma LeftTail(a: nat, b: nat, c: nat, o1: Op, o2: Op)
    requires OpRank(o2) <= OpRank(o1)
    ensures Continue([OpChar(o2)] + DecimalString(c), Stacks([a as real, b as real], [OpChar(o1)]))
         == AsResult(Value(Bin(o2, Bin(o1, Lit(a), Lit(b)), Lit(c))))
  {
    var c1, c2, sc := OpChar(o1), OpChar(o2), DecimalString(c);
    var x, y := a as real, b as real;
    OpRankIsRank(o1);
    OpRankIsRank(o2);
    LooserStep(x, y, c1, c2, sc);
    ApplyArith(o1, x, y);
    var inner := Bin(o1, Lit(a), Lit(b));
    assert Value(inner) == Arith(o1, x, y);
    match Arith(o1, x, y)
    case None =>
    case Some(v) =>
      LastOperand(v, c, o2);
  }

  /** From the stacks `x y | c1`, an operator `c2` that binds no tighter first applies `c1`. */
  lemma LooserStep(x: real, y: real, c1: char, c2: char, rest: string)
    requires IsOperator(c1) && IsOperator(c2) && Rank(c2) <= Rank(c1)
    ensures Continue([c2] + rest, Stacks([x, y], [c1]))
         == match ApplyOperation(c1, y, x) case Err(e) => Err(e) case Ok(v) => Continue(rest, Stacks([v], [c2]))
  {
    ReduceBeforeLooser(c2, x, y, c1);
    assert ([c2] + rest)[0] == c2 && ([c2] + rest)[1..] == rest;
    ContinueOperator([c2] + rest, Stacks([x, y], [c1]));
  }

  /** From the stacks `v | o`, the literal `c` computes `v o c`. */
  lemma LastOperand(v: real, c: nat, o: Op)
    ensures Continue(DecimalString(c), Stacks([v], [OpChar(o)])) == AsResult(Arith(o, v, c as real))
  {
    var z := c as real;
    ContinueDecimal(c, Stacks([v], [OpChar(o)]));
    assert [v] + [z] == [v, z];
    FinishOne(v, z, OpChar(o));
    ApplyArith(o, v, z);
  }

  /**
   * `a o1 b o2 c` groups to the right exactly when `o2` binds tighter than
   * `o1`; otherwise, and in particular for equal precedence, to the left.
   */
  lemma Precedence(a: nat, b: nat, c: nat, o1: Op, o2: Op)
    ensures Evaluated(DecimalString(a) + [OpChar(o1)] + DecimalString(b) + [OpChar(o2)] + DecimalString(c))
         == AsResult(Value(if OpRank(o2) > OpRank(o1)
                           then Bin(o1, Lit(a), Bin(o2, Lit(b), Lit(c)))
                           else Bin(o2, Bin(o1, Lit(a), Lit(b)), Lit(c))))
  {
    ScanTwoOperands(a, b, c, o1, o2);
    Regroup(DecimalString(a), [OpChar(o1)], DecimalString(b), [OpChar(o2)], DecimalString(c));
    if OpRank(o2) > OpRank(o1) {
      RightTail(a, b, c, o1, o2);
    } else {
      LeftTail(a, b, c, o1, o2);
    }
  }

  // ---------------------------------------------------------------------
  // On validated input only the arithmetic can fail
  // ---------------------------------------------------------------------

  /** The failures that survive validation: a malformed literal, a missing operand, a division by zero, leftovers. */
  predicate Benign(e: EvalError) {
    e == InvalidNumber || e == EmptyStack || e == DivideByZero || e == InvalidExpression
  }

  /** Every stacked operator is `(` or one of the four operators. */
  predicate OpsOk(ops: seq<char>) {
    forall i | 0 <= i < |ops| :: ops[i] == '(' || IsOperator(ops[i])
  }

  function OpenCount(ops: seq<char>): nat {
    multiset(ops)['(']
  }

  /** Starting `d` levels deep, no prefix of `s` closes more parentheses than are open. */
  predicate RunningOk(s: string, d: int) {
    forall k | 0 <= k <= |s| :: d + Depth(s[..k]) >= 0
  }

  lemma OpsOkPop(ops: seq<char>)
    requires |ops| > 0 && OpsOk(ops)
    ensures OpsOk(ops[..|ops| - 1])
    ensures OpenCount(ops[..|ops| - 1]) == OpenCount(ops) - (if ops[|ops| - 1] == '(' then 1 else 0)
  {
    assert ops == ops[..|ops| - 1] + [ops[|ops| - 1]];
  }

  lemma OpsOkPush(ops: seq<char>, c: char)
    requires OpsOk(ops) && IsOperator(c)
    ensures OpsOk(ops + [c]) && OpenCount(ops + [c]) == OpenCount(ops)
  {
    assert multiset(ops + [c]) == multiset(ops) + multiset{c};
  }

  /** `)` with an open `(` on the stack fails only for lack of operands or a division by zero. */
  lemma {:induction false} ReduceParenSafe(st: Stacks)
    requires OpsOk(st.operators) && OpenCount(st.operators) >= 1
    ensures ReduceParen(st).Err? ==> ReduceParen(st).error == EmptyStack || ReduceParen(st).error == DivideByZero
    ensures ReduceParen(st).Ok? ==> OpsOk(ReduceParen(st).value.operators)
    ensures ReduceParen(st).Ok? ==> OpenCount(ReduceParen(st).value.operators) == OpenCount(st.operators) - 1
    decreases |st.operators|
  {
    var ops := st.operators;
    assert |ops| > 0;
    OpsOkPop(ops);
    if ops[|ops| - 1] != '(' {
      match PopAndApply(st)
      case Err(e) =>
      case Ok(next) => ReduceParenSafe(next);
    }
  }

  /** An operator is pushed after applying what binds at least as tightly; only the arithmetic can fail. */
  lemma {:induction false} ReduceBeforeSafe(c: char, st: Stacks)
    requires IsOperator(c) && OpsOk(st.operators)
    ensures ReduceBefore(c, st).Err? ==> ReduceBefore(c, st).error == EmptyStack || ReduceBefore(c, st).error == DivideByZero
    ensures ReduceBefore(c, st).Ok? ==> OpsOk(ReduceBefore(c, st).value.operators)
    ensures ReduceBefore(c, st).Ok? ==> OpenCount(ReduceBefore(c, st).value.operators) == OpenCount(st.operators)
    decreases |st.operators|
  {
    var ops := st.operators;
    if |ops| > 0 && HasPrecedence(c, ops[|ops| - 1]) {
      OpsOkPop(ops);
      match PopAndApply(st)
      case Err(e) =>
      case Ok(next) => ReduceBeforeSafe(c, next);
    } else {
      OpsOkPush(ops, c);
    }
  }

  /** With no `(` left on the stack, finishing fails only for operands missing, left over, or a division by zero. */
  lemma {:induction false} FinishSafe(st: Stacks)
    requires OpsOk(st.operators) && OpenCount(st.operators) == 0
    ensures Finish(st).Err? ==> Benign(Finish(st).error)
    decreases |st.operators|
  {
    var ops := st.operators;
    if |ops| > 0 {
      OpsOkPop(ops);
      assert ops[|ops| - 1] != '(' by {
        assert ops[|ops| - 1] in multiset(ops);
      }
      match PopAndApply(st)
      case Err(e) =>
      case Ok(next) => FinishSafe(next);
    }
  }

  lemma DepthOfNoParens(s: string)
    requires forall i | 0 <= i < |s| :: s[i] != '(' && s[i] != ')'
    ensures Depth(s) == 0
  {
    NotCounted(s, '(');
    NotCounted(s, ')');
  }

  /** Cutting `m` characters off the front of a running-balanced text moves its starting depth. */
  lemma RunningOkTail(s: string, d: int, m: nat)
    requires m <= |s| && RunningOk(s, d) && AllMathChars(s)
    ensures RunningOk(s[m..], d + Depth(s[..m])) && AllMathChars(s[m..])
    ensures Depth(s) == Depth(s[..m]) + Depth(s[m..])
  {
    forall k | 0 <= k <= |s[m..]| ensures d + Depth(s[..m]) + Depth(s[m..][..k]) >= 0 {
      assert s[..m + k] == s[..m] + s[m..][..k];
      DepthConcat(s[..m], s[m..][..k]);
    }
    assert s == s[..m] + s[m..];
    DepthConcat(s[..m], s[m..]);
  }

  /**
   * Scanning a text over the math alphabet whose running depth never drops
   * below zero fails only in a benign way, keeps the operator stack well
   * formed, and leaves as many `(` stacked as the text left open.
   */
  lemma {:induction false} ScanSafe(s: string, st: Stacks, d: int)
    requires AllMathChars(s) && RunningOk(s, d)
    requires OpsOk(st.operators) && OpenCount(st.operators) == d
    ensures Scan(s, st).Err? ==> Benign(Scan(s, st).error)
    ensures Scan(s, st).Ok? ==> OpsOk(Scan(s, st).value.operators)
    ensures Scan(s, st).Ok? ==> OpenCount(Scan(s, st).value.operators) == d + Depth(s)
    decreases |s|
  {
    if s == [] {
      assert multiset(s) == multiset{};
    } else {
      var c := s[0];
      assert IsMathChar(c);
      if IsNumberChar(c) {
        var n := NumberRunLength(s);
        assert s[..n] != [] by { assert s[..n][0] == c; }
        DepthOfNoParens(s[..n]);
        RunningOkTail(s, d, n);
        match ParseNumber(s[..n])
        case None =>
        case Some(v) => ScanSafe(s[n..], Stacks(st.numbers + [v], st.operators), d);
      } else {
        RunningOkTail(s, d, 1);
        assert s[..1] == [c];
        assert multiset([c]) == multiset{c};
        if c == '(' {
          assert multiset(st.operators + ['(']) == multiset(st.operators) + multiset{'('};
          assert OpsOk(st.operators + ['(']);
          ScanSafe(s[1..], Stacks(st.numbers, st.operators + ['(']), d + 1);
        } else if c == ')' {
          assert d - 1 >= 0 by { assert d + Depth(s[..1]) >= 0; }
          ReduceParenSafe(st);
          match ReduceParen(st)
          case Err(_) =>
          case Ok(next) => ScanSafe(s[1..], next, d - 1);
        } else {
          ReduceBeforeSafe(c, st);
          match ReduceBefore(c, st)
          case Err(_) =>
          case Ok(next) => ScanSafe(s[1..], next, d);
        }
      }
    }
  }

  /**
   * What the validator accepts never fails with a mismatched parenthesis, an
   * invalid character or an unknown operator: evaluating it yields a value or
   * one of the benign failures.
   */
  lemma ValidatedFailuresAreBenign(s: string)
    requires IsValid(s)
    ensures Evaluated(s).Err? ==> Benign(Evaluated(s).error)
  {
    var e0 := Stacks([], []);
    assert multiset(e0.operators) == multiset{};
    ScanSafe(s, e0, 0);
    match Scan(s, e0)
    case Err(_) =>
    case Ok(next) => FinishSafe(next);
  }

  // ---------------------------------------------------------------------
  // Worked cases
  // ---------------------------------------------------------------------

  /** The text `a o1 b o2 c` for numerals below ten. */
  lemma SmallText(a: nat, b: nat, c: nat, o1: Op, o2: Op)
    requires a < 10 && b < 10 && c < 10
    ensures DecimalString(a) + [OpChar(o1)] + DecimalString(b) + [OpChar(o2)] + DecimalString(c)
         == [DigitChar(a), OpChar(o1), DigitChar(b), OpChar(o2), DigitChar(c)]
  {
  }

  /** A single operation `a o b` computes `a o b`. */
  lemma OneOperation(a: nat, b: nat, o: Op)
    ensures Evaluated(DecimalString(a) + [OpChar(o)] + DecimalString(b)) == AsResult(Arith(o, a as real, b as real))
  {
    var c, sa, sb := OpChar(o), DecimalString(a), DecimalString(b);
    var st := Stacks([a as real, b as real], [c]);
    ScanOperandOperand(a, c, b, []);
    assert sb + [] == sb;
    Regroup3(sa, [c], sb);
    assert Scan(sa + [c] + sb, Stacks([], [])) == Ok(st);
    FinishOne(a as real, b as real, c);
    ApplyArith(o, a as real, b as real);
  }

  lemma Regroup3(x1: string, x2: string, x3: string)
    ensures x1 + x2 + x3 == x1 + (x2 + x3)
  {
  }

  /** `2+3` passes the validator and evaluates to 5. */
  lemma SumExample()
    ensures IsValid("2+3") && Evaluated("2+3") == Ok(5.0)
  {
    SumValid();
    SumText();
    OneOperation(2, 3, Add);
    assert Arith(Add, 2.0, 3.0) == Some(5.0);
  }

  lemma SumValid()
    ensures IsValid("2+3")
  {
    var s := "2+3";
    assert s[0] == '2' && s[1] == '+' && s[2] == '3';
    NoParensValid(s);
  }

  /** A non-empty text over the math alphabet without parentheses passes the validator. */
  lemma NoParensValid(s: string)
    requires |s| > 0 && AllMathChars(s)
    requires forall i | 0 <= i < |s| :: s[i] != '(' && s[i] != ')'
    ensures IsValid(s)
  {
    forall k | 0 <= k <= |s| ensures Depth(s[..k]) == 0 {
      var p := s[..k];
      forall i | 0 <= i < |p| ensures p[i] != '(' && p[i] != ')' {
        assert p[i] == s[i];
      }
      DepthOfNoParens(p);
    }
    assert s[..|s|] == s;
  }

  lemma SumText()
    ensures DecimalString(2) + [OpChar(Add)] + DecimalString(3) == "2+3"
  {
    assert DecimalString(2) == "2" && DecimalString(3) == "3";
  }

  /** `2+3*4` is 14: the product is taken first. */
  lemma ProductFirstExample()
    ensures Evaluated("2+3*4") == Ok(14.0)
  {
    Precedence(2, 3, 4, Add, Mul);
    assert Value(Bin(Add, Lit(2), Bin(Mul, Lit(3), Lit(4)))) == Some(14.0);
    SmallText(2, 3, 4, Add, Mul);
    assert [DigitChar(2), OpChar(Add), DigitChar(3), OpChar(Mul), DigitChar(4)] == "2+3*4";
  }

  /** `10-4-3` is 3: subtraction associates to the left. */
  lemma LeftAssociativeExample()
    ensures Evaluated("10-4-3") == Ok(3.0)
  {
    Precedence(10, 4, 3, Sub, Sub);
    assert Value(Bin(Sub, Bin(Sub, Lit(10), Lit(4)), Lit(3))) == Some(3.0);
    TenText();
  }

  lemma TenText()
    ensures DecimalString(10) + [OpChar(Sub)] + DecimalString(4) + [OpChar(Sub)] + DecimalString(3) == "10-4-3"
  {
    assert DecimalString(10) == "10" by {
      assert DecimalString(1) == "1";
    }
    assert DecimalString(4) == "4" && DecimalString(3) == "3";
  }

  /** A leading minus has no left operand: `-5` fails for lack of operands although it passes the validator. */
  lemma UnaryMinusFails()
    ensures IsValid("-5")
    ensures Evaluated("-5") == Err(EmptyStack)
  {
    MinusFiveValid();
    var s := "-5";
    ReduceBeforeEmpty('-', []);
    assert s[1..] == "5" && s[0] == '-';
    ContinueOperator(s, Stacks([], []));
    ScanDecimal(5, Stacks([], ['-']));
    assert DecimalString(5) == "5";
  }

  lemma MinusFiveValid()
    ensures IsValid("-5")
  {
    var s := "-5";
    assert s[..0] == [] && s[..1] == "-" && s[..2] == s;
  }

  lemma HalvedTwice()
    ensures Value(Bin(Div, Bin(Div, Lit(8), Lit(4)), Lit(2))) == Some(1.0)
  {
    assert Arith(Div, 8.0, 4.0) == Some(2.0);
    assert Arith(Div, 2.0, 2.0) == Some(1.0);
  }

  /** `8/4/2` is 1: division associates to the left. */
  lemma DivisionLeftAssociativeExample()
    ensures Evaluated("8/4/2") == Ok(1.0)
  {
    Precedence(8, 4, 2, Div, Div);
    HalvedTwice();
    SmallText(8, 4, 2, Div, Div);
    assert [DigitChar(8), OpChar(Div), DigitChar(4), OpChar(Div), DigitChar(2)] == "8/4/2";
  }

  lemma ScanAfterOpen(rest: string, st: Stacks)
    ensures Scan("(" + rest, st) == Scan(rest, Stacks(st.numbers, st.operators + ['(']))
  {
    var t := "(" + rest;
    assert t[0] == '(' && t[1..] == rest;
  }

  lemma ScanCloseOpen(ns: seq<real>, os: seq<char>)
    ensures Scan(")", Stacks(ns, os + ['('])) == Ok(Stacks(ns, os))
  {
    assert ")"[1..] == [];
    assert (os + ['('])[..|os|] == os;
  }

  /** One parenthesised literal: `(n)` pushes `n` and leaves the operator stack as it was. */
  lemma ScanGroup(n: nat, st: Stacks)
    ensures Scan("(" + DecimalString(n) + ")", st) == Ok(Stacks(st.numbers + [n as real], st.operators))
  {
    var d := DecimalString(n);
    assert "(" + d + ")" == "(" + (d + ")");
    ScanAfterOpen(d + ")", st);
    ScanNumberThen(n, ")", Stacks(st.numbers, st.operators + ['(']));
    ScanCloseOpen(st.numbers + [n as real], st.operators);
  }

  /** A parenthesised balanced text is balanced. */
  lemma GroupValid(p: string)
    requires NeverUnderflows(p) && Depth(p) == 0 && Printable(p)
    ensures NeverUnderflows("(" + p + ")") && Depth("(" + p + ")") == 0 && Printable("(" + p + ")")
  {
    var w0: string := ['('];
    OpenValid();
    NeverUnderflowsConcat(w0, p);
    DepthConcat(w0, p);
    NeverUnderflowsClose(w0 + p);
    DepthConcat(w0 + p, [')']);
    GroupPrintable(p);
  }

  lemma OpenValid()
    ensures NeverUnderflows("(") && Depth("(") == 1
  {
    var w0: string := ['('];
    assert w0[..0] == [] && w0[..1] == w0;
  }

  lemma GroupPrintable(p: string)
    requires Printable(p)
    ensures Printable("(" + p + ")")
  {
    assert Printable("(") && Printable(")");
    PrintableConcat("(", p);
    PrintableConcat("(" + p, ")");
  }

  /** Two parenthesised literals side by side pass the validator. */
  lemma TwoGroupsValid(a: nat, b: nat)
    ensures IsValid("(" + DecimalString(a) + ")" + ("(" + DecimalString(b) + ")"))
  {
    var ga, gb := "(" + DecimalString(a) + ")", "(" + DecimalString(b) + ")";
    LitValid(a);
    LitValid(b);
    GroupValid(DecimalString(a));
    GroupValid(DecimalString(b));
    NeverUnderflowsConcat(ga, gb);
    DepthConcat(ga, gb);
    PrintableConcat(ga, gb);
  }

  /** `(1)(2)` passes the validator. */
  lemma AdjacentGroupsValid()
    ensures IsValid("(1)(2)")
  {
    TwoGroupsValid(1, 2);
    GroupsText();
  }

  lemma GroupsText()
    ensures "(" + DecimalString(1) + ")" + ("(" + DecimalString(2) + ")") == "(1)(2)"
  {
    assert DecimalString(1) == "1" && DecimalString(2) == "2";
  }

  /** Two parenthesised literals side by side leave two operands, which is not one value. */
  lemma TwoGroupsFail(a: nat, b: nat)
    ensures Evaluated("(" + DecimalString(a) + ")" + ("(" + DecimalString(b) + ")")) == Err(InvalidExpression)
  {
    var ga, gb := "(" + DecimalString(a) + ")", "(" + DecimalString(b) + ")";
    var e0 := Stacks([], []);
    assert ga[|ga| - 1] == ')';
    ScanConcat(ga, gb, e0);
    ScanGroup(a, e0);
    ScanGroup(b, Stacks([a as real], []));
    assert [] + [a as real] == [a as real];
  }

  /** `(1)(2)` leaves two operands, so its evaluation fails although it validates. */
  lemma AdjacentGroupsFail()
    ensures Evaluated("(1)(2)") == Err(InvalidExpression)
  {
    assert DecimalString(1) == "1" && DecimalString(2) == "2";
    TwoGroupsFail(1, 2);
    GroupsText();
  }
}
