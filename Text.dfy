/**
 * Character classes and the string rewrites shared by the parser, the OCR
 * helper and the two activities. Each `replaceAll` call is modelled by the
 * string function it computes for its particular pattern.
 */
module Text {

  datatype Option<T> = None | Some(value: T)

  /** ASCII digit, the `[0-9]` class of the source's regular expressions. */
  predicate IsDigit(c: char) { '0' <= c <= '9' }

  /** The four binary operators, as every `isOperator` of the source defines them. */
  predicate IsOperator(c: char) { c == '+' || c == '-' || c == '*' || c == '/' }

  // The character class of digits, the four operators, the dot and both parentheses.
  predicate IsMathChar(c: char) {
    IsDigit(c) || IsOperator(c) || c == '.' || c == '(' || c == ')'
  }

  /** The characters Java's `\s` matches: space, tab, line feed, vertical tab, form feed, carriage return. */
  const JavaWhitespace: set<char> := {' ', '\t', '\n', '\U{0B}', '\U{0C}', '\r'}

  /** The characters Java's regular-expression `.` does not match (line terminators). */
  const LineTerminators: set<char> := {'\n', '\r', '\U{85}', '\U{2028}', '\U{2029}'}

  predicate NoneIn(s: string, cs: set<char>) {
    forall i | 0 <= i < |s| :: s[i] !in cs
  }

  predicate AllMathChars(s: string) {
    forall i | 0 <= i < |s| :: IsMathChar(s[i])
  }

  /** No two adjacent characters of `s` are both operators. */
  predicate NoAdjacentOperators(s: string) {
    forall i | 0 < i < |s| :: !(IsOperator(s[i - 1]) && IsOperator(s[i]))
  }

  /** No two adjacent characters of `s` are both `c`. */
  predicate NoDouble(s: string, c: char) {
    forall i | 0 < i < |s| :: !(s[i - 1] == c && s[i] == c)
  }

  /** `s` with every occurrence of `c` removed. */
  function Erase(s: string, c: char): (r: string)
    ensures multiset(r)[c] == 0
    ensures forall d | d != c :: multiset(r)[d] == multiset(s)[d]
  {
    if s == [] then []
    else
      assert s == [s[0]] + s[1..];
      (if s[0] == c then [] else [s[0]]) + Erase(s[1..], c)
  }

  // ---------------------------------------------------------------------
  // Per-character replacement: `replaceAll("[...]", rep)` with a one-character
  // pattern. `replaceAll("\\s+", "")` computes the same string as deleting each
  // whitespace character, because the replacement is empty.
  // ---------------------------------------------------------------------

  function ReplaceEach(s: string, cs: set<char>, rep: string): string {
    if s == [] then [] else (if s[0] in cs then rep else [s[0]]) + ReplaceEach(s[1..], cs, rep)
  }

  /** Every character of the result is a character of `s` outside `cs`, or one of `rep`. */
  lemma {:induction false} ReplaceEachOrigin(s: string, cs: set<char>, rep: string)
    ensures forall i | 0 <= i < |ReplaceEach(s, cs, rep)| ::
      var r := ReplaceEach(s, cs, rep); (r[i] in s && r[i] !in cs) || r[i] in rep
    decreases |s|
  {
    if s != [] {
      ReplaceEachOrigin(s[1..], cs, rep);
      var head := if s[0] in cs then rep else [s[0]];
      var r := ReplaceEach(s, cs, rep);
      forall i | 0 <= i < |r| ensures (r[i] in s && r[i] !in cs) || r[i] in rep {
        if i < |head| {
          assert r[i] == head[i];
        } else {
          assert r[i] == ReplaceEach(s[1..], cs, rep)[i - |head|];
          assert forall d | d in s[1..] :: d in s;
        }
      }
    }
  }

  /** A replacement that avoids `x` adds no character of `x`. */
  lemma ReplaceEachKeepsOut(s: string, cs: set<char>, rep: string, x: set<char>)
    requires NoneIn(s, x) && NoneIn(rep, x)
    ensures NoneIn(ReplaceEach(s, cs, rep), x)
  {
    ReplaceEachOrigin(s, cs, rep);
    var r := ReplaceEach(s, cs, rep);
    forall i | 0 <= i < |r| ensures r[i] !in x {
      if r[i] in s && r[i] !in cs {
        var j :| 0 <= j < |s| && s[j] == r[i];
      }
    }
  }

  /** Replacing the characters `cs` by a `rep` without any of them leaves none. */
  lemma ReplaceEachClears(s: string, cs: set<char>, rep: string)
    requires NoneIn(rep, cs)
    ensures NoneIn(ReplaceEach(s, cs, rep), cs)
  {
    ReplaceEachOrigin(s, cs, rep);
  }

  /** Both together: avoiding `x` before, and avoiding `x` and `cs` after. */
  lemma ReplaceEachAvoids(s: string, cs: set<char>, rep: string, x: set<char>)
    requires NoneIn(s, x) && NoneIn(rep, x + cs)
    ensures NoneIn(ReplaceEach(s, cs, rep), x + cs)
  {
    ReplaceEachKeepsOut(s, cs, rep, x);
    ReplaceEachClears(s, cs, rep);
  }

  lemma ReplaceEachSingle(c: char, cs: set<char>, rep: string)
    ensures ReplaceEach([c], cs, rep) == if c in cs then rep else [c]
  {
    assert [c][1..] == [];
  }

  /** A one-character replacement maps a one-character string to a one-character string. */
  lemma ReplaceEachChar(c: char, cs: set<char>, d: char)
    ensures ReplaceEach([c], cs, [d]) == [if c in cs then d else c]
  {
    ReplaceEachSingle(c, cs, [d]);
  }

  /** A string holding none of the characters `cs` is left as it is. */
  lemma {:induction false} ReplaceEachIdentity(s: string, cs: set<char>, rep: string)
    requires NoneIn(s, cs)
    ensures ReplaceEach(s, cs, rep) == s
    decreases |s|
  {
    if s != [] {
      assert NoneIn(s[1..], cs) by {
        forall i | 0 <= i < |s[1..]| ensures s[1..][i] !in cs {
          assert s[1..][i] == s[i + 1];
        }
      }
      ReplaceEachIdentity(s[1..], cs, rep);
      assert s == [s[0]] + s[1..];
    }
  }

  /** Replacing character by character commutes with concatenation. */
  lemma {:induction false} ReplaceEachConcat(a: string, b: string, cs: set<char>, rep: string)
    ensures ReplaceEach(a + b, cs, rep) == ReplaceEach(a, cs, rep) + ReplaceEach(b, cs, rep)
    decreases |a|
  {
    if a != [] {
      assert (a + b)[0] == a[0] && (a + b)[1..] == a[1..] + b;
      ReplaceEachConcat(a[1..], b, cs, rep);
    } else {
      assert a + b == b;
    }
  }

  /** `replaceAll("[^...]", "")`: keep only the characters of `keep`. */
  function KeepOnly(s: string, keep: set<char>): (r: string)
    ensures forall i | 0 <= i < |r| :: r[i] in keep
    ensures multiset(r) <= multiset(s)
    ensures forall c | c in keep :: multiset(r)[c] == multiset(s)[c]
  {
    if s == [] then []
    else
      assert s == [s[0]] + s[1..];
      (if s[0] in keep then [s[0]] else []) + KeepOnly(s[1..], keep)
  }

  /** The filter works character by character: it commutes with concatenation... */
  lemma {:induction false} KeepOnlyConcat(a: string, b: string, keep: set<char>)
    ensures KeepOnly(a + b, keep) == KeepOnly(a, keep) + KeepOnly(b, keep)
    decreases |a|
  {
    if a == [] {
      assert a + b == b;
    } else {
      KeepOnlyConcat(a[1..], b, keep);
      KeepOnlyStep(a, b, keep);
      Reassociate(if a[0] in keep then [a[0]] else [], KeepOnly(a[1..], keep), KeepOnly(b, keep));
    }
  }

  lemma Reassociate(h: string, x: string, y: string)
    ensures h + (x + y) == (h + x) + y
  {
  }

  lemma KeepOnlyStep(a: string, b: string, keep: set<char>)
    requires a != []
    ensures KeepOnly(a + b, keep) == (if a[0] in keep then [a[0]] else []) + KeepOnly(a[1..] + b, keep)
    ensures KeepOnly(a, keep) == (if a[0] in keep then [a[0]] else []) + KeepOnly(a[1..], keep)
  {
    assert (a + b)[0] == a[0] && (a + b)[1..] == a[1..] + b;
  }

  /** ...and keeps one character exactly when it is in `keep`. */
  lemma KeepOnlySingle(c: char, keep: set<char>)
    ensures KeepOnly([c], keep) == if c in keep then [c] else []
  {
    assert [c][1..] == [];
  }

  /**
   * `replaceAll("cc", "c")` for a doubled character `c`: the regular-expression
   * engine scans left to right and matches pairs that do not overlap, so each
   * matched pair shrinks to one `c` and `ccc` becomes `cc`.
   */
  function CollapseDouble(s: string, c: char): (r: string)
    ensures multiset(r) <= multiset(s)
  {
    if |s| >= 2 && s[0] == c && s[1] == c then
      assert s == [c] + ([c] + s[2..]);
      [c] + CollapseDouble(s[2..], c)
    else if s == [] then []
    else
      assert s == [s[0]] + s[1..];
      [s[0]] + CollapseDouble(s[1..], c)
  }

  /** Collapsing pairs of `c` leaves every other character where it was, in order. */
  lemma {:induction false} CollapseDoubleKeepsOthers(s: string, c: char)
    ensures Erase(CollapseDouble(s, c), c) == Erase(s, c)
    decreases |s|
  {
    if |s| >= 2 && s[0] == c && s[1] == c {
      CollapseDoubleKeepsOthers(s[2..], c);
      var t := CollapseDouble(s[2..], c);
      assert ([c] + t)[1..] == t;
      assert s[1..][1..] == s[2..];
    } else if s != [] {
      CollapseDoubleKeepsOthers(s[1..], c);
      var t := CollapseDouble(s[1..], c);
      assert ([s[0]] + t)[1..] == t;
    }
  }

  /** Without a doubled `c` there is nothing to collapse. */
  lemma {:induction false} CollapseDoubleIdentity(s: string, c: char)
    requires NoDouble(s, c)
    ensures CollapseDouble(s, c) == s
    decreases |s|
  {
    if s != [] {
      NoDoubleTail(s, c);
      CollapseDoubleIdentity(s[1..], c);
      CollapseDoubleHead(s, c);
      assert s == [s[0]] + s[1..];
    }
  }

  lemma NoDoubleTail(s: string, c: char)
    requires s != [] && NoDouble(s, c)
    ensures NoDouble(s[1..], c)
  {
    forall i | 0 < i < |s[1..]| ensures !(s[1..][i - 1] == c && s[1..][i] == c) {
      assert s[1..][i - 1] == s[i] && s[1..][i] == s[i + 1];
    }
  }

  /** Without a pair at the front, the first character is copied. */
  lemma CollapseDoubleHead(s: string, c: char)
    requires s != [] && NoDouble(s, c)
    ensures CollapseDouble(s, c) == [s[0]] + CollapseDouble(s[1..], c)
  {
    assert |s| >= 2 ==> !(s[0] == c && s[1] == c);
  }

  // ---------------------------------------------------------------------
  // String.trim(): removes every leading and trailing character <= U+0020.
  // ---------------------------------------------------------------------

  predicate IsTrimmed(c: char) { c <= ' ' }

  /** Drops the leading characters <= U+0020; what is left is the suffix of `s` from the first other one. */
  function TrimStart(s: string): (r: string)
    ensures |r| <= |s| && r == s[|s| - |r|..]
    ensures r == [] || !IsTrimmed(r[0])
    ensures forall i | 0 <= i < |s| - |r| :: IsTrimmed(s[i])
  {
    if s != [] && IsTrimmed(s[0]) then TrimStart(s[1..]) else s
  }

  /** Drops the trailing characters <= U+0020; what is left is the prefix of `s` up to the last other one. */
  function TrimEnd(s: string): (r: string)
    ensures |r| <= |s| && r == s[..|r|]
    ensures r == [] || !IsTrimmed(r[|r| - 1])
    ensures forall i | |r| <= i < |s| :: IsTrimmed(s[i])
  {
    if s != [] && IsTrimmed(s[|s| - 1]) then TrimEnd(s[..|s| - 1]) else s
  }

  /**
   * `String.trim()`: what lies between the leading and the trailing characters
   * <= U+0020 of `s`; a string without such characters at either end is its own trim.
   */
  function Trim(s: string): (r: string)
    ensures r == [] || (!IsTrimmed(r[0]) && !IsTrimmed(r[|r| - 1]))
    ensures |r| <= |s| && multiset(r) <= multiset(s)
    ensures (s == [] || (!IsTrimmed(s[0]) && !IsTrimmed(s[|s| - 1]))) ==> r == s
    ensures exists k :: Window(s, r, k)
  {
    TrimFacts(s);
    TrimWindow(s);
    TrimEnd(TrimStart(s))
  }

  lemma TrimFacts(s: string)
    ensures var r := TrimEnd(TrimStart(s));
      && (r == [] || (!IsTrimmed(r[0]) && !IsTrimmed(r[|r| - 1])))
      && |r| <= |s| && multiset(r) <= multiset(s)
      && ((s == [] || (!IsTrimmed(s[0]) && !IsTrimmed(s[|s| - 1]))) ==> r == s)
  {
    var t := TrimStart(s);
    TrimStartShrinks(s);
    TrimEndShrinks(t);
    TrimEndKeepsFirst(t);
    if s == [] || (!IsTrimmed(s[0]) && !IsTrimmed(s[|s| - 1])) {
      TrimStartKeeps(s);
    }
  }

  /** What is left is a window of `s` with only trimmed characters on either side. */
  lemma TrimWindow(s: string)
    ensures exists k :: Window(s, TrimEnd(TrimStart(s)), k)
  {
    var t := TrimStart(s);
    var k := |s| - |t|;
    SuffixWindow(s, t, TrimEnd(t), k);
  }

  /** A prefix `r` of the suffix `t` of `s` with trimmed characters around it is a window of `s`. */
  lemma SuffixWindow(s: string, t: string, r: string, k: nat)
    requires k <= |s| && t == s[k..] && |r| <= |t| && r == t[..|r|]
    requires forall i | 0 <= i < k :: IsTrimmed(s[i])
    requires forall i | |r| <= i < |t| :: IsTrimmed(t[i])
    ensures Window(s, r, k)
  {
    forall i | k + |r| <= i < |s| ensures IsTrimmed(s[i]) {
      assert s[i] == t[i - k];
    }
  }

  /** `r` is the part of `s` from index `k`, and everything of `s` around it is a trimmed character. */
  predicate Window(s: string, r: string, k: nat) {
    && k + |r| <= |s| && r == s[k..k + |r|]
    && (forall i | 0 <= i < k :: IsTrimmed(s[i]))
    && (forall i | k + |r| <= i < |s| :: IsTrimmed(s[i]))
  }

  lemma TrimStartShrinks(s: string)
    ensures multiset(TrimStart(s)) <= multiset(s)
  {
    var t := TrimStart(s);
    var i := |s| - |t|;
    assert s == s[..i] + t;
  }

  lemma TrimEndShrinks(t: string)
    ensures multiset(TrimEnd(t)) <= multiset(t)
  {
    var r := TrimEnd(t);
    assert t == r + t[|r|..];
  }

  /** What is left of `t` by `TrimEnd` starts where `t` does. */
  lemma TrimEndKeepsFirst(t: string)
    requires t == [] || !IsTrimmed(t[0])
    ensures TrimEnd(t) == [] || TrimEnd(t)[0] == t[0]
  {
    var r := TrimEnd(t);
    assert r == t[..|r|];
  }

  /** A string with untrimmed ends is its own `TrimEnd(TrimStart(_))`. */
  lemma TrimStartKeeps(s: string)
    requires s == [] || (!IsTrimmed(s[0]) && !IsTrimmed(s[|s| - 1]))
    ensures TrimStart(s) == s && TrimEnd(s) == s
  {
  }
}
