/**
 * `print` (src/expression.cpp) writes a tree in the surface syntax that the
 * parser of src/parser/booleanparser.cpp reads back: for every tree whose
 * literals are words of identifier characters, parsing the printed text
 * succeeds and gives back the same tree.
 */
module RoundTrip {
  import opened Expressions
  import opened Tokens
  import opened BooleanParser

  /** Every literal is a non-empty word of identifier characters. */
  predicate Printable(e: Expr) {
    match e
    case Lit(s) => s != "" && IsWord(s)
    case Not(x) => Printable(x)
    case And(l, r) => Printable(l) && Printable(r)
    case Or(l, r) => Printable(l) && Printable(r)
  }

  /** The tokens that the printed form of `e` scans to. */
  function Toks(e: Expr): (ts: seq<Token>)
    ensures |ts| > 0
  {
    match e
    case Lit(s) => [Token(s, Identifier)]
    case Not(x) => [OpToken('!')] + Toks(x)
    case And(l, r) => [OpToken('(')] + Toks(l) + [OpToken('&')] + Toks(r) + [OpToken(')')]
    case Or(l, r) => [OpToken('(')] + Toks(l) + [OpToken('|')] + Toks(r) + [OpToken(')')]
  }

  /**
   * Scanning `print(e)` outside quotes with nothing pending stays outside
   * quotes and produces the tokens of `e`, the last identifier possibly
   * still pending.
   */
  lemma {:induction false} RunPrint(st: ScanState, e: Expr)
    requires Printable(e) && !st.quoted && st.ident == ""
    ensures !Run(st, Print(e)).quoted
    ensures Run(st, Print(e)).tokens + Flush(Run(st, Print(e)).ident) == st.tokens + Toks(e)
    decreases |Toks(e)|, 1
  {
    match e
    case Lit(s) =>
      RunWord(st, s);
      assert "" + s == s;
    case Not(x) =>
      var st1 := st.(tokens := st.tokens + [OpToken('!')]);
      assert Print(e) == ['!'] + Print(x);
      RunOperator(st, '!', Print(x));
      RunPrint(st1, x);
      assert Toks(e) == [OpToken('!')] + Toks(x);
      assert st1.tokens + Toks(x) == st.tokens + Toks(e);
    case And(l, r) =>
      RunPrintBinary(st, l, r, '&');
      assert Print(e) == ['('] + Print(l) + [' ', '&', ' '] + Print(r) + [')'];
      assert Toks(e) == [OpToken('(')] + Toks(l) + [OpToken('&')] + Toks(r) + [OpToken(')')];
      var st' := Run(st, Print(e));
      assert st'.ident == "" && st'.tokens == st.tokens + Toks(e);
      assert Flush("") == [];
    case Or(l, r) =>
      RunPrintBinary(st, l, r, '|');
      assert Print(e) == ['('] + Print(l) + [' ', '|', ' '] + Print(r) + [')'];
      assert Toks(e) == [OpToken('(')] + Toks(l) + [OpToken('|')] + Toks(r) + [OpToken(')')];
      var st' := Run(st, Print(e));
      assert st'.ident == "" && st'.tokens == st.tokens + Toks(e);
      assert Flush("") == [];
  }

  lemma {:induction false} RunPrintBinary(st: ScanState, l: Expr, r: Expr, c: char)
    requires Printable(l) && Printable(r) && !st.quoted && st.ident == ""
    requires c == '&' || c == '|'
    ensures Run(st, ['('] + Print(l) + [' ', c, ' '] + Print(r) + [')'])
      == ScanState(st.tokens + ([OpToken('(')] + Toks(l) + [OpToken(c)] + Toks(r) + [OpToken(')')]), "", false)
    decreases |Toks(l)| + |Toks(r)| + 3, 0
  {
    var y := Print(r) + [')'];
    assert ['('] + Print(l) + [' ', c, ' '] + Print(r) + [')'] == ['('] + Print(l) + ([' ', c, ' '] + y);
    RunOpenOperand(st, l, c, y);
    var st3 := ScanState(st.tokens + [OpToken('(')] + Toks(l) + [OpToken(c)], "", false);
    RunOperand(st3, r, [')']);
    var st4 := Run(st3, Print(r));
    RunClose(st4);
    Associate(st.tokens, OpToken('('), Toks(l), OpToken(c), Toks(r), OpToken(')'));
  }

  /** Appending the pieces of a binary node one at a time or all at once. */
  lemma Associate<T>(p: seq<T>, a: T, x: seq<T>, b: T, y: seq<T>, d: T)
    ensures p + [a] + x + [b] + y + [d] == p + ([a] + x + [b] + y + [d])
  {
  }

  /** `(`, the left operand and the operator. */
  lemma RunOpenOperand(st: ScanState, l: Expr, c: char, y: string)
    requires Printable(l) && !st.quoted && st.ident == ""
    requires c == '&' || c == '|'
    ensures Run(st, ['('] + Print(l) + ([' ', c, ' '] + y))
      == Run(ScanState(st.tokens + [OpToken('(')] + Toks(l) + [OpToken(c)], "", false), y)
    decreases |Toks(l)| + 1, 3
  {
    var rest1 := [' ', c, ' '] + y;
    assert ['('] + Print(l) + rest1 == ['('] + (Print(l) + rest1);
    var st1 := st.(tokens := st.tokens + [OpToken('(')]);
    RunOperator(st, '(', Print(l) + rest1);
    RunOperand(st1, l, rest1);
    RunInfixThen(Run(st1, Print(l)), c, y);
  }

  /** Scanning an operand and then `rest`. */
  lemma RunOperand(st: ScanState, e: Expr, rest: string)
    requires Printable(e) && !st.quoted && st.ident == ""
    ensures Run(st, Print(e) + rest) == Run(Run(st, Print(e)), rest)
    ensures !Run(st, Print(e)).quoted
    ensures Run(st, Print(e)).tokens + Flush(Run(st, Print(e)).ident) == st.tokens + Toks(e)
    decreases |Toks(e)|, 2
  {
    RunAppend(st, Print(e), rest);
    RunPrint(st, e);
  }

  lemma RunInfixThen(st: ScanState, c: char, rest: string)
    requires !st.quoted && (c == '&' || c == '|')
    ensures Run(st, [' ', c, ' '] + rest) == Run(ScanState(st.tokens + Flush(st.ident) + [OpToken(c)], "", false), rest)
  {
    RunAppend(st, [' ', c, ' '], rest);
    RunInfix(st, c);
  }

  lemma RunClose(st: ScanState)
    requires !st.quoted
    ensures Run(st, [')']) == ScanState(st.tokens + Flush(st.ident) + [OpToken(')')], "", false)
  {
    StepOperator(st, ')');
    RunCons(st, ')', []);
    assert [')'] == [')'] + [];
  }

  /** `tokenize(print(e))`: START, the tokens of `e`, END. */
  lemma PrintTokens(e: Expr)
    requires Printable(e)
    ensures TokenList(Print(e)) == [StartToken] + Toks(e) + [EndToken]
  {
    RunPrint(Init, e);
  }

  /** Number of tokens of `e`. */
  function TokCount(e: Expr): nat {
    match e
    case Lit(_) => 1
    case Not(x) => 1 + TokCount(x)
    case And(l, r) => TokCount(l) + TokCount(r) + 3
    case Or(l, r) => TokCount(l) + TokCount(r) + 3
  }

  lemma {:induction false} ToksLength(e: Expr)
    ensures |Toks(e)| == TokCount(e)
  {
    match e
    case Lit(_) =>
    case Not(x) => ToksLength(x);
    case And(l, r) => ToksLength(l); ToksLength(r);
    case Or(l, r) => ToksLength(l); ToksLength(r);
  }

  /** The tokens of `e` lie in `ts` from position `i`, read piece by piece. */
  predicate LaidOut(ts: seq<Token>, i: nat, e: Expr)
    decreases e
  {
    match e
    case Lit(s) => i < |ts| && ts[i] == Token(s, Identifier)
    case Not(x) => i < |ts| && ts[i].kind == NotSym && LaidOut(ts, i + 1, x)
    case And(l, r) =>
      var j := i + 1 + TokCount(l);
      var k := j + 1 + TokCount(r);
      && k < |ts| && ts[i].kind == LParen && ts[j].kind == AndSym && ts[k].kind == RParen
      && LaidOut(ts, i + 1, l) && LaidOut(ts, j + 1, r)
    case Or(l, r) =>
      var j := i + 1 + TokCount(l);
      var k := j + 1 + TokCount(r);
      && k < |ts| && ts[i].kind == LParen && ts[j].kind == OrSym && ts[k].kind == RParen
      && LaidOut(ts, i + 1, l) && LaidOut(ts, j + 1, r)
  }

  /** Wherever the tokens of `e` occur in `ts`, they are laid out piece by piece. */
  lemma {:induction false} LaidOutAt(ts: seq<Token>, i: nat, e: Expr)
    requires i + TokCount(e) <= |ts| && ts[i..i + TokCount(e)] == Toks(e)
    ensures LaidOut(ts, i, e)
    decreases TokCount(e), 1
  {
    ToksLength(e);
    match e
    case Lit(s) =>
      assert ts[i] == ts[i..i + 1][0];
    case Not(x) =>
      ToksLength(x);
      SplitTwo(ts, i, OpToken('!'), Toks(x));
      LaidOutAt(ts, i + 1, x);
    case And(l, r) =>
      LaidOutAtAnd(ts, i, l, r);
    case Or(l, r) =>
      LaidOutAtOr(ts, i, l, r);
  }

  lemma {:induction false} LaidOutAtAnd(ts: seq<Token>, i: nat, l: Expr, r: Expr)
    requires i + TokCount(And(l, r)) <= |ts| && ts[i..i + TokCount(And(l, r))] == Toks(And(l, r))
    ensures LaidOut(ts, i, And(l, r))
    decreases TokCount(l) + TokCount(r) + 3, 0
  {
    SplitAnd(ts, i, l, r);
    LaidOutAt(ts, i + 1, l);
    LaidOutAt(ts, i + 2 + TokCount(l), r);
  }

  lemma {:induction false} LaidOutAtOr(ts: seq<Token>, i: nat, l: Expr, r: Expr)
    requires i + TokCount(Or(l, r)) <= |ts| && ts[i..i + TokCount(Or(l, r))] == Toks(Or(l, r))
    ensures LaidOut(ts, i, Or(l, r))
    decreases TokCount(l) + TokCount(r) + 3, 0
  {
    SplitOr(ts, i, l, r);
    LaidOutAt(ts, i + 1, l);
    LaidOutAt(ts, i + 2 + TokCount(l), r);
  }

  /** The tokens of `( l & r )`, cut into their five pieces. */
  lemma SplitAnd(ts: seq<Token>, i: nat, l: Expr, r: Expr)
    requires i + TokCount(And(l, r)) <= |ts| && ts[i..i + TokCount(And(l, r))] == Toks(And(l, r))
    ensures ts[i].kind == LParen && ts[i + 1 + TokCount(l)].kind == AndSym
    ensures ts[i + 2 + TokCount(l) + TokCount(r)].kind == RParen
    ensures ts[i + 1..i + 1 + TokCount(l)] == Toks(l)
    ensures ts[i + 2 + TokCount(l)..i + 2 + TokCount(l) + TokCount(r)] == Toks(r)
  {
    ToksLength(l);
    ToksLength(r);
    assert Toks(And(l, r)) == [OpToken('(')] + Toks(l) + [OpToken('&')] + Toks(r) + [OpToken(')')];
    SplitFive(ts, i, OpToken('('), Toks(l), OpToken('&'), Toks(r), OpToken(')'));
  }

  /** The tokens of `( l | r )`, cut into their five pieces. */
  lemma SplitOr(ts: seq<Token>, i: nat, l: Expr, r: Expr)
    requires i + TokCount(Or(l, r)) <= |ts| && ts[i..i + TokCount(Or(l, r))] == Toks(Or(l, r))
    ensures ts[i].kind == LParen && ts[i + 1 + TokCount(l)].kind == OrSym
    ensures ts[i + 2 + TokCount(l) + TokCount(r)].kind == RParen
    ensures ts[i + 1..i + 1 + TokCount(l)] == Toks(l)
    ensures ts[i + 2 + TokCount(l)..i + 2 + TokCount(l) + TokCount(r)] == Toks(r)
  {
    ToksLength(l);
    ToksLength(r);
    assert Toks(Or(l, r)) == [OpToken('(')] + Toks(l) + [OpToken('|')] + Toks(r) + [OpToken(')')];
    SplitFive(ts, i, OpToken('('), Toks(l), OpToken('|'), Toks(r), OpToken(')'));
  }

  /** Where `[a] + x` occurs in `ts`, its two pieces do. */
  lemma SplitTwo<T>(ts: seq<T>, i: nat, a: T, x: seq<T>)
    requires i + 1 + |x| <= |ts| && ts[i..i + 1 + |x|] == [a] + x
    ensures ts[i] == a && ts[i + 1..i + 1 + |x|] == x
  {
    assert ts[i] == ([a] + x)[0];
    assert ts[i + 1..i + 1 + |x|] == ([a] + x)[1..];
  }

  /** Where `[a] + x + [b] + y + [d]` occurs in `ts`, its five pieces do. */
  lemma SplitFive<T>(ts: seq<T>, i: nat, a: T, x: seq<T>, b: T, y: seq<T>, d: T)
    requires var s := [a] + x + [b] + y + [d];
      i + |s| <= |ts| && ts[i..i + |s|] == s
    ensures var j := i + 1 + |x|;
      var k := j + 1 + |y|;
      && k < |ts| && ts[i] == a && ts[j] == b && ts[k] == d
      && ts[i + 1..j] == x && ts[j + 1..k] == y
  {
    var s := [a] + x + [b] + y + [d];
    var j := i + 1 + |x|;
    var k := j + 1 + |y|;
    assert ts[i] == s[0];
    assert ts[j] == s[1 + |x|];
    assert ts[k] == s[2 + |x| + |y|];
    Subslice(ts, i, |s|, 1, 1 + |x|);
    assert s[1..1 + |x|] == x;
    Subslice(ts, i, |s|, 2 + |x|, 2 + |x| + |y|);
    assert s[2 + |x|..2 + |x| + |y|] == y;
  }

  /** A slice of a slice is a slice. */
  lemma Subslice<T>(ts: seq<T>, i: nat, n: nat, a: nat, b: nat)
    requires i + n <= |ts| && a <= b <= n
    ensures ts[i..i + n][a..b] == ts[i + a..i + b]
  {
    var u, v := ts[i..i + n][a..b], ts[i + a..i + b];
    forall t | 0 <= t < b - a
      ensures u[t] == v[t]
    {
      assert u[t] == ts[i + a + t];
    }
  }

  /** A negation read where `e` is laid out reads exactly `e`, whatever follows. */
  lemma {:induction false} ParseLaidOut(ts: seq<Token>, i: nat, e: Expr, e0: Expr)
    requires WellFormed(ts) && i + TokCount(e) < |ts| && LaidOut(ts, i, e)
    ensures NegationAt(ts, i, e0) == Parsed(true, e, i + TokCount(e))
    decreases TokCount(e), 1
  {
    match e
    case Lit(s) =>
    case Not(x) =>
      ParseLaidOut(ts, i + 1, x, e0);
    case And(l, r) =>
      ParseLaidOutAnd(ts, i, l, r, e0);
    case Or(l, r) =>
      ParseLaidOutOr(ts, i, l, r, e0);
  }

  lemma {:induction false} ParseLaidOutAnd(ts: seq<Token>, i: nat, l: Expr, r: Expr, e0: Expr)
    requires WellFormed(ts) && i + TokCount(And(l, r)) < |ts| && LaidOut(ts, i, And(l, r))
    ensures NegationAt(ts, i, e0) == Parsed(true, And(l, r), i + TokCount(And(l, r)))
    decreases TokCount(l) + TokCount(r) + 3, 0
  {
    var j := i + 1 + TokCount(l);
    var k := j + 1 + TokCount(r);
    ParseLaidOut(ts, i + 1, l, e0);
    ParseLaidOut(ts, j + 1, r, l);
    ConjunctionInParens(ts, i, j, k, l, r, e0);
  }

  lemma {:induction false} ParseLaidOutOr(ts: seq<Token>, i: nat, l: Expr, r: Expr, e0: Expr)
    requires WellFormed(ts) && i + TokCount(Or(l, r)) < |ts| && LaidOut(ts, i, Or(l, r))
    ensures NegationAt(ts, i, e0) == Parsed(true, Or(l, r), i + TokCount(Or(l, r)))
    decreases TokCount(l) + TokCount(r) + 3, 0
  {
    var j := i + 1 + TokCount(l);
    var k := j + 1 + TokCount(r);
    ParseLaidOut(ts, i + 1, l, e0);
    ParseLaidOut(ts, j + 1, r, l);
    DisjunctionInParens(ts, i, j, k, l, r, e0);
  }

  /** `( l & r )` where `l` and `r` each parse as one negation. */
  lemma ConjunctionInParens(ts: seq<Token>, i: nat, j: nat, k: nat, l: Expr, r: Expr, e0: Expr)
    requires WellFormed(ts) && i < j < k < |ts| - 1
    requires ts[i].kind == LParen && ts[j].kind == AndSym && ts[k].kind == RParen
    requires NegationAt(ts, i + 1, e0) == Parsed(true, l, j)
    requires NegationAt(ts, j + 1, l) == Parsed(true, r, k)
    ensures NegationAt(ts, i, e0) == Parsed(true, And(l, r), k + 1)
  {
    var e := And(l, r);
    assert ConjunctionTail(ts, k, e) == Parsed(true, e, k);
    assert ConjunctionTail(ts, j, l) == Parsed(true, e, k);
    assert DisjunctionTail(ts, k, e) == Parsed(true, e, k);
    assert DisjunctionAt(ts, i + 1, e0) == Parsed(true, e, k);
  }

  /** `( l | r )` where `l` and `r` each parse as one negation. */
  lemma DisjunctionInParens(ts: seq<Token>, i: nat, j: nat, k: nat, l: Expr, r: Expr, e0: Expr)
    requires WellFormed(ts) && i < j < k < |ts| - 1
    requires ts[i].kind == LParen && ts[j].kind == OrSym && ts[k].kind == RParen
    requires NegationAt(ts, i + 1, e0) == Parsed(true, l, j)
    requires NegationAt(ts, j + 1, l) == Parsed(true, r, k)
    ensures NegationAt(ts, i, e0) == Parsed(true, Or(l, r), k + 1)
  {
    var e := Or(l, r);
    assert ConjunctionAt(ts, i + 1, e0) == Parsed(true, l, j);
    assert ConjunctionAt(ts, j + 1, l) == Parsed(true, r, k);
    assert DisjunctionTail(ts, k, e) == Parsed(true, e, k);
    assert DisjunctionTail(ts, j, l) == Parsed(true, e, k);
    assert DisjunctionAt(ts, i + 1, e0) == Parsed(true, e, k);
  }

  /**
   * The round trip: parsing the printed form of a printable tree succeeds,
   * consumes every token and returns the tree.
   */
  lemma ParsePrint(e: Expr)
    requires Printable(e)
    ensures ParseQuery(Print(e)) == Parsed(true, e, TokCount(e) + 1)
  {
    PrintTokens(e);
    ToksLength(e);
    var ts := TokenList(Print(e));
    var n := TokCount(e);
    Enclosed(StartToken, Toks(e), EndToken);
    LaidOutAt(ts, 1, e);
    ParseLaidOut(ts, 1, e, Lit(""));
    assert ConjunctionAt(ts, 1, Lit("")) == Parsed(true, e, 1 + n);
    assert DisjunctionAt(ts, 1, Lit("")) == Parsed(true, e, 1 + n);
  }

  /** The pieces of `[a] + x + [b]`. */
  lemma Enclosed<T>(a: T, x: seq<T>, b: T)
    ensures var s := [a] + x + [b];
      |s| == |x| + 2 && s[0] == a && s[1..1 + |x|] == x && s[1 + |x|] == b
  {
    var s := [a] + x + [b];
    assert s[1..1 + |x|] == x;
  }

  /** Hence `print` is injective on printable trees. */
  lemma PrintInjective(a: Expr, b: Expr)
    requires Printable(a) && Printable(b) && Print(a) == Print(b)
    ensures a == b
  {
    ParsePrint(a);
    ParsePrint(b);
  }
}
