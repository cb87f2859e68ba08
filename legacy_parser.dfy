/**
 * The first revision of the tokenizer and parser (src/booleanparser.cpp),
 * over `std::string`. Its grammar has no precedence: every binary operator
 * sits in its own pair of parentheses.
 *
 *   sentence   := [START] expression END
 *   expression := IDENTIFIER | '!' expression | '(' expression ('&' | '|') expression ')'
 *
 * Identifiers are runs of ASCII letters (`isalpha` in the C locale). The
 * source loops over bytes and the model over characters; the two agree on
 * ASCII text. The class `Parser` mirrors the source method by method and is
 * proved against the functions before it.
 */
module LegacyBooleanParser {
  import opened Expressions
  import opened Tokens
  import BooleanParser
  import RoundTrip

  type ScanState = BooleanParser.ScanState

  /** `isalpha` in the C locale. */
  predicate IsAlpha(c: char) {
    'a' <= c <= 'z' || 'A' <= c <= 'Z'
  }

  /**
   * One iteration of the character loop of `tokenize`. While a quote is open
   * and a word is pending, every non-letter is skipped, the closing quote
   * included, so quote mode then lasts to the end of the query.
   */
  function Step(st: ScanState, c: char): ScanState {
    if !IsAlpha(c) && st.ident != "" && st.quoted then st
    else
      var st := if !IsAlpha(c) && st.ident != "" then
        BooleanParser.ScanState(st.tokens + [Token(st.ident, Identifier)], "", st.quoted)
      else st;
      if IsAlpha(c) then st.(ident := st.ident + [c])
      else if c == ' ' then (if !st.quoted then st else st.(ident := st.ident + [c]))
      else if c == '"' then st.(quoted := !st.quoted)
      else if c == '(' then st.(tokens := st.tokens + [Token("(", LParen)])
      else if c == ')' then st.(tokens := st.tokens + [Token(")", RParen)])
      else if c == '!' then st.(tokens := st.tokens + [Token("!", NotSym)])
      else if c == '|' then st.(tokens := st.tokens + [Token("|", OrSym)])
      else if c == '&' then st.(tokens := st.tokens + [Token("&", AndSym)])
      else st.(tokens := st.tokens + [Token([c], Illegal)])
  }

  /** The character loop over `s`, from state `st`. */
  function Run(st: ScanState, s: string): ScanState
    decreases |s|
  {
    if s == "" then st else Run(Step(st, s[0]), s[1..])
  }

  /** The tokens `tokenize` appends: START, the scanned tokens, the last pending word, END. */
  function TokenList(formula: string): (ts: seq<Token>)
    ensures WellFormed(ts)
  {
    var st := Run(BooleanParser.Init, formula);
    st.tokens + Flush(st.ident) + [EndToken]
  }

  lemma {:induction false} RunAppend(st: ScanState, a: string, b: string)
    ensures Run(st, a + b) == Run(Run(st, a), b)
    decreases |a|
  {
    if a != "" {
      assert (a + b)[0] == a[0] && (a + b)[1..] == a[1..] + b;
      RunAppend(Step(st, a[0]), a[1..], b);
    } else {
      assert a + b == b;
    }
  }

  lemma RunSnoc(st: ScanState, s: string, c: char)
    ensures Run(st, s + [c]) == Step(Run(st, s), c)
  {
    RunAppend(st, s, [c]);
  }

  // ----- the grammar, as functions over a token list -----

  /**
   * `expression`: the outcome, the value of the `Expression&` out-parameter
   * afterwards and the cursor afterwards. A negation wraps whatever its
   * operand left, even on failure; a failing parenthesised operand leaves the
   * tree of the last operand it parsed.
   */
  function ExpressionAt(ts: seq<Token>, i: nat, e0: Expr): (r: Parsed)
    requires WellFormed(ts) && i < |ts|
    ensures i <= r.pos < |ts| && (r.ok ==> i < r.pos)
    decreases |ts| - i, 1
  {
    if ts[i].kind == Identifier then Parsed(true, Lit(ts[i].text), i + 1)
    else if ts[i].kind == NotSym then
      var r := ExpressionAt(ts, i + 1, e0);
      Parsed(r.ok, Not(r.expr), r.pos)
    else if ts[i].kind == LParen then BinaryAt(ts, i + 1, e0)
    else Parsed(false, e0, i)
  }

  /**
   * The parenthesised branch of `expression`, after the `(` at `i - 1`: an
   * operand, `&` or `|`, an operand parsed from the first one's tree, `)`.
   */
  function BinaryAt(ts: seq<Token>, i: nat, e0: Expr): (r: Parsed)
    requires WellFormed(ts) && i < |ts|
    ensures i <= r.pos < |ts| && (r.ok ==> i < r.pos)
    decreases |ts| - i, 2
  {
    var lhs := ExpressionAt(ts, i, e0);
    if !lhs.ok then lhs
    else if ts[lhs.pos].kind != AndSym && ts[lhs.pos].kind != OrSym then Parsed(false, lhs.expr, lhs.pos)
    else
      var isAnd := ts[lhs.pos].kind == AndSym;
      var rhs := ExpressionAt(ts, lhs.pos + 1, lhs.expr);
      if !rhs.ok then rhs
      else if ts[rhs.pos].kind != RParen then Parsed(false, rhs.expr, rhs.pos)
      else Parsed(true, if isAnd then And(lhs.expr, rhs.expr) else Or(lhs.expr, rhs.expr), rhs.pos + 1)
  }

  /** The three ways the parenthesised branch can end once both operands are parsed. */
  lemma BinaryAtRight(ts: seq<Token>, i: nat, e0: Expr, left: Parsed, right: Parsed)
    requires WellFormed(ts) && i < |ts|
    requires left == ExpressionAt(ts, i, e0) && left.ok
    requires ts[left.pos].kind == AndSym || ts[left.pos].kind == OrSym
    requires right == ExpressionAt(ts, left.pos + 1, left.expr)
    ensures !right.ok ==> BinaryAt(ts, i, e0) == right
    ensures right.ok && ts[right.pos].kind != RParen ==> BinaryAt(ts, i, e0) == Parsed(false, right.expr, right.pos)
    ensures right.ok && ts[right.pos].kind == RParen ==>
      BinaryAt(ts, i, e0) == Parsed(true, if ts[left.pos].kind == AndSym then And(left.expr, right.expr) else Or(left.expr, right.expr), right.pos + 1)
  {
    assert ExpressionAt(ts, left.pos + 1, left.expr) == right;
    if right.ok && ts[right.pos].kind == RParen {
      var isAnd := ts[left.pos].kind == AndSym;
      assert BinaryAt(ts, i, e0) == Parsed(true, if isAnd then And(left.expr, right.expr) else Or(left.expr, right.expr), right.pos + 1);
    }
  }

  /** `sentence`: skip START if it is there, parse one expression, require END. */
  function SentenceAt(ts: seq<Token>, i: nat, e0: Expr): (r: Parsed)
    requires WellFormed(ts) && i < |ts|
    ensures r.pos < |ts|
    ensures r.ok ==> ts[r.pos].kind == EndSymbol
  {
    var j := if ts[i].kind == StartSymbol then NextIndex(ts, i) else i;
    var r := ExpressionAt(ts, j, e0);
    if !r.ok then r
    else if ts[r.pos].kind == EndSymbol then Parsed(true, r.expr, NextIndex(ts, r.pos))
    else Parsed(false, r.expr, r.pos)
  }

  /** What a fresh parser computes for `formula`, starting from an empty expression. */
  function ParseQuery(formula: string): Parsed {
    SentenceAt(TokenList(formula), 0, Lit(""))
  }

  /**
   * `BooleanParser` of the first revision: the token list and the cursor
   * `m_Index`/`m_Sym`.
   */
  class Parser {
    var index: nat
    var sym: TokenKind
    var tokens: seq<Token>

    /** The cursor stays on a token of a list closed by END, and `m_Sym` is its kind. */
    ghost predicate Valid()
      reads this
    {
      WellFormed(tokens) && index < |tokens| && sym == tokens[index].kind
    }

    constructor ()
      ensures index == 0 && sym == StartSymbol && tokens == []
    {
      index := 0;
      sym := StartSymbol;
      tokens := [];
    }

    /**
     * `tokenize`: append the tokens of `formula` to the token list, without
     * clearing it. The tokens are collected in `scanned` and appended in one
     * step, which leaves the same list.
     */
    method Tokenize(formula: string)
      modifies this`tokens
      ensures tokens == old(tokens) + TokenList(formula)
    {
      var scanned := [StartToken];
      var ident: string := "";
      var quoted := false;
      for i := 0 to |formula|
        invariant BooleanParser.ScanState(scanned, ident, quoted) == Run(BooleanParser.Init, formula[..i])
        invariant tokens == old(tokens)
      {
        var c := formula[i];
        assert formula[..i + 1] == formula[..i] + [c];
        RunSnoc(BooleanParser.Init, formula[..i], c);
        if !IsAlpha(c) && ident != "" {
          if quoted {
            continue;
          }
          scanned := scanned + [Token(ident, Identifier)];
          ident := "";
        }
        if IsAlpha(c) {
          ident := ident + [c];
        } else if c == ' ' {
          if quoted {
            ident := ident + [c];
          }
        } else if c == '"' {
          quoted := !quoted;
        } else if c == '(' {
          scanned := scanned + [Token("(", LParen)];
        } else if c == ')' {
          scanned := scanned + [Token(")", RParen)];
        } else if c == '!' {
          scanned := scanned + [Token("!", NotSym)];
        } else if c == '|' {
          scanned := scanned + [Token("|", OrSym)];
        } else if c == '&' {
          scanned := scanned + [Token("&", AndSym)];
        } else {
          scanned := scanned + [Token([c], Illegal)];
        }
      }
      assert formula[..|formula|] == formula;
      ghost var pending := ident;
      if ident != "" {
        scanned := scanned + [Token(ident, Identifier)];
      }
      assert scanned + [EndToken] == Run(BooleanParser.Init, formula).tokens + Flush(pending) + [EndToken];
      tokens := tokens + (scanned + [EndToken]);
    }

    /** `advance`: never moves past END. */
    method Advance()
      requires Valid()
      modifies this`index, this`sym
      ensures Valid()
      ensures index == NextIndex(tokens, old(index))
    {
      if sym != EndSymbol {
        index := index + 1;
        sym := tokens[index].kind;
      }
    }

    /** `expect`: consume the current token only when it has the wanted kind. */
    method Expect(kind: TokenKind) returns (matched: bool)
      requires Valid()
      modifies this`index, this`sym
      ensures Valid()
      ensures matched == (old(sym) == kind)
      ensures index == if matched then NextIndex(tokens, old(index)) else old(index)
    {
      if sym == kind {
        Advance();
        return true;
      }
      return false;
    }

    method Expression(e0: Expr) returns (ok: bool, e: Expr)
      requires Valid()
      modifies this`index, this`sym
      ensures Valid()
      ensures Parsed(ok, e, index) == ExpressionAt(tokens, old(index), e0)
      decreases |tokens| - index, 1
    {
      var m := Expect(Identifier);
      if m {
        return true, Lit(tokens[index - 1].text);
      }
      m := Expect(NotSym);
      if m {
        ok, e := Expression(e0);
        e := Not(e);
        return;
      }
      m := Expect(LParen);
      if m {
        ok, e := Binary(e0);
        return;
      }
      return false, e0;
    }

    /** The parenthesised branch of `expression`, entered after its `(`. */
    method Binary(e0: Expr) returns (ok: bool, e: Expr)
      requires Valid()
      modifies this`index, this`sym
      ensures Valid()
      ensures Parsed(ok, e, index) == BinaryAt(tokens, old(index), e0)
      decreases |tokens| - index, 2
    {
      ghost var ts, i := tokens, index;
      var lhsOk, lhs := Expression(e0);
      ghost var left := ExpressionAt(ts, i, e0);
      assert left == Parsed(lhsOk, lhs, index);
      if !lhsOk {
        assert BinaryAt(ts, i, e0) == left;
        return false, lhs;
      }
      var connective := Expect(AndSym);
      if !connective {
        connective := Expect(OrSym);
      }
      if !connective {
        assert BinaryAt(ts, i, e0) == Parsed(false, lhs, left.pos);
        return false, lhs;
      }
      var isAnd := tokens[index - 1].kind == AndSym;
      assert index == left.pos + 1 && isAnd == (ts[left.pos].kind == AndSym);
      var rhsOk, rhs := Expression(lhs);
      ghost var right := ExpressionAt(ts, left.pos + 1, lhs);
      assert right == Parsed(rhsOk, rhs, index);
      BinaryAtRight(ts, i, e0, left, right);
      if !rhsOk {
        return false, rhs;
      }
      var closed := Expect(RParen);
      if !closed {
        return false, rhs;
      }
      assert ts[right.pos].kind == RParen && index == right.pos + 1;
      e := if isAnd then And(lhs, rhs) else Or(lhs, rhs);
      assert e == if ts[left.pos].kind == AndSym then And(left.expr, right.expr) else Or(left.expr, right.expr);
      return true, e;
    }

    method Sentence(e0: Expr) returns (ok: bool, e: Expr)
      requires Valid()
      modifies this`index, this`sym
      ensures Valid()
      ensures Parsed(ok, e, index) == SentenceAt(tokens, old(index), e0)
    {
      var _ := Expect(StartSymbol);
      ok, e := Expression(e0);
      if !ok {
        return;
      }
      ok := Expect(EndSymbol);
    }

    /** `parse` on a fresh parser: tokenize, then `sentence` from the caller's expression. */
    method Parse(formula: string, e0: Expr) returns (ok: bool, expr: Expr)
      requires index == 0 && sym == StartSymbol && tokens == []
      modifies this
      ensures tokens == TokenList(formula) && Valid()
      ensures Parsed(ok, expr, index) == SentenceAt(TokenList(formula), 0, e0)
    {
      Tokenize(formula);
      assert tokens == TokenList(formula);
      assert tokens[0] == StartToken by {
        RunKeepsTokens(BooleanParser.Init, formula);
      }
      ok, expr := Sentence(e0);
    }
  }

  /** The loop only appends tokens. */
  lemma {:induction false} RunKeepsTokens(st: ScanState, s: string)
    ensures st.tokens <= Run(st, s).tokens
    decreases |s|
  {
    if s != "" {
      RunKeepsTokens(Step(st, s[0]), s[1..]);
    }
  }

  // ----- printing and parsing back -----

  /** Every literal is a non-empty run of letters. */
  predicate LetterWords(e: Expr) {
    match e
    case Lit(s) => s != "" && forall k | 0 <= k < |s| :: IsAlpha(s[k])
    case Not(x) => LetterWords(x)
    case And(l, r) => LetterWords(l) && LetterWords(r)
    case Or(l, r) => LetterWords(l) && LetterWords(r)
  }

  /** The characters `print` writes for such a tree. */
  predicate Plain(c: char) {
    IsAlpha(c) || c == ' ' || c == '(' || c == ')' || c == '!' || c == '&' || c == '|'
  }

  lemma {:induction false} PrintPlain(e: Expr)
    requires LetterWords(e)
    ensures RoundTrip.Printable(e)
    ensures forall c | c in Print(e) :: Plain(c)
  {
    match e
    case Lit(s) =>
      assert BooleanParser.IsWord(s);
    case Not(x) => PrintPlain(x);
    case And(l, r) => PrintPlain(l); PrintPlain(r);
    case Or(l, r) => PrintPlain(l); PrintPlain(r);
  }

  /** Outside quotes and on plain characters both tokenizers take the same step. */
  lemma StepAgrees(st: ScanState, c: char)
    requires !st.quoted && Plain(c)
    ensures Step(st, c) == BooleanParser.Step(st, c) && !Step(st, c).quoted
  {
  }

  lemma {:induction false} RunAgrees(st: ScanState, s: string)
    requires !st.quoted && forall c | c in s :: Plain(c)
    ensures Run(st, s) == BooleanParser.Run(st, s)
    decreases |s|
  {
    if s != "" {
      StepAgrees(st, s[0]);
      RunAgrees(Step(st, s[0]), s[1..]);
    }
  }

  /** A tree laid out as the printer lays it out parses back to itself. */
  lemma {:induction false} ParseLaidOut(ts: seq<Token>, i: nat, e: Expr, e0: Expr)
    requires WellFormed(ts) && i + RoundTrip.TokCount(e) < |ts| && RoundTrip.LaidOut(ts, i, e)
    ensures ExpressionAt(ts, i, e0) == Parsed(true, e, i + RoundTrip.TokCount(e))
    decreases RoundTrip.TokCount(e), 1
  {
    match e
    case Lit(_) =>
    case Not(x) =>
      ParseLaidOut(ts, i + 1, x, e0);
    case And(_, _) =>
      ParseLaidOutBinary(ts, i, e, e0);
    case Or(_, _) =>
      ParseLaidOutBinary(ts, i, e, e0);
  }

  lemma {:induction false} ParseLaidOutBinary(ts: seq<Token>, i: nat, e: Expr, e0: Expr)
    requires e.And? || e.Or?
    requires WellFormed(ts) && i + RoundTrip.TokCount(e) < |ts| && RoundTrip.LaidOut(ts, i, e)
    ensures ExpressionAt(ts, i, e0) == Parsed(true, e, i + RoundTrip.TokCount(e))
    decreases RoundTrip.TokCount(e), 0
  {
    var l, r := e.lhs, e.rhs;
    var j := i + 1 + RoundTrip.TokCount(l);
    var k := j + 1 + RoundTrip.TokCount(r);
    ParseLaidOut(ts, i + 1, l, e0);
    ParseLaidOut(ts, j + 1, r, l);
    InParens(ts, i, j, k, l, r, e0);
  }

  /** One parenthesised binary node, given what its two operands parse to. */
  lemma InParens(ts: seq<Token>, i: nat, j: nat, k: nat, l: Expr, r: Expr, e0: Expr)
    requires WellFormed(ts) && i < j < k < |ts| - 1
    requires ts[i].kind == LParen && ts[k].kind == RParen && (ts[j].kind == AndSym || ts[j].kind == OrSym)
    requires ExpressionAt(ts, i + 1, e0) == Parsed(true, l, j)
    requires ExpressionAt(ts, j + 1, l) == Parsed(true, r, k)
    ensures ExpressionAt(ts, i, e0) == Parsed(true, if ts[j].kind == AndSym then And(l, r) else Or(l, r), k + 1)
  {
    assert BinaryAt(ts, i + 1, e0) == Parsed(true, if ts[j].kind == AndSym then And(l, r) else Or(l, r), k + 1);
  }

  /** Both tokenizers give the printed text of a tree of letter words the tree's token layout. */
  lemma PrintTokens(e: Expr)
    requires LetterWords(e)
    ensures TokenList(Print(e)) == [StartToken] + RoundTrip.Toks(e) + [EndToken]
  {
    PrintPlain(e);
    RunAgrees(BooleanParser.Init, Print(e));
    RoundTrip.PrintTokens(e);
  }

  /**
   * Round trip: this revision reads back every tree `print` of
   * src/expression.cpp writes, when the words are runs of letters.
   */
  lemma ParsePrint(e: Expr)
    requires LetterWords(e)
    ensures ParseQuery(Print(e)) == Parsed(true, e, RoundTrip.TokCount(e) + 1)
  {
    var ts := TokenList(Print(e));
    PrintTokens(e);
    RoundTrip.ToksLength(e);
    RoundTrip.Enclosed(StartToken, RoundTrip.Toks(e), EndToken);
    RoundTrip.LaidOutAt(ts, 1, e);
    ParseLaidOut(ts, 1, e, Lit(""));
  }
}
