/**
 * Worked examples of the first revision of the tokenizer and parser
 * (src/booleanparser.cpp), stated for arbitrary letter words `x`, `y`, `z`,
 * next to what the current revision does with the same text.
 */
module LegacyExamples {
  import opened Expressions
  import opened Tokens
  import BooleanParser
  import ParserExamples
  import opened LegacyBooleanParser

  /** A non-empty run of letters. */
  predicate LetterWord(w: string) {
    w != "" && forall k | 0 <= k < |w| :: IsAlpha(w[k])
  }

  /** Letters join the pending word. */
  lemma {:induction false} RunLetters(st: ScanState, w: string)
    requires forall k | 0 <= k < |w| :: IsAlpha(w[k])
    ensures Run(st, w) == st.(ident := st.ident + w)
    decreases |w|
  {
    if w != "" {
      RunLetters(Step(st, w[0]), w[1..]);
      assert st.ident + [w[0]] + w[1..] == st.ident + w;
    } else {
      assert st.ident + w == st.ident;
    }
  }

  /** Inside quotes, once a word is pending, a non-letter is skipped. */
  lemma SkippedInQuotes(st: ScanState, c: char)
    requires st.quoted && st.ident != "" && !IsAlpha(c)
    ensures Step(st, c) == st
  {
  }

  /**
   * `"x y"`: the space inside the quotes is dropped, so the phrase becomes the
   * single word `xy` (the current revision keeps `x y`).
   */
  lemma QuotedWordsJoin(x: string, y: string)
    requires LetterWord(x) && LetterWord(y)
    ensures TokenList("\"" + x + " " + y + "\"") == [StartToken, Token(x + y, Identifier), EndToken]
  {
    var init := BooleanParser.Init;
    var q := init.(quoted := true);
    var s := "\"" + x + " " + y + "\"";
    assert s == ['"'] + x + [' '] + y + ['"'];
    RunAppend(init, ['"'] + x + [' '] + y, ['"']);
    RunAppend(init, ['"'] + x + [' '], y);
    RunAppend(init, ['"'] + x, [' ']);
    RunAppend(init, ['"'], x);
    assert Run(init, ['"']) == q;
    RunLetters(q, x);
    assert "" + x == x;
    var qx := q.(ident := x);
    assert Run(init, ['"'] + x) == qx;
    SkippedInQuotes(qx, ' ');
    assert Run(qx, [' ']) == qx;
    RunLetters(qx, y);
    var qxy := q.(ident := x + y);
    assert Run(init, ['"'] + x + [' '] + y) == qxy;
    SkippedInQuotes(qxy, '"');
    assert Run(qxy, ['"']) == qxy;
    assert Run(init, s) == qxy;
  }

  /** A character that is neither a letter nor an operator becomes an ILLEGAL token. */
  lemma DigitIsIllegal()
    ensures TokenList("1") == [StartToken, Token("1", Illegal), EndToken]
  {
    assert Run(BooleanParser.Init, "1") == Step(BooleanParser.Init, '1');
  }

  /** The empty query is rejected (the current `checkQuery` accepts it before parsing). */
  lemma EmptyRejected()
    ensures !ParseQuery("").ok
  {
    assert TokenList("") == [StartToken, EndToken];
  }

  /** A lone `!` fails, and the negation still wraps the untouched expression. */
  lemma DanglingNegation()
    ensures ParseQuery("!") == Parsed(false, Not(Lit("")), 2)
  {
    assert TokenList("!") == [StartToken, Token("!", NotSym), EndToken] by {
      assert Run(BooleanParser.Init, "!") == Step(BooleanParser.Init, '!');
    }
  }

  /** On `x | y & z` both tokenizers produce the same five tokens between the sentinels. */
  lemma InfixTokens(x: string, y: string, z: string)
    requires LetterWord(x) && LetterWord(y) && LetterWord(z)
    ensures TokenList(x + " | " + y + " & " + z) == BooleanParser.TokenList(x + " | " + y + " & " + z)
      == [StartToken, Token(x, Identifier), Token("|", OrSym), Token(y, Identifier), Token("&", AndSym), Token(z, Identifier), EndToken]
  {
    var s := x + " | " + y + " & " + z;
    assert s == x + [' ', '|', ' '] + y + [' ', '&', ' '] + z;
    assert forall c | c in s :: Plain(c);
    assert BooleanParser.IsWord(x) && BooleanParser.IsWord(y) && BooleanParser.IsWord(z);
    RunAgrees(BooleanParser.Init, s);
    ParserExamples.InfixTokens(x, y, z, '|', '&');
  }

  /**
   * A word followed by anything but END is not a sentence of this grammar:
   * parsing stops right after the word.
   */
  lemma StopsAfterWord(ts: seq<Token>, x: string)
    requires WellFormed(ts) && |ts| > 3
    requires ts[0] == StartToken && ts[1] == Token(x, Identifier) && ts[2].kind != EndSymbol
    ensures SentenceAt(ts, 0, Lit("")) == Parsed(false, Lit(x), 2)
  {
    assert ExpressionAt(ts, 1, Lit("")) == Parsed(true, Lit(x), 2);
  }

  /** `x | y & z` stops after `x`. */
  lemma OrThenAndStops(x: string, y: string, z: string)
    requires LetterWord(x) && LetterWord(y) && LetterWord(z)
    ensures ParseQuery(x + " | " + y + " & " + z) == Parsed(false, Lit(x), 2)
  {
    var ts := TokenList(x + " | " + y + " & " + z);
    assert ts[0] == StartToken && ts[1] == Token(x, Identifier) && ts[2].kind == OrSym && |ts| == 7 by {
      InfixTokens(x, y, z);
    }
    StopsAfterWord(ts, x);
  }

  /**
   * `x | y & z` without parentheses: the current revision reads it as
   * `x | (y & z)`, this one stops after `x` and rejects it.
   */
  lemma UnparenthesisedRejected(x: string, y: string, z: string)
    requires LetterWord(x) && LetterWord(y) && LetterWord(z)
    ensures BooleanParser.ParseQuery(x + " | " + y + " & " + z).ok
    ensures ParseQuery(x + " | " + y + " & " + z) == Parsed(false, Lit(x), 2)
  {
    assert BooleanParser.IsWord(x) && BooleanParser.IsWord(y) && BooleanParser.IsWord(z);
    ParserExamples.AndBindsTighterThanOr(x, y, z);
    OrThenAndStops(x, y, z);
  }

  /** The tokens of `x & y`. */
  lemma ConjunctionTokens(x: string, y: string)
    requires LetterWord(x) && LetterWord(y)
    ensures TokenList(x + " & " + y) == [StartToken, Token(x, Identifier), Token("&", AndSym), Token(y, Identifier), EndToken]
  {
    var a := x + [' ', '&', ' '];
    var s := x + " & " + y;
    assert s == a + y;
    assert forall c | c in s :: Plain(c);
    assert BooleanParser.IsWord(x) && BooleanParser.IsWord(y);
    RunAgrees(BooleanParser.Init, s);
    BooleanParser.RunAppend(BooleanParser.Init, a, y);
    ParserExamples.WordThenInfix(BooleanParser.Init, x, '&');
    var st1 := BooleanParser.ScanState([StartToken, Token(x, Identifier), Token("&", AndSym)], "", false);
    assert BooleanParser.Run(BooleanParser.Init, a) == st1;
    ParserExamples.LastWord(st1, y);
  }

  /** `x & y` without parentheses is rejected after `x`. */
  lemma ConjunctionRejected(x: string, y: string)
    requires LetterWord(x) && LetterWord(y)
    ensures ParseQuery(x + " & " + y) == Parsed(false, Lit(x), 2)
  {
    ConjunctionTokens(x, y);
    StopsAfterWord(TokenList(x + " & " + y), x);
  }

  /** Outside quotes, a word and ` & ` emit the word and `&` and leave nothing pending. */
  lemma WordAndThen(st: ScanState, w: string, rest: string)
    requires !st.quoted && st.ident == "" && LetterWord(w)
    ensures BooleanParser.Run(st, w + [' ', '&', ' '] + rest)
      == BooleanParser.Run(BooleanParser.ScanState(st.tokens + [Token(w, Identifier), Token("&", AndSym)], "", false), rest)
  {
    assert BooleanParser.IsWord(w);
    BooleanParser.RunAppend(st, w + [' ', '&', ' '], rest);
    ParserExamples.WordThenInfix(st, w, '&');
  }

  /** Outside quotes, a word and `)` emit the word and `)`. */
  lemma WordClose(st: ScanState, w: string)
    requires !st.quoted && st.ident == "" && LetterWord(w)
    ensures BooleanParser.Run(st, w + [')'])
      == BooleanParser.ScanState(st.tokens + [Token(w, Identifier), Token(")", RParen)], "", false)
  {
    assert BooleanParser.IsWord(w);
    BooleanParser.RunSnoc(st, w, ')');
    ParserExamples.LastWord(st, w);
  }

  /** The text `(x & y & z)` holds only characters `print` writes. */
  lemma ChainPlain(x: string, y: string, z: string)
    requires LetterWord(x) && LetterWord(y) && LetterWord(z)
    ensures forall ch | ch in "(" + x + " & " + y + " & " + z + ")" :: Plain(ch)
  {
    var s := "(" + x + " & " + y + " & " + z + ")";
    forall ch | ch in s ensures Plain(ch) {
      assert ch in "(" + x + " & " + y + " & " + z || ch == ')';
      assert ch in "(" + x + " & " + y + " & " || ch in z || ch == ')';
      assert ch in "(" + x + " & " + y || ch in " & " || ch in z || ch == ')';
      assert ch in "(" + x + " & " || ch in y || ch in " & " || ch in z || ch == ')';
    }
  }

  /** `(x & y & z)`, spelled out as the pieces the tokenizer reads. */
  lemma ChainText(x: string, y: string, z: string)
    ensures "(" + x + " & " + y + " & " + z + ")"
      == ['('] + (x + [' ', '&', ' '] + (y + [' ', '&', ' '] + (z + [')'])))
  {
    assert "(" == ['('] && " & " == [' ', '&', ' '] && ")" == [')'];
  }

  /** Outside quotes, `y & z)` emits its four tokens. */
  lemma TailScan(st: ScanState, y: string, z: string)
    requires !st.quoted && st.ident == "" && LetterWord(y) && LetterWord(z)
    ensures BooleanParser.Run(st, y + [' ', '&', ' '] + (z + [')']))
      == BooleanParser.ScanState(st.tokens + [Token(y, Identifier), Token("&", AndSym), Token(z, Identifier), Token(")", RParen)], "", false)
  {
    var st2 := BooleanParser.ScanState(st.tokens + [Token(y, Identifier), Token("&", AndSym)], "", false);
    WordAndThen(st, y, z + [')']);
    WordClose(st2, z);
    assert st2.tokens + [Token(z, Identifier), Token(")", RParen)]
      == st.tokens + [Token(y, Identifier), Token("&", AndSym), Token(z, Identifier), Token(")", RParen)];
  }

  /** The current tokenizer's loop on the pieces of `(x & y & z)`. */
  lemma ChainScan(x: string, y: string, z: string)
    requires LetterWord(x) && LetterWord(y) && LetterWord(z)
    ensures BooleanParser.Run(BooleanParser.Init, ['('] + (x + [' ', '&', ' '] + (y + [' ', '&', ' '] + (z + [')']))))
      == BooleanParser.ScanState([StartToken, Token("(", LParen), Token(x, Identifier), Token("&", AndSym),
           Token(y, Identifier), Token("&", AndSym), Token(z, Identifier), Token(")", RParen)], "", false)
  {
    var b := y + [' ', '&', ' '] + (z + [')']);
    var a := x + [' ', '&', ' '] + b;
    var init := BooleanParser.Init;
    var st1 := BooleanParser.ScanState([StartToken, Token("(", LParen)], "", false);
    var st2 := BooleanParser.ScanState(st1.tokens + [Token(x, Identifier), Token("&", AndSym)], "", false);
    BooleanParser.RunOperator(init, '(', a);
    assert init.(tokens := init.tokens + [BooleanParser.OpToken('(')]) == st1;
    WordAndThen(st1, x, b);
    TailScan(st2, y, z);
  }

  /** The tokens of `(x & y & z)`. */
  lemma ChainTokens(x: string, y: string, z: string)
    requires LetterWord(x) && LetterWord(y) && LetterWord(z)
    ensures TokenList("(" + x + " & " + y + " & " + z + ")")
      == [StartToken, Token("(", LParen), Token(x, Identifier), Token("&", AndSym), Token(y, Identifier),
          Token("&", AndSym), Token(z, Identifier), Token(")", RParen), EndToken]
  {
    ChainPlain(x, y, z);
    RunAgrees(BooleanParser.Init, "(" + x + " & " + y + " & " + z + ")");
    ChainText(x, y, z);
    ChainScan(x, y, z);
  }

  /**
   * `(x & y & z)`: a pair of parentheses holds exactly one operator, so the
   * parse fails at the second `&`, after reading `y` into the tree.
   */
  lemma ChainRejected(x: string, y: string, z: string)
    requires LetterWord(x) && LetterWord(y) && LetterWord(z)
    ensures ParseQuery("(" + x + " & " + y + " & " + z + ")") == Parsed(false, Lit(y), 5)
  {
    ChainTokens(x, y, z);
    var ts := TokenList("(" + x + " & " + y + " & " + z + ")");
    assert ExpressionAt(ts, 2, Lit("")) == Parsed(true, Lit(x), 3);
    assert ExpressionAt(ts, 4, Lit(x)) == Parsed(true, Lit(y), 5);
    assert BinaryAt(ts, 2, Lit("")) == Parsed(false, Lit(y), 5);
  }

  /** `(a & b)`, as `print` writes the conjunction, is accepted. */
  lemma ParenthesisedConjunction()
    ensures ParseQuery("(a & b)") == Parsed(true, And(Lit("a"), Lit("b")), 6)
  {
    var e := And(Lit("a"), Lit("b"));
    assert Print(e) == "(a & b)";
    ParsePrint(e);
  }
}
