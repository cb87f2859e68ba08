/**
 * Worked examples of the tokenizer and parser of src/parser/booleanparser.cpp,
 * stated for arbitrary identifier words `x`, `y`, `z` (non-empty runs of
 * identifier characters), with two concrete instances at the end.
 */
module ParserExamples {
  import opened Expressions
  import opened Tokens
  import opened BooleanParser

  predicate Words3(x: string, y: string, z: string) {
    IsWord(x) && IsWord(y) && IsWord(z) && x != "" && y != "" && z != ""
  }

  function Id(w: string): Token {
    Token(w, Identifier)
  }

  // ----- tokenizer -----

  /**
   * An opening quote followed by a word puts the tokenizer in quote mode for
   * good: everything after it, minus the quotes, joins that word.
   */
  lemma QuotedFromStart(x: string, t: string)
    requires IsWord(x) && x != ""
    ensures Run(Init, ['"'] + x + t) == ScanState([StartToken], x + DropQuotes(t), true)
  {
    var q := ScanState([StartToken], "", true);
    StepQuote(Init);
    assert Step(Init, '"') == q;
    assert ['"'] + x + t == ['"'] + (x + t);
    RunCons(Init, '"', x + t);
    RunAppend(q, x, t);
    RunWord(q, x);
    assert "" + x == x;
    RunQuotedTail(q.(ident := x), t);
  }

  /** `"x y"`: a quoted phrase is one identifier, space included. */
  lemma QuotedPhrase(x: string, y: string)
    requires IsWord(x) && IsWord(y) && x != ""
    ensures TokenList("\"" + x + " " + y + "\"") == [StartToken, Id(x + " " + y), EndToken]
  {
    var t := " " + y + "\"";
    assert "\"" + x + " " + y + "\"" == ['"'] + x + t;
    QuotedFromStart(x, t);
    DropQuotesAppend(" " + y, "\"");
    DropQuotesNone(" " + y);
    assert DropQuotes(t) == " " + y;
    assert x + DropQuotes(t) == x + " " + y;
  }

  /**
   * `"x" | y`: the closing quote is dropped and quote mode stays on, so the
   * rest of the query joins the identifier.
   */
  lemma ClosingQuoteKeepsQuoteMode(x: string, y: string)
    requires IsWord(x) && IsWord(y) && x != ""
    ensures TokenList("\"" + x + "\" | " + y) == [StartToken, Id(x + " | " + y), EndToken]
  {
    var t := "\" | " + y;
    assert "\"" + x + "\" | " + y == ['"'] + x + t;
    QuotedFromStart(x, t);
    assert t == "\"" + (" | " + y);
    DropQuotesAppend("\"", " | " + y);
    DropQuotesNone(" | " + y);
    assert DropQuotes("\"") == "";
    assert DropQuotes(t) == " | " + y;
    assert x + DropQuotes(t) == x + " | " + y;
  }

  /** A word followed by ` & ` or ` | `, outside quotes with nothing pending. */
  lemma WordThenInfix(st: ScanState, w: string, c: char)
    requires !st.quoted && st.ident == "" && IsWord(w) && w != "" && (c == '&' || c == '|')
    ensures Run(st, w + [' ', c, ' ']) == ScanState(st.tokens + [Id(w), OpToken(c)], "", false)
  {
    RunAppend(st, w, [' ', c, ' ']);
    RunWord(st, w);
    assert "" + w == w;
    RunInfix(st.(ident := w), c);
  }

  /** The last word stays pending. */
  lemma LastWord(st: ScanState, w: string)
    requires st.ident == "" && IsWord(w)
    ensures Run(st, w) == st.(ident := w)
  {
    RunWord(st, w);
    assert "" + w == w;
  }

  /** `x o1 y o2 z` becomes the five tokens between the sentinels. */
  lemma InfixTokens(x: string, y: string, z: string, o1: char, o2: char)
    requires Words3(x, y, z) && (o1 == '&' || o1 == '|') && (o2 == '&' || o2 == '|')
    ensures TokenList(x + [' ', o1, ' '] + y + [' ', o2, ' '] + z)
      == [StartToken, Id(x), OpToken(o1), Id(y), OpToken(o2), Id(z), EndToken]
  {
    var a, b := x + [' ', o1, ' '], y + [' ', o2, ' '];
    var s := x + [' ', o1, ' '] + y + [' ', o2, ' '] + z;
    assert s == a + b + z;
    RunAppend(Init, a + b, z);
    RunAppend(Init, a, b);
    WordThenInfix(Init, x, o1);
    var st1 := ScanState([StartToken, Id(x), OpToken(o1)], "", false);
    WordThenInfix(st1, y, o2);
    var st2 := ScanState(st1.tokens + [Id(y), OpToken(o2)], "", false);
    assert Run(Init, a) == st1;
    assert Run(Init, a + b) == st2;
    LastWord(st2, z);
    assert Run(Init, s) == st2.(ident := z);
  }

  // ----- parser -----

  /** `x | y & z` parses as `x | (y & z)`: `&` binds tighter than `|`. */
  lemma AndBindsTighterThanOr(x: string, y: string, z: string)
    requires Words3(x, y, z)
    ensures ParseQuery(x + " | " + y + " & " + z) == Parsed(true, Or(Lit(x), And(Lit(y), Lit(z))), 6)
  {
    assert " | " == [' ', '|', ' '] && " & " == [' ', '&', ' '];
    InfixTokens(x, y, z, '|', '&');
    var ts := TokenList(x + " | " + y + " & " + z);
    var e0 := Lit("");
    assert ts[0].kind == StartSymbol && ts[1] == Id(x) && ts[2].kind == OrSym;
    assert ts[3] == Id(y) && ts[4].kind == AndSym && ts[5] == Id(z) && ts[6].kind == EndSymbol;
    assert NegationAt(ts, 1, e0) == Parsed(true, Lit(x), 2);
    assert ConjunctionAt(ts, 1, e0) == Parsed(true, Lit(x), 2);
    assert NegationAt(ts, 5, Lit(y)) == Parsed(true, Lit(z), 6);
    assert ConjunctionTail(ts, 4, Lit(y)) == Parsed(true, And(Lit(y), Lit(z)), 6);
    assert NegationAt(ts, 3, Lit(x)) == Parsed(true, Lit(y), 4);
    assert ConjunctionAt(ts, 3, Lit(x)) == Parsed(true, And(Lit(y), Lit(z)), 6);
    assert DisjunctionTail(ts, 2, Lit(x)) == Parsed(true, Or(Lit(x), And(Lit(y), Lit(z))), 6);
    assert DisjunctionAt(ts, 1, e0) == Parsed(true, Or(Lit(x), And(Lit(y), Lit(z))), 6);
  }

  /** `x | y | z` parses as `(x | y) | z`: disjunction is left-associative. */
  lemma OrIsLeftAssociative(x: string, y: string, z: string)
    requires Words3(x, y, z)
    ensures ParseQuery(x + " | " + y + " | " + z) == Parsed(true, Or(Or(Lit(x), Lit(y)), Lit(z)), 6)
  {
    assert " | " == [' ', '|', ' '];
    InfixTokens(x, y, z, '|', '|');
    var ts := TokenList(x + " | " + y + " | " + z);
    var e0 := Lit("");
    assert ts[0].kind == StartSymbol && ts[1] == Id(x) && ts[2].kind == OrSym;
    assert ts[3] == Id(y) && ts[4].kind == OrSym && ts[5] == Id(z) && ts[6].kind == EndSymbol;
    assert ConjunctionAt(ts, 1, e0) == Parsed(true, Lit(x), 2);
    assert ConjunctionAt(ts, 3, Lit(x)) == Parsed(true, Lit(y), 4);
    assert ConjunctionAt(ts, 5, Or(Lit(x), Lit(y))) == Parsed(true, Lit(z), 6);
    assert DisjunctionTail(ts, 4, Or(Lit(x), Lit(y))) == Parsed(true, Or(Or(Lit(x), Lit(y)), Lit(z)), 6);
    assert DisjunctionTail(ts, 2, Lit(x)) == Parsed(true, Or(Or(Lit(x), Lit(y)), Lit(z)), 6);
    assert DisjunctionAt(ts, 1, e0) == Parsed(true, Or(Or(Lit(x), Lit(y)), Lit(z)), 6);
  }

  /** `x & y & z` parses as `(x & y) & z`: conjunction is left-associative. */
  lemma AndIsLeftAssociative(x: string, y: string, z: string)
    requires Words3(x, y, z)
    ensures ParseQuery(x + " & " + y + " & " + z) == Parsed(true, And(And(Lit(x), Lit(y)), Lit(z)), 6)
  {
    assert " & " == [' ', '&', ' '];
    InfixTokens(x, y, z, '&', '&');
    var ts := TokenList(x + " & " + y + " & " + z);
    var e0 := Lit("");
    assert ts[0].kind == StartSymbol && ts[1] == Id(x) && ts[2].kind == AndSym;
    assert ts[3] == Id(y) && ts[4].kind == AndSym && ts[5] == Id(z) && ts[6].kind == EndSymbol;
    assert NegationAt(ts, 1, e0) == Parsed(true, Lit(x), 2);
    assert NegationAt(ts, 3, Lit(x)) == Parsed(true, Lit(y), 4);
    assert NegationAt(ts, 5, And(Lit(x), Lit(y))) == Parsed(true, Lit(z), 6);
    assert ConjunctionTail(ts, 4, And(Lit(x), Lit(y))) == Parsed(true, And(And(Lit(x), Lit(y)), Lit(z)), 6);
    assert ConjunctionTail(ts, 2, Lit(x)) == Parsed(true, And(And(Lit(x), Lit(y)), Lit(z)), 6);
    assert ConjunctionAt(ts, 1, e0) == Parsed(true, And(And(Lit(x), Lit(y)), Lit(z)), 6);
    assert DisjunctionAt(ts, 1, e0) == Parsed(true, And(And(Lit(x), Lit(y)), Lit(z)), 6);
  }

  /** `c x & y` for an operator or parenthesis `c`: the tokens `c`, `x`, `&`, `y`. */
  lemma PrefixedConjunctionTokens(c: char, x: string, y: string)
    requires IsSymbol(c) && IsWord(x) && IsWord(y) && x != "" && y != ""
    ensures TokenList([c] + x + " & " + y) == [StartToken, OpToken(c), Id(x), Token("&", AndSym), Id(y), EndToken]
  {
    var a := x + [' ', '&', ' '];
    assert [c] + x + " & " + y == [c] + (a + y);
    RunOperator(Init, c, a + y);
    var st1 := ScanState([StartToken, OpToken(c)], "", false);
    assert Init.(tokens := Init.tokens + [OpToken(c)]) == st1;
    RunAppend(st1, a, y);
    WordThenInfix(st1, x, '&');
    var st2 := ScanState(st1.tokens + [Id(x), OpToken('&')], "", false);
    assert Run(st1, a) == st2;
    LastWord(st2, y);
    assert Run(Init, [c] + x + " & " + y) == st2.(ident := y);
  }

  /** `!x & y` parses as `(!x) & y`: negation binds tighter than `&`. */
  lemma NotBindsTighterThanAnd(x: string, y: string)
    requires IsWord(x) && IsWord(y) && x != "" && y != ""
    ensures ParseQuery("!" + x + " & " + y) == Parsed(true, And(Not(Lit(x)), Lit(y)), 5)
  {
    assert "!" == ['!'];
    PrefixedConjunctionTokens('!', x, y);
    var ts := TokenList("!" + x + " & " + y);
    assert ts == [StartToken, Token("!", NotSym), Id(x), Token("&", AndSym), Id(y), EndToken];
    var e0 := Lit("");
    assert NegationAt(ts, 2, e0) == Parsed(true, Lit(x), 3);
    assert NegationAt(ts, 1, e0) == Parsed(true, Not(Lit(x)), 3);
    assert NegationAt(ts, 4, Not(Lit(x))) == Parsed(true, Lit(y), 5);
    assert ConjunctionTail(ts, 3, Not(Lit(x))) == Parsed(true, And(Not(Lit(x)), Lit(y)), 5);
    assert DisjunctionAt(ts, 1, e0) == Parsed(true, And(Not(Lit(x)), Lit(y)), 5);
  }

  /** `(x & y` is rejected: the closing parenthesis is missing. */
  lemma UnclosedParenthesisRejected(x: string, y: string)
    requires IsWord(x) && IsWord(y) && x != "" && y != ""
    ensures !ParseQuery("(" + x + " & " + y).ok
  {
    assert "(" == ['('];
    PrefixedConjunctionTokens('(', x, y);
    var ts := TokenList("(" + x + " & " + y);
    assert ts == [StartToken, Token("(", LParen), Id(x), Token("&", AndSym), Id(y), EndToken];
    var e0 := Lit("");
    assert NegationAt(ts, 2, e0) == Parsed(true, Lit(x), 3);
    assert NegationAt(ts, 4, Lit(x)) == Parsed(true, Lit(y), 5);
    assert ConjunctionTail(ts, 3, Lit(x)) == Parsed(true, And(Lit(x), Lit(y)), 5);
    assert ConjunctionAt(ts, 2, e0) == Parsed(true, And(Lit(x), Lit(y)), 5);
    assert DisjunctionAt(ts, 2, e0) == Parsed(true, And(Lit(x), Lit(y)), 5);
    assert !NegationAt(ts, 1, e0).ok;
    assert !ConjunctionAt(ts, 1, e0).ok;
    assert !DisjunctionAt(ts, 1, e0).ok;
  }

  /** `x &` is rejected: `&` needs a right operand. */
  lemma DanglingAndRejected(x: string)
    requires IsWord(x) && x != ""
    ensures !ParseQuery(x + " &").ok
  {
    var st1 := ScanState([StartToken], x, false);
    var st2 := ScanState([StartToken, Id(x)], "", false);
    assert " &" == [' '] + ['&'];
    RunAppend(Init, x, " &");
    LastWord(Init, x);
    StepSpace(st1);
    RunCons(st1, ' ', ['&']);
    RunOperator(st2, '&', []);
    assert Run(Init, x + " &") == ScanState([StartToken, Id(x), Token("&", AndSym)], "", false);
    var ts := TokenList(x + " &");
    assert ts == [StartToken, Id(x), Token("&", AndSym), EndToken];
    assert !NegationAt(ts, 3, Lit(x)).ok;
    assert !ConjunctionTail(ts, 2, Lit(x)).ok;
    assert !ConjunctionAt(ts, 1, Lit("")).ok;
    assert !DisjunctionAt(ts, 1, Lit("")).ok;
  }

  /** `x y` is rejected: two identifiers without an operator leave `y` unconsumed. */
  lemma JuxtapositionRejected(x: string, y: string)
    requires IsWord(x) && IsWord(y) && x != "" && y != ""
    ensures !ParseQuery(x + " " + y).ok
  {
    var st1 := ScanState([StartToken], x, false);
    var st2 := ScanState([StartToken, Id(x)], "", false);
    assert x + " " + y == x + ([' '] + y);
    RunAppend(Init, x, [' '] + y);
    LastWord(Init, x);
    StepSpace(st1);
    RunCons(st1, ' ', y);
    assert Flush(x) == [Id(x)];
    assert Step(st1, ' ') == st2;
    assert Run(Init, x + " " + y) == Run(st2, y);
    LastWord(st2, y);
    assert Run(Init, x + " " + y) == st2.(ident := y);
    var ts := TokenList(x + " " + y);
    assert ts == [StartToken, Id(x), Id(y), EndToken];
    assert NegationAt(ts, 1, Lit("")) == Parsed(true, Lit(x), 2);
    assert ConjunctionAt(ts, 1, Lit("")) == Parsed(true, Lit(x), 2);
    assert DisjunctionAt(ts, 1, Lit("")) == Parsed(true, Lit(x), 2);
  }

  /** The empty query is rejected: START is followed directly by END. */
  lemma EmptyRejected()
    ensures !ParseQuery("").ok
  {
    assert TokenList("") == [StartToken, EndToken];
  }

  /** `a | b & c` reads as `a | (b & c)`. */
  lemma PrecedenceInstance()
    ensures ParseQuery("a | b & c").expr == Or(Lit("a"), And(Lit("b"), Lit("c")))
  {
    assert IsWord("a") && IsWord("b") && IsWord("c");
    assert "a | b & c" == "a" + " | " + "b" + " & " + "c";
    AndBindsTighterThanOr("a", "b", "c");
  }

  /** `a | b | c` reads as `(a | b) | c`. */
  lemma AssociativityInstance()
    ensures ParseQuery("a | b | c").expr == Or(Or(Lit("a"), Lit("b")), Lit("c"))
  {
    assert IsWord("a") && IsWord("b") && IsWord("c");
    assert "a | b | c" == "a" + " | " + "b" + " | " + "c";
    OrIsLeftAssociative("a", "b", "c");
  }
}
