/**
 * The hand-written tokenizer and LL(1) recursive-descent parser of the query
 * language (src/parser/booleanparser.cpp):
 *
 *   sentence    := START disjunction END
 *   disjunction := conjunction ( '|' conjunction )*
 *   conjunction := negation ( '&' negation )*
 *   negation    := IDENTIFIER | '!' negation | '(' disjunction ')'
 *
 * The class `Parser` holds the token list and the cursor fields and mirrors the
 * source method by method; the functions before it are the specification its
 * methods are proved against.
 */
module BooleanParser {
  import opened Expressions
  import opened Tokens

  predicate IsPunctuation(c: char) {
    c == '(' || c == ')' || c == '"' || c == ' '
  }

  predicate IsOperator(c: char) {
    c == '!' || c == '&' || c == '|'
  }

  /** Identifier characters: everything except `( ) " space ! & |`. */
  predicate IsValidQueryChar(c: char) {
    !IsPunctuation(c) && !IsOperator(c)
  }

  /**
   * Tokenizer state between two characters: the tokens so far, the pending
   * identifier and whether a quote is open (`symbol_stack` only ever holds at
   * most one `"`, so it is a flag).
   */
  datatype ScanState = ScanState(tokens: seq<Token>, ident: string, quoted: bool)

  /** One iteration of the character loop of `tokenize`. */
  function Step(st: ScanState, c: char): ScanState {
    if !IsValidQueryChar(c) && st.ident != "" && st.quoted then
      // inside quotes everything but the quote itself joins the identifier
      st.(ident := if c != '"' then st.ident + [c] else st.ident)
    else
      var st := if !IsValidQueryChar(c) && st.ident != "" then
        ScanState(st.tokens + [Token(st.ident, Identifier)], "", st.quoted)
      else st;
      if IsValidQueryChar(c) then st.(ident := st.ident + [c])
      else if c == ' ' then (if !st.quoted then st else st.(ident := st.ident + [c]))
      else if c == '"' then st.(quoted := !st.quoted)
      else if c == '(' then st.(tokens := st.tokens + [Token("(", LParen)])
      else if c == ')' then st.(tokens := st.tokens + [Token(")", RParen)])
      else if c == '!' then st.(tokens := st.tokens + [Token("!", NotSym)])
      else if c == '|' then st.(tokens := st.tokens + [Token("|", OrSym)])
      else if c == '&' then st.(tokens := st.tokens + [Token("&", AndSym)])
      else st.(tokens := st.tokens + [Token([c], Illegal)])
  }

  /** The character loop over `s`, from state `st`. */
  function Run(st: ScanState, s: string): ScanState
    decreases |s|
  {
    if s == "" then st else Run(Step(st, s[0]), s[1..])
  }

  const Init: ScanState := ScanState([StartToken], "", false)

  /** `tokenize`: START, the scanned tokens, the last pending identifier, END. */
  function TokenList(formula: string): seq<Token> {
    var st := Run(Init, formula);
    st.tokens + Flush(st.ident) + [EndToken]
  }

  lemma {:induction false} RunAppend(st: ScanState, a: string, b: string)
    ensures Run(st, a + b) == Run(Run(st, a), b)
    decreases |a|
  {
    if a != "" {
      assert (a + b)[0] == a[0] && (a + b)[1..] == a[1..] + b;
      RunAppend(Step(st, a[0]), a[1..], b);
    } else {
      assert a + b == b;
    }
  }

  lemma RunSnoc(st: ScanState, s: string, c: char)
    ensures Run(st, s + [c]) == Step(Run(st, s), c)
  {
    RunAppend(st, s, [c]);
  }

  lemma RunCons(st: ScanState, c: char, rest: string)
    ensures Run(st, [c] + rest) == Run(Step(st, c), rest)
  {
    assert ([c] + rest)[0] == c && ([c] + rest)[1..] == rest;
  }

  // ----- what one character does -----

  /** A run of identifier characters. */
  predicate IsWord(w: string) {
    forall k | 0 <= k < |w| :: IsValidQueryChar(w[k])
  }

  /** A character that is a token on its own outside quotes. */
  predicate IsSymbol(c: char) {
    c == '(' || c == ')' || IsOperator(c)
  }

  /** The token an operator or parenthesis character stands for. */
  function OpToken(c: char): (t: Token)
    requires IsSymbol(c)
    ensures t.text == [c] && t.kind != Identifier
  {
    match c
    case '(' => Token("(", LParen)
    case ')' => Token(")", RParen)
    case '!' => Token("!", NotSym)
    case '|' => Token("|", OrSym)
    case '&' => Token("&", AndSym)
  }

  /** An identifier character extends the pending identifier, inside quotes or not. */
  lemma StepWordChar(st: ScanState, c: char)
    requires IsValidQueryChar(c)
    ensures Step(st, c) == st.(ident := st.ident + [c])
  {
  }

  /**
   * Outside quotes a space flushes the pending identifier and emits nothing
   * else; inside quotes it joins the identifier.
   */
  lemma StepSpace(st: ScanState)
    ensures !st.quoted ==> Step(st, ' ') == ScanState(st.tokens + Flush(st.ident), "", false)
    ensures st.quoted ==> Step(st, ' ') == st.(ident := st.ident + " ")
  {
  }

  /**
   * An operator or parenthesis flushes the identifier and emits its token,
   * except inside quotes after the identifier has begun.
   */
  lemma StepOperator(st: ScanState, c: char)
    requires IsSymbol(c)
    ensures !st.quoted || st.ident == "" ==>
      Step(st, c) == ScanState(st.tokens + Flush(st.ident) + [OpToken(c)], "", st.quoted)
    ensures st.quoted && st.ident != "" ==> Step(st, c) == st.(ident := st.ident + [c])
  {
  }

  /**
   * A quote flushes the identifier and toggles quote mode, except once quoted
   * text has begun: then it is dropped and quote mode stays on.
   */
  lemma StepQuote(st: ScanState)
    ensures st.quoted && st.ident != "" ==> Step(st, '"') == st
    ensures !(st.quoted && st.ident != "") ==>
      Step(st, '"') == ScanState(st.tokens + Flush(st.ident), "", !st.quoted)
  {
  }

  /** `s` without its `"` characters. */
  function DropQuotes(s: string): (r: string)
    ensures |r| <= |s| && '"' !in r
    ensures forall c | c in r :: c in s
  {
    if s == "" then ""
    else if s[0] == '"' then DropQuotes(s[1..])
    else [s[0]] + DropQuotes(s[1..])
  }

  lemma {:induction false} DropQuotesAppend(a: string, b: string)
    ensures DropQuotes(a + b) == DropQuotes(a) + DropQuotes(b)
    decreases |a|
  {
    if a != "" {
      assert (a + b)[0] == a[0] && (a + b)[1..] == a[1..] + b;
      DropQuotesAppend(a[1..], b);
    } else {
      assert a + b == b;
    }
  }

  lemma {:induction false} DropQuotesNone(s: string)
    requires '"' !in s
    ensures DropQuotes(s) == s
    decreases |s|
  {
    if s != "" {
      assert s[0] in s;
      assert forall c | c in s[1..] :: c in s;
      DropQuotesNone(s[1..]);
    }
  }

  /**
   * Quote mode never ends once quoted text has begun: the rest of the query
   * joins that identifier, minus its quote characters, and no token is emitted.
   */
  lemma {:induction false} RunQuotedTail(st: ScanState, s: string)
    requires st.quoted && st.ident != ""
    ensures Run(st, s) == st.(ident := st.ident + DropQuotes(s))
    decreases |s|
  {
    if s == "" {
      assert st.ident + "" == st.ident;
    } else {
      var st' := Step(st, s[0]);
      assert st' == st.(ident := st.ident + DropQuotes([s[0]]));
      RunQuotedTail(st', s[1..]);
      DropQuotesAppend([s[0]], s[1..]);
      assert [s[0]] + s[1..] == s;
      assert st.ident + DropQuotes([s[0]]) + DropQuotes(s[1..]) == st.ident + DropQuotes(s);
    }
  }

  /** A word extends the pending identifier and emits nothing. */
  lemma {:induction false} RunWord(st: ScanState, w: string)
    requires IsWord(w)
    ensures Run(st, w) == st.(ident := st.ident + w)
    decreases |w|
  {
    if w != "" {
      StepWordChar(st, w[0]);
      var st' := st.(ident := st.ident + [w[0]]);
      RunWord(st', w[1..]);
      assert st.ident + [w[0]] + w[1..] == st.ident + w;
    } else {
      assert st.ident + w == st.ident;
    }
  }

  /** An operator or parenthesis outside quotes, with nothing pending, emits its token. */
  lemma RunOperator(st: ScanState, c: char, rest: string)
    requires !st.quoted && st.ident == "" && IsSymbol(c)
    ensures Run(st, [c] + rest) == Run(st.(tokens := st.tokens + [OpToken(c)]), rest)
  {
    StepOperator(st, c);
    RunCons(st, c, rest);
  }

  /** ` & ` or ` | ` outside quotes: flush the identifier, then the operator token. */
  lemma RunInfix(st: ScanState, c: char)
    requires !st.quoted && (c == '&' || c == '|')
    ensures Run(st, [' ', c, ' ']) == ScanState(st.tokens + Flush(st.ident) + [OpToken(c)], "", false)
  {
    var st1 := ScanState(st.tokens + Flush(st.ident), "", false);
    StepSpace(st);
    StepOperator(st1, c);
    var st2 := Step(st1, c);
    assert st1.tokens + Flush(st1.ident) == st1.tokens;
    StepSpace(st2);
    assert [' ', c, ' '] == [' '] + ([c] + [' ']);
    RunCons(st, ' ', [c] + [' ']);
    RunCons(st1, c, [' ']);
    RunCons(st2, ' ', []);
  }

  // ----- the grammar, as functions over a token list -----

  function NegationAt(ts: seq<Token>, i: nat, e0: Expr): (r: Parsed)
    requires WellFormed(ts) && i < |ts|
    ensures i <= r.pos < |ts| && (r.ok ==> i < r.pos)
    decreases |ts| - i, 0
  {
    if ts[i].kind == Identifier then Parsed(true, Lit(ts[i].text), i + 1)
    else if ts[i].kind == NotSym then
      var r := NegationAt(ts, i + 1, e0);
      if r.ok then Parsed(true, Not(r.expr), r.pos) else r
    else if ts[i].kind == LParen then
      var r := DisjunctionAt(ts, i + 1, e0);
      if !r.ok then r
      else if ts[r.pos].kind == RParen then Parsed(true, r.expr, NextIndex(ts, r.pos))
      else Parsed(false, r.expr, r.pos)
    else Parsed(false, e0, i)
  }

  function ConjunctionAt(ts: seq<Token>, i: nat, e0: Expr): (r: Parsed)
    requires WellFormed(ts) && i < |ts|
    ensures i <= r.pos < |ts| && (r.ok ==> i < r.pos)
    decreases |ts| - i, 1
  {
    var r := NegationAt(ts, i, e0);
    if !r.ok then r else ConjunctionTail(ts, r.pos, r.expr)
  }

  /** The `while (match(AND))` loop, entered at `j` with the tree `acc` built so far. */
  function ConjunctionTail(ts: seq<Token>, j: nat, acc: Expr): (r: Parsed)
    requires WellFormed(ts) && j < |ts|
    ensures j <= r.pos < |ts|
    decreases |ts| - j, 0
  {
    if ts[j].kind == AndSym then
      var r := NegationAt(ts, j + 1, acc);
      if !r.ok then r else ConjunctionTail(ts, r.pos, And(acc, r.expr))
    else Parsed(true, acc, j)
  }

  function DisjunctionAt(ts: seq<Token>, i: nat, e0: Expr): (r: Parsed)
    requires WellFormed(ts) && i < |ts|
    ensures i <= r.pos < |ts| && (r.ok ==> i < r.pos)
    decreases |ts| - i, 2
  {
    var r := ConjunctionAt(ts, i, e0);
    if !r.ok then r else DisjunctionTail(ts, r.pos, r.expr)
  }

  /** The `while (match(OR))` loop. */
  function DisjunctionTail(ts: seq<Token>, j: nat, acc: Expr): (r: Parsed)
    requires WellFormed(ts) && j < |ts|
    ensures j <= r.pos < |ts|
    decreases |ts| - j, 0
  {
    if ts[j].kind == OrSym then
      var r := ConjunctionAt(ts, j + 1, acc);
      if !r.ok then r else DisjunctionTail(ts, r.pos, Or(acc, r.expr))
    else Parsed(true, acc, j)
  }

  function SentenceAt(ts: seq<Token>, i: nat, e0: Expr): (r: Parsed)
    requires WellFormed(ts) && i < |ts|
    ensures r.pos < |ts|
    ensures r.ok ==> ts[r.pos].kind == EndSymbol
  {
    if ts[i].kind != StartSymbol then Parsed(false, e0, i)
    else
      var r := DisjunctionAt(ts, NextIndex(ts, i), e0);
      if !r.ok then r
      else if ts[r.pos].kind == EndSymbol then Parsed(true, r.expr, NextIndex(ts, r.pos))
      else Parsed(false, r.expr, r.pos)
  }

  /** What a fresh parser computes for `formula`, starting from an empty expression. */
  function ParseQuery(formula: string): Parsed {
    TokenListWellFormed(formula);
    SentenceAt(TokenList(formula), 0, Lit(""))
  }

  lemma TokenListWellFormed(formula: string)
    ensures WellFormed(TokenList(formula))
  {
  }

  /**
   * What the character loop may emit: operator and parenthesis tokens and
   * non-empty identifiers, none of them holding a `"`; never a sentinel and
   * never an ILLEGAL token.
   */
  predicate Emittable(t: Token) {
    && t.kind in {LParen, RParen, AndSym, OrSym, NotSym, Identifier}
    && (t.kind == Identifier ==> t.text != "")
    && '"' !in t.text
  }

  lemma StepEmits(st: ScanState, c: char)
    requires '"' !in st.ident
    ensures st.tokens <= Step(st, c).tokens
    ensures '"' !in Step(st, c).ident
    ensures forall t | t in Step(st, c).tokens[|st.tokens|..] :: Emittable(t)
  {
  }

  lemma {:induction false} RunEmits(st: ScanState, s: string)
    requires '"' !in st.ident
    ensures st.tokens <= Run(st, s).tokens
    ensures '"' !in Run(st, s).ident
    ensures forall t | t in Run(st, s).tokens[|st.tokens|..] :: Emittable(t)
    decreases |s|
  {
    if s != "" {
      var mid := Step(st, s[0]);
      StepEmits(st, s[0]);
      RunEmits(mid, s[1..]);
      var fin := Run(st, s).tokens;
      assert fin == Run(mid, s[1..]).tokens;
      forall t | t in fin[|st.tokens|..] ensures Emittable(t) {
        var k :| |st.tokens| <= k < |fin| && fin[k] == t;
        if k < |mid.tokens| {
          assert t == mid.tokens[|st.tokens|..][k - |st.tokens|];
        } else {
          assert t == fin[|mid.tokens|..][k - |mid.tokens|];
        }
      }
    }
  }

  /**
   * The token stream of any query: START first, END last, and in between only
   * emittable tokens, so no ILLEGAL token, no empty identifier, no `"` in any
   * text and nothing after END.
   */
  lemma TokenListShape(formula: string)
    ensures |TokenList(formula)| >= 2
    ensures TokenList(formula)[0] == StartToken
    ensures TokenList(formula)[|TokenList(formula)| - 1] == EndToken
    ensures forall k | 0 < k < |TokenList(formula)| - 1 :: Emittable(TokenList(formula)[k])
  {
    var st := Run(Init, formula);
    RunEmits(Init, formula);
    var ts := TokenList(formula);
    assert ts == st.tokens + Flush(st.ident) + [EndToken];
    forall k | 0 < k < |ts| - 1 ensures Emittable(ts[k]) {
      if k < |st.tokens| {
        assert ts[k] == st.tokens[1..][k - 1];
      } else {
        assert ts[k] in Flush(st.ident);
      }
    }
  }

  /**
   * `BooleanParser`: the token list and the cursor `m_Index`/`m_Sym`.
   * Each query is parsed by a freshly constructed parser.
   */
  class Parser {
    var index: nat
    var sym: TokenKind
    var tokens: seq<Token>

    /** The cursor stays on a token of a list closed by END, and `m_Sym` is its kind. */
    ghost predicate Valid()
      reads this
    {
      WellFormed(tokens) && index < |tokens| && sym == tokens[index].kind
    }

    constructor ()
      ensures index == 0 && sym == StartSymbol && tokens == []
    {
      index := 0;
      sym := StartSymbol;
      tokens := [];
    }

    /** `tokenize`: replace the token list by the tokens of `formula`. */
    method Tokenize(formula: string)
      modifies this`tokens
      ensures tokens == TokenList(formula)
    {
      tokens := [StartToken];
      var ident: string := "";
      var quoted := false;
      for i := 0 to |formula|
        invariant ScanState(tokens, ident, quoted) == Run(Init, formula[..i])
      {
        var c := formula[i];
        assert formula[..i + 1] == formula[..i] + [c];
        RunSnoc(Init, formula[..i], c);
        if !IsValidQueryChar(c) && ident != "" {
          if quoted {
            if c != '"' {
              ident := ident + [c];
            }
            continue;
          }
          tokens := tokens + [Token(ident, Identifier)];
          ident := "";
        }
        if IsValidQueryChar(c) {
          ident := ident + [c];
        } else if c == ' ' {
          if !quoted {
            continue;
          }
          ident := ident + [c];
        } else if c == '"' {
          quoted := !quoted;
        } else if c == '(' {
          tokens := tokens + [Token("(", LParen)];
        } else if c == ')' {
          tokens := tokens + [Token(")", RParen)];
        } else if c == '!' {
          tokens := tokens + [Token("!", NotSym)];
        } else if c == '|' {
          tokens := tokens + [Token("|", OrSym)];
        } else if c == '&' {
          tokens := tokens + [Token("&", AndSym)];
        } else {
          tokens := tokens + [Token([c], Illegal)];
        }
      }
      assert formula[..|formula|] == formula;
      if ident != "" {
        tokens := tokens + [Token(ident, Identifier)];
      }
      tokens := tokens + [EndToken];
    }

    /** `advance`: never moves past END. */
    method Advance()
      requires Valid()
      modifies this`index, this`sym
      ensures Valid()
      ensures index == NextIndex(tokens, old(index))
    {
      if sym != EndSymbol {
        index := index + 1;
        sym := tokens[index].kind;
      }
    }

    /** `match`: consume the current token only when it has the wanted kind. */
    method Match(kind: TokenKind) returns (matched: bool)
      requires Valid()
      modifies this`index, this`sym
      ensures Valid()
      ensures matched == (old(sym) == kind)
      ensures index == if matched then NextIndex(tokens, old(index)) else old(index)
    {
      if sym != kind {
        return false;
      }
      Advance();
      return true;
    }

    method Sentence(e0: Expr) returns (ok: bool, e: Expr)
      requires Valid()
      modifies this`index, this`sym
      ensures Valid()
      ensures Parsed(ok, e, index) == SentenceAt(tokens, old(index), e0)
    {
      e := e0;
      ok := Match(StartSymbol);
      if !ok {
        return;
      }
      ok, e := Disjunction(e);
      if !ok {
        return;
      }
      ok := Match(EndSymbol);
    }

    method Disjunction(e0: Expr) returns (ok: bool, e: Expr)
      requires Valid()
      modifies this`index, this`sym
      ensures Valid()
      ensures Parsed(ok, e, index) == DisjunctionAt(tokens, old(index), e0)
      decreases |tokens| - index, 2
    {
      ok, e := Conjunction(e0);
      if !ok {
        return;
      }
      ghost var at := index;
      var more := Match(OrSym);
      while more
        invariant Valid()
        invariant old(index) < at < |tokens|
        invariant more == (tokens[at].kind == OrSym)
        invariant index == if more then at + 1 else at
        invariant DisjunctionTail(tokens, at, e) == DisjunctionAt(tokens, old(index), e0)
        decreases |tokens| - index
      {
        var rhsOk, rhs := Conjunction(e);
        if !rhsOk {
          return false, rhs;
        }
        e := Or(e, rhs);
        at := index;
        more := Match(OrSym);
      }
    }

    method Conjunction(e0: Expr) returns (ok: bool, e: Expr)
      requires Valid()
      modifies this`index, this`sym
      ensures Valid()
      ensures Parsed(ok, e, index) == ConjunctionAt(tokens, old(index), e0)
      decreases |tokens| - index, 1
    {
      ok, e := Negation(e0);
      if !ok {
        return;
      }
      ghost var at := index;
      var more := Match(AndSym);
      while more
        invariant Valid()
        invariant old(index) < at < |tokens|
        invariant more == (tokens[at].kind == AndSym)
        invariant index == if more then at + 1 else at
        invariant ConjunctionTail(tokens, at, e) == ConjunctionAt(tokens, old(index), e0)
        decreases |tokens| - index
      {
        var rhsOk, rhs := Negation(e);
        if !rhsOk {
          return false, rhs;
        }
        e := And(e, rhs);
        at := index;
        more := Match(AndSym);
      }
    }

    method Negation(e0: Expr) returns (ok: bool, e: Expr)
      requires Valid()
      modifies this`index, this`sym
      ensures Valid()
      ensures Parsed(ok, e, index) == NegationAt(tokens, old(index), e0)
      decreases |tokens| - index, 0
    {
      var m := Match(Identifier);
      if m {
        return true, Lit(tokens[index - 1].text);
      }
      m := Match(NotSym);
      if m {
        ok, e := Negation(e0);
        if !ok {
          return;
        }
        return true, Not(e);
      }
      m := Match(LParen);
      if m {
        ok, e := Disjunction(e0);
        if !ok {
          return;
        }
        ok := Match(RParen);
        return;
      }
      return false, e0;
    }

    /** `parse`: clear the expression, tokenize, then `sentence`. */
    method Parse(formula: string) returns (ok: bool, expr: Expr)
      requires index == 0 && sym == StartSymbol
      modifies this
      ensures tokens == TokenList(formula) && Valid()
      ensures Parsed(ok, expr, index) == ParseQuery(formula)
    {
      expr := Lit("");
      Tokenize(formula);
      TokenListShape(formula);
      ok, expr := Sentence(expr);
    }

    /** `check`: `parse` without keeping the tree. */
    method Check(formula: string) returns (ok: bool)
      requires index == 0 && sym == StartSymbol
      modifies this
      ensures ok == ParseQuery(formula).ok
    {
      Tokenize(formula);
      TokenListShape(formula);
      var expr;
      ok, expr := Sentence(Lit(""));
    }
  }
}
