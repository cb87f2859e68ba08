/**
 * What the first tokenizer (src/booleanparser.cpp) emits, for every query:
 * words of letters after leading quoted spaces, the five symbol tokens, and
 * one ILLEGAL token per stray character, between START and END.
 */
module LegacyTokenShape {
  import opened Tokens
  import BooleanParser
  import opened LegacyBooleanParser

  /**
   * The text of a pending word: letters, after any number of spaces. Spaces
   * join only an empty word inside quotes, and a non-letter never joins a
   * non-empty one.
   */
  predicate WordText(w: string) {
    && (forall k | 0 <= k < |w| :: w[k] == ' ' || IsAlpha(w[k]))
    && (forall j, k | 0 <= j < k < |w| && w[k] == ' ' :: w[j] == ' ')
  }

  /** A character that is none of the tokenizer's letters, spaces, quotes, parentheses or operators. */
  predicate Stray(c: char) {
    !IsAlpha(c) && c !in {' ', '"', '(', ')', '!', '|', '&'}
  }

  /**
   * What the first character loop may emit: a non-empty word, one of the five
   * symbol tokens, or a one-character ILLEGAL token for a stray character.
   */
  predicate Emittable(t: Token) {
    || (t.kind == Identifier && t.text != "" && WordText(t.text))
    || t in {Token("(", LParen), Token(")", RParen), Token("!", NotSym), Token("|", OrSym), Token("&", AndSym)}
    || (t.kind == Illegal && |t.text| == 1 && Stray(t.text[0]))
  }

  lemma StepEmits(st: ScanState, c: char)
    requires WordText(st.ident)
    ensures st.tokens <= Step(st, c).tokens
    ensures WordText(Step(st, c).ident)
    ensures forall t | t in Step(st, c).tokens[|st.tokens|..] :: Emittable(t)
  {
    var st' := Step(st, c);
    if IsAlpha(c) {
      assert forall k | 0 <= k < |st'.ident| - 1 :: st'.ident[k] == st.ident[k];
    }
  }

  lemma {:induction false} RunEmits(st: ScanState, s: string)
    requires WordText(st.ident)
    ensures st.tokens <= Run(st, s).tokens
    ensures WordText(Run(st, s).ident)
    ensures forall t | t in Run(st, s).tokens[|st.tokens|..] :: Emittable(t)
    decreases |s|
  {
    if s != "" {
      var mid := Step(st, s[0]);
      StepEmits(st, s[0]);
      RunEmits(mid, s[1..]);
      var fin := Run(st, s).tokens;
      assert fin == Run(mid, s[1..]).tokens;
      forall t | t in fin[|st.tokens|..] ensures Emittable(t) {
        var k :| |st.tokens| <= k < |fin| && fin[k] == t;
        if k < |mid.tokens| {
          assert t == mid.tokens[|st.tokens|..][k - |st.tokens|];
        } else {
          assert t == fin[|mid.tokens|..][k - |mid.tokens|];
        }
      }
    }
  }

  /**
   * The token stream of any query: START first, END last, and in between only
   * words of letters after leading quoted spaces, the five symbol tokens, and
   * one ILLEGAL token per stray character.
   */
  lemma TokenListShape(formula: string)
    ensures |TokenList(formula)| >= 2
    ensures TokenList(formula)[0] == StartToken
    ensures TokenList(formula)[|TokenList(formula)| - 1] == EndToken
    ensures forall k | 0 < k < |TokenList(formula)| - 1 :: Emittable(TokenList(formula)[k])
  {
    var st := Run(BooleanParser.Init, formula);
    RunEmits(BooleanParser.Init, formula);
    var ts := TokenList(formula);
    assert ts == st.tokens + Flush(st.ident) + [EndToken];
    forall k | 0 < k < |ts| - 1 ensures Emittable(ts[k]) {
      if k < |st.tokens| {
        assert ts[k] == st.tokens[1..][k - 1];
      } else {
        assert ts[k] in Flush(st.ident);
      }
    }
  }
}
