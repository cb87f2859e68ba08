/**
 * Tokens and the parser cursor shared by both revisions of the recursive-descent
 * parser (`enum class TokenType`, the token list of (text, kind) pairs and the
 * `advance` step).
 */
module Tokens {
  import opened Expressions

  datatype TokenKind =
    | StartSymbol | EndSymbol | LParen | RParen | AndSym | OrSym | NotSym | Identifier | Illegal

  /** One entry of `m_TokenList`: the raw text and the kind. */
  datatype Token = Token(text: string, kind: TokenKind)

  /** Texts of the sentinels (`TokenTypeName`). */
  const StartName: string := "<S>"
  const EndName: string := "<E>"

  const StartToken: Token := Token(StartName, StartSymbol)
  const EndToken: Token := Token(EndName, EndSymbol)

  /** The pending identifier becomes a token only when it is non-empty. */
  function Flush(ident: string): (ts: seq<Token>)
    ensures |ts| <= 1
    ensures forall t | t in ts :: t.kind == Identifier && t.text == ident != ""
    ensures ident != "" ==> ts == [Token(ident, Identifier)]
  {
    if ident == "" then [] else [Token(ident, Identifier)]
  }

  /** A token list the cursor can walk: never empty and closed by END. */
  predicate WellFormed(ts: seq<Token>) {
    |ts| > 0 && ts[|ts| - 1].kind == EndSymbol
  }

  /** `advance`: step to the next token unless the current one is END. */
  function NextIndex(ts: seq<Token>, i: nat): (j: nat)
    requires WellFormed(ts) && i < |ts|
    ensures j < |ts|
    ensures ts[i].kind == EndSymbol <==> j == i
  {
    if ts[i].kind != EndSymbol then i + 1 else i
  }

  /**
   * The outcome of a grammar production: whether it succeeded, the value of
   * its `Expression&` out-parameter afterwards (also on failure) and the
   * cursor position afterwards.
   */
  datatype Parsed = Parsed(ok: bool, expr: Expr, pos: nat)
}
