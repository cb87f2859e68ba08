/**
 * The first revision of the query front end (src/queryparser.cpp).
 * `getQueryLists` and the per-disjunct `getQueries` are the same code as in
 * the current revision and are shared with it; `checkQuery` and the public
 * `getQueries(QString)` differ: neither treats the empty query specially, and
 * both use the first revision of the parser and of `toDNF`.
 */
module LegacyQuery {
  import opened Expressions
  import opened Tokens
  import opened Terms
  import QueryParser
  import LegacyLogic
  import RoundTrip
  import Helpers
  import opened LegacyBooleanParser

  /** `checkQuery`: a fresh parser run on the query, from a default expression. */
  method CheckQuery(query: string) returns (ok: bool)
    ensures ok <==> ParseQuery(query).ok
  {
    var parser := new Parser();
    var e;
    ok, e := parser.Parse(query, Lit(""));
  }

  /**
   * Public `getQueries(QString)`: the pairs of the DNF of whatever tree
   * parsing left behind. A prompt environment satisfies one of the pairs
   * exactly when it satisfies that tree.
   */
  function CompiledQueries(query: string): (qs: seq<QueryPair>)
    ensures forall env ::
      Eval(ParseQuery(query).expr, env) <==> exists q | q in qs :: Satisfies(q, env)
  {
    var e := ParseQuery(query).expr;
    forall env ensures Eval(e, env) <==> exists q | q in QueryParser.GetQueries(LegacyLogic.ToDNF(e)) :: Satisfies(q, env) {
      QueryParser.GetQueriesCorrect(LegacyLogic.ToDNF(e), env);
    }
    QueryParser.GetQueries(LegacyLogic.ToDNF(e))
  }

  /** The same, running a fresh parser as the source does. */
  method CompileQuery(query: string) returns (qs: seq<QueryPair>)
    ensures qs == CompiledQueries(query)
  {
    var parser := new Parser();
    var _, e := parser.Parse(query, Lit(""));
    qs := QueryParser.GetQueries(LegacyLogic.ToDNF(e));
  }

  /**
   * The empty query fails `checkQuery`, and if compiled anyway it leaves the
   * default expression behind: one pair including the empty word, which every
   * prompt contains.
   */
  lemma EmptyQuery(prompt: string)
    ensures !ParseQuery("").ok
    ensures CompiledQueries("") == [QueryPair([""], [])]
    ensures Helpers.Accepts(prompt, CompiledQueries(""))
  {
    assert TokenList("") == [StartToken, EndToken];
    assert ParseQuery("").expr == Lit("");
    assert LegacyLogic.ToDNF(Lit("")) == Lit("");
    assert Helpers.OccursAt(prompt, "", 0);
    assert Helpers.PairMatches(prompt, QueryPair([""], []));
  }

  /**
   * On the printed form of a tree of letter words, both revisions accept the
   * query and compile it to pairs that hold on exactly the same environments
   * as the tree itself.
   */
  lemma RevisionsAgreeOnPrinted(e: Expr, env: string -> bool)
    requires LetterWords(e)
    ensures ParseQuery(Print(e)).ok && BooleanParser.ParseQuery(Print(e)).ok
    ensures (exists q | q in CompiledQueries(Print(e)) :: Satisfies(q, env)) <==> Eval(e, env)
    ensures (exists q | q in QueryParser.CompiledQueries(Print(e)) :: Satisfies(q, env)) <==> Eval(e, env)
  {
    var text := Print(e);
    ParsePrint(e);
    assert ParseQuery(text).expr == e;
    assert text != "" by {
      match e
      case Lit(_) =>
      case Not(_) =>
      case And(_, _) =>
      case Or(_, _) =>
    }
    assert BooleanParser.ParseQuery(text) == Parsed(true, e, RoundTrip.TokCount(e) + 1) by {
      PrintPlain(e);
      RoundTrip.ParsePrint(e);
    }
    var legacy := CompiledQueries(text);
    var current := QueryParser.CompiledQueries(text);
    assert (exists q | q in legacy :: Satisfies(q, env)) <==> Eval(e, env);
    assert (exists q | q in current :: Satisfies(q, env)) <==> Eval(e, env);
  }
}
