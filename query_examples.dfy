/**
 * Worked examples of the whole query pipeline of src/parser/queryparser.cpp:
 * query text in, one (inclusions, exclusions) pair per disjunct out.
 */
module QueryExamples {
  import opened Expressions
  import opened Tokens
  import opened BooleanParser
  import opened Logic
  import opened Terms
  import opened QueryParser
  import opened ParserExamples
  import opened RoundTrip

  /** The pair of `y & z`: both words, merged into order. */
  lemma PairOfConjunction(y: string, z: string)
    ensures QueryLists(And(Lit(y), Lit(z))) == QueryPair(if StrLess(z, y) then [z, y] else [y, z], [])
  {
    if StrLess(z, y) {
      assert Merge([y], [z], StrLess) == [z] + Merge([y], [], StrLess);
    } else {
      assert Merge([y], [z], StrLess) == [y] + Merge([], [z], StrLess);
    }
  }

  /** A disjunction of a word and a conjunction: the word's pair after the conjunction's. */
  lemma PairsOfWordOrConjunction(x: string, c: Expr)
    requires c.And?
    ensures GetQueries(Or(Lit(x), c)) == [QueryPair([x], []), QueryLists(c)]
  {
    assert GetQueries(Lit(x)) == [QueryPair([x], [])];
  }

  /** `x | (y & z)` is already in DNF. */
  lemma WordOrConjunctionIsDNF(x: string, y: string, z: string)
    ensures ToDNF(Or(Lit(x), And(Lit(y), Lit(z)))) == Or(Lit(x), And(Lit(y), Lit(z)))
  {
    var bc := And(Lit(y), Lit(z));
    assert NoOr(Lit(y)) && NoOr(Lit(z));
    assert IsNNF(bc) && NoAndAboveOr(bc);
    ToDNFKeepsDNF(Or(Lit(x), bc));
  }

  /** `a | b & c` asks for `a`, or for both `b` and `c`. */
  lemma PrecedenceQueries()
    ensures CompiledQueries("a | b & c") == [QueryPair(["a"], []), QueryPair(["b", "c"], [])]
  {
    PrecedenceInstance();
    WordOrConjunctionIsDNF("a", "b", "c");
    PairsOfWordOrConjunction("a", And(Lit("b"), Lit("c")));
    PairOfConjunction("b", "c");
    assert !StrLess("c", "b");
  }

  /** De Morgan: `!(x & y)` becomes `!x | !y`, already in DNF. */
  lemma NegatedConjunctionDNF(x: string, y: string)
    ensures ToDNF(Not(And(Lit(x), Lit(y)))) == Or(Not(Lit(x)), Not(Lit(y)))
  {
    var e := Not(And(Lit(x), Lit(y)));
    assert ToNNF(e) == Or(Not(Lit(x)), Not(Lit(y)));
    assert ToDNF(Not(Lit(x))) == Not(Lit(x));
    assert ToDNF(Not(Lit(y))) == Not(Lit(y));
  }

  /** Two negated words: two exclusion pairs, merged into order. */
  lemma PairsOfTwoNegations(x: string, y: string)
    ensures var p, q := QueryPair([], [x]), QueryPair([], [y]);
      GetQueries(Or(Not(Lit(x)), Not(Lit(y)))) == if PairLess(q, p) then [q, p] else [p, q]
  {
    var p, q := QueryPair([], [x]), QueryPair([], [y]);
    assert GetQueries(Not(Lit(x))) == [p];
    assert GetQueries(Not(Lit(y))) == [q];
    if PairLess(q, p) {
      assert Merge([p], [q], PairLess) == [q] + Merge([p], [], PairLess);
    } else {
      assert Merge([p], [q], PairLess) == [p] + Merge([], [q], PairLess);
    }
  }

  /** `!(a & b)` is true without `a`, or without `b`. */
  lemma NegatedConjunctionQueries()
    ensures CompiledQueries("!(a & b)") == [QueryPair([], ["a"]), QueryPair([], ["b"])]
  {
    var e := Not(And(Lit("a"), Lit("b")));
    assert IsWord("a") && IsWord("b");
    assert Print(e) == "!(a & b)";
    ParsePrint(e);
    NegatedConjunctionDNF("a", "b");
    PairsOfTwoNegations("a", "b");
    assert !StrLess("b", "a") && StrLess("a", "b");
  }

  /** The empty query yields two pairs with no terms at all. */
  lemma EmptyQueries()
    ensures CompiledQueries("") == [QueryPair([], []), QueryPair([], [])]
  {
  }
}
