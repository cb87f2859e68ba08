/**
 * The search as the main window runs it (src/mainwindow.cpp, with the prompt
 * loop of src/helperfunctions.cpp): reject a malformed query, compile it into
 * term-list pairs, and keep the prompts that one of the pairs matches.
 */
module Search {
  import opened Expressions
  import opened BooleanParser
  import opened Terms
  import opened QueryParser
  import opened Helpers

  /** The meaning of a query on a prompt: each word is true when the prompt contains it. */
  predicate Holds(query: string, prompt: string) {
    Eval(ParseQuery(query).expr, t => Contains(prompt, t))
  }

  /** A non-empty query's pairs accept a prompt exactly when the query holds on it. */
  lemma CompiledQueriesAccept(query: string, prompt: string)
    requires query != ""
    ensures Accepts(prompt, CompiledQueries(query)) <==> Holds(query, prompt)
  {
    var qs := CompiledQueries(query);
    var env := t => Contains(prompt, t);
    assert Eval(ParseQuery(query).expr, env) <==> exists q | q in qs :: Satisfies(q, env);
    forall q | q in qs
      ensures PairMatches(prompt, q) <==> Satisfies(q, env)
    {
      PairMatchesSatisfies(prompt, q);
    }
  }

  /** The empty query accepts every prompt. */
  lemma EmptyQueryAcceptsAll(prompt: string)
    ensures Accepts(prompt, CompiledQueries(""))
  {
    EmptyPairMatchesAll(prompt, CompiledQueries(""));
  }

  /** `a` is `b` with some elements left out, the rest in their order. */
  predicate Subsequence<T(==)>(a: seq<T>, b: seq<T>)
    decreases |b|
  {
    if a == [] then true
    else if b == [] then false
    else
      || (a[|a| - 1] == b[|b| - 1] && Subsequence(a[..|a| - 1], b[..|b| - 1]))
      || Subsequence(a, b[..|b| - 1])
  }

  /**
   * The prompts that some pair matches: a subsequence of the prompts that
   * holds each accepted prompt as often as the prompts do, and no other.
   */
  function Selected(prompts: seq<string>, queries: seq<QueryPair>): (kept: seq<string>)
    ensures forall p | p in kept :: p in prompts && Accepts(p, queries)
    ensures forall p | p in prompts && Accepts(p, queries) :: p in kept
    ensures Subsequence(kept, prompts)
    ensures forall p :: multiset(kept)[p] == if Accepts(p, queries) then multiset(prompts)[p] else 0
  {
    if prompts == [] then []
    else
      var last := prompts[|prompts| - 1];
      var init := prompts[..|prompts| - 1];
      assert prompts == init + [last];
      assert multiset(prompts) == multiset(init) + multiset{last};
      var rest := Selected(init, queries);
      if Accepts(last, queries) then
        assert (rest + [last])[..|rest|] == rest;
        rest + [last]
      else rest
  }

  /**
   * One search over a list of prompt texts: a query `checkQuery` rejects
   * selects nothing; otherwise each prompt is kept when `matches` accepts it.
   */
  method SearchPrompts(query: string, prompts: seq<string>) returns (wellFormed: bool, found: seq<string>)
    ensures wellFormed <==> query == "" || ParseQuery(query).ok
    ensures !wellFormed ==> found == []
    ensures wellFormed ==> found == Selected(prompts, CompiledQueries(query))
  {
    found := [];
    wellFormed := CheckQuery(query);
    if !wellFormed {
      return;
    }
    var queries := CompileQuery(query);
    for i := 0 to |prompts|
      invariant found == Selected(prompts[..i], queries)
    {
      var accepted := Matches(prompts[i], queries);
      assert prompts[..i + 1][..i] == prompts[..i];
      if accepted {
        found := found + [prompts[i]];
      }
    }
    assert prompts[..|prompts|] == prompts;
  }

  /** A well-formed non-empty query keeps exactly the prompts it holds on. */
  lemma SearchSelectsExactly(query: string, prompts: seq<string>, p: string)
    requires query != ""
    ensures p in Selected(prompts, CompiledQueries(query)) <==> p in prompts && Holds(query, p)
  {
    CompiledQueriesAccept(query, p);
  }

  /** Pairs that accept every prompt keep them all. */
  lemma {:induction false} AllAcceptedKeepsAll(prompts: seq<string>, queries: seq<QueryPair>)
    requires forall p | p in prompts :: Accepts(p, queries)
    ensures Selected(prompts, queries) == prompts
  {
    if prompts != [] {
      var last := prompts[|prompts| - 1];
      var init := prompts[..|prompts| - 1];
      assert prompts == init + [last];
      AllAcceptedKeepsAll(init, queries);
      assert Selected(prompts, queries) == Selected(init, queries) + [last];
    }
  }

  /** The empty query keeps every prompt. */
  lemma EmptySearchKeepsAll(prompts: seq<string>)
    ensures Selected(prompts, CompiledQueries("")) == prompts
  {
    forall p | p in prompts
      ensures Accepts(p, CompiledQueries(""))
    {
      EmptyQueryAcceptsAll(p);
    }
    AllAcceptedKeepsAll(prompts, CompiledQueries(""));
  }
}
