/**
 * From a query string to term lists (src/parser/queryparser.cpp): `checkQuery`,
 * the per-clause extraction `getQueryLists`, the per-disjunct split
 * `getQueries` and the public `getQueries(QString)` that chains parsing, DNF
 * conversion and the split.
 */
module QueryParser {
  import opened Expressions
  import opened Tokens
  import opened BooleanParser
  import opened Logic
  import opened Terms

  /** `checkQuery`: the empty query is accepted; any other must parse. */
  method CheckQuery(query: string) returns (ok: bool)
    ensures ok <==> query == "" || ParseQuery(query).ok
  {
    if query == "" {
      return true;
    }
    var parser := new Parser();
    ok := parser.Check(query);
  }

  /**
   * `getQueryLists` (anonymous namespace): the inclusions and exclusions of a
   * conjunctive clause. A literal is one inclusion, a negation excludes the
   * literal text of its operand, a conjunction merges the two sides' lists
   * and a disjunction gives an empty pair. Both lists come out sorted.
   */
  function QueryLists(e: Expr): (q: QueryPair)
    ensures Sorted(q.inclusions, StrLess) && Sorted(q.exclusions, StrLess)
  {
    match e
    case Lit(s) => QueryPair([s], [])
    case Not(x) => QueryPair([], [x.Text()])
    case And(l, r) =>
      var a, b := QueryLists(l), QueryLists(r);
      MergeStringsSorted(a.inclusions, b.inclusions);
      MergeStringsSorted(a.exclusions, b.exclusions);
      QueryPair(Merge(a.inclusions, b.inclusions, StrLess), Merge(a.exclusions, b.exclusions, StrLess))
    case Or(_, _) => QueryPair([], [])
  }

  /** The literals a clause requires, left to right. */
  function Included(e: Expr): seq<string> {
    match e
    case Lit(s) => [s]
    case And(l, r) => Included(l) + Included(r)
    case _ => []
  }

  /** The literals a clause forbids, left to right. */
  function Excluded(e: Expr): seq<string> {
    match e
    case Not(x) => [x.Text()]
    case And(l, r) => Excluded(l) + Excluded(r)
    case _ => []
  }

  /** The merged lists hold exactly the clause's required and forbidden literals, with multiplicity. */
  lemma {:induction false} QueryListsTerms(e: Expr)
    ensures multiset(QueryLists(e).inclusions) == multiset(Included(e))
    ensures multiset(QueryLists(e).exclusions) == multiset(Excluded(e))
  {
    match e
    case Lit(_) =>
    case Not(_) =>
    case Or(_, _) =>
    case And(l, r) =>
      QueryListsTerms(l);
      QueryListsTerms(r);
  }

  /** A clause holds exactly when its pair is satisfied. */
  lemma {:induction false} QueryListsSatisfied(e: Expr, env: string -> bool)
    requires IsClause(e)
    ensures Satisfies(QueryLists(e), env) <==> Eval(e, env)
  {
    match e
    case Lit(_) =>
    case Not(x) =>
      assert x.Lit?;
    case And(l, r) =>
      QueryListsSatisfied(l, env);
      QueryListsSatisfied(r, env);
      var a, b := QueryLists(l), QueryLists(r);
      forall t
        ensures t in QueryLists(e).inclusions <==> t in a.inclusions || t in b.inclusions
        ensures t in QueryLists(e).exclusions <==> t in a.exclusions || t in b.exclusions
      {
        MergeMembers(a.inclusions, b.inclusions, StrLess, t);
        MergeMembers(a.exclusions, b.exclusions, StrLess, t);
      }
  }

  /** The pair of each expression in `ds`, in order. */
  function PairsOf(ds: seq<Expr>): (qs: seq<QueryPair>)
    ensures |qs| == |ds|
    ensures forall i | 0 <= i < |ds| :: qs[i] == QueryLists(ds[i])
  {
    if ds == [] then [] else [QueryLists(ds[0])] + PairsOf(ds[1..])
  }

  lemma PairsOfAppend(a: seq<Expr>, b: seq<Expr>)
    ensures PairsOf(a + b) == PairsOf(a) + PairsOf(b)
  {
    assert PairsOf(a + b) == PairsOf(a) + PairsOf(b);
  }

  /**
   * `getQueries` (anonymous namespace): one pair per leaf of the top-level OR
   * spine. A disjunction with a conjunction on its left appends that
   * conjunction's pair to the pairs of its right side (and symmetrically);
   * otherwise the pairs of both sides are merged.
   */
  function GetQueries(e: Expr): (qs: seq<QueryPair>)
    ensures |qs| == |Disjuncts(e)|
  {
    if !IsDisjunction(e) then
      [QueryLists(e)]
    else if IsConjunction(e.lhs) then
      GetQueries(e.rhs) + [QueryLists(e.lhs)]
    else if IsConjunction(e.rhs) then
      GetQueries(e.lhs) + [QueryLists(e.rhs)]
    else
      Merge(GetQueries(e.lhs), GetQueries(e.rhs), PairLess)
  }

  /** Whatever the order, `getQueries` holds exactly the pairs of the disjuncts, each once. */
  lemma {:induction false} GetQueriesPairs(e: Expr)
    ensures multiset(GetQueries(e)) == multiset(PairsOf(Disjuncts(e)))
  {
    if IsDisjunction(e) {
      GetQueriesPairs(e.lhs);
      GetQueriesPairs(e.rhs);
      PairsOfAppend(Disjuncts(e.lhs), Disjuncts(e.rhs));
      if !IsConjunction(e.lhs) && IsConjunction(e.rhs) {
        assert Disjuncts(e.rhs) == [e.rhs];
      } else if IsConjunction(e.lhs) {
        assert Disjuncts(e.lhs) == [e.lhs];
      }
    }
  }

  /** Every pair of `getQueries` is the pair of a disjunct, and every disjunct's pair is there. */
  lemma GetQueriesMembers(e: Expr, q: QueryPair)
    ensures q in GetQueries(e) <==> exists d | d in Disjuncts(e) :: q == QueryLists(d)
  {
    var qs, ds := GetQueries(e), Disjuncts(e);
    var ps := PairsOf(ds);
    GetQueriesPairs(e);
    if q in qs {
      assert q in multiset(ps);
      var i :| 0 <= i < |ps| && ps[i] == q;
      assert ds[i] in ds;
    }
    if d :| d in ds && q == QueryLists(d) {
      var i :| 0 <= i < |ds| && ds[i] == d;
      assert ps[i] == q;
      assert q in multiset(qs);
    }
  }

  /**
   * Soundness and completeness: a tree in DNF holds exactly when some pair
   * has every inclusion true and every exclusion false.
   */
  lemma GetQueriesCorrect(e: Expr, env: string -> bool)
    requires IsDNF(e)
    ensures Eval(e, env) <==> exists q | q in GetQueries(e) :: Satisfies(q, env)
  {
    DNFIsDisjunctionOfClauses(e);
    DisjunctsEval(e, env);
    if Eval(e, env) {
      var d :| d in Disjuncts(e) && Eval(d, env);
      QueryListsSatisfied(d, env);
      GetQueriesMembers(e, QueryLists(d));
    }
    if q :| q in GetQueries(e) && Satisfies(q, env) {
      GetQueriesMembers(e, q);
      var d :| d in Disjuncts(e) && q == QueryLists(d);
      QueryListsSatisfied(d, env);
    }
  }

  /** The pair with no terms, which every prompt satisfies. */
  const EmptyPair: QueryPair := QueryPair([], [])

  /**
   * Public `getQueries(QString)`: two empty pairs for the empty query;
   * otherwise the pairs of the DNF of whatever tree parsing left in its
   * out-parameter, whether or not parsing succeeded.
   */
  function CompiledQueries(query: string): (qs: seq<QueryPair>)
    ensures query == "" ==> qs == [EmptyPair, EmptyPair]
    ensures query != "" ==> forall env ::
      Eval(ParseQuery(query).expr, env) <==> exists q | q in qs :: Satisfies(q, env)
  {
    if query == "" then
      [EmptyPair, EmptyPair]
    else
      var e := ParseQuery(query).expr;
      forall env ensures Eval(e, env) <==> exists q | q in GetQueries(ToDNF(e)) :: Satisfies(q, env) {
        GetQueriesCorrect(ToDNF(e), env);
      }
      GetQueries(ToDNF(e))
  }

  /** The same, running a fresh parser as the source does. */
  method CompileQuery(query: string) returns (qs: seq<QueryPair>)
    ensures qs == CompiledQueries(query)
  {
    if query == "" {
      return [EmptyPair, EmptyPair];
    }
    var parser := new Parser();
    var _, e := parser.Parse(query);
    qs := GetQueries(ToDNF(e));
  }
}
