/**
 * Normal forms of query trees (src/parser/logic.cpp): the node-kind tests, the
 * shape predicates `isNNF`/`isDNF`, the negation-normal-form rewrite `toNNF`
 * and the distribution of AND over OR that turns a tree into a disjunction of
 * conjunctive clauses (`NNFtoDNF`, `toDNF`, `distributeAndOr`).
 */
module Logic {
  import opened Expressions

  /** `isAtomic`: the node is a literal (operator NIL). */
  predicate IsAtomic(e: Expr) {
    e.Op() == NilOp
  }

  /** `isConjunction`. */
  predicate IsConjunction(e: Expr) {
    e.Op() == AndOp
  }

  /** `isDisjunction`. */
  predicate IsDisjunction(e: Expr) {
    e.Op() == OrOp
  }

  /** `isNegation`. */
  predicate IsNegation(e: Expr) {
    e.Op() == NotOp
  }

  /** The four tests look only at the operator, and exactly one of them holds for every node. */
  lemma KindsExclusive(e: Expr)
    ensures IsAtomic(e) <==> e.Lit?
    ensures IsNegation(e) <==> e.Not?
    ensures IsConjunction(e) <==> e.And?
    ensures IsDisjunction(e) <==> e.Or?
    ensures (if IsAtomic(e) then 1 else 0) + (if IsNegation(e) then 1 else 0)
      + (if IsConjunction(e) then 1 else 0) + (if IsDisjunction(e) then 1 else 0) == 1
  {
  }

  /** `noOr`: no OR node is reachable from the root. */
  predicate NoOr(e: Expr) {
    match e
    case Lit(_) => true
    case Not(x) => NoOr(x)
    case Or(_, _) => false
    case And(l, r) => NoOr(l) && NoOr(r)
  }

  /** `noAndAboveOr`: below an AND there is no OR. */
  predicate NoAndAboveOr(e: Expr) {
    match e
    case Lit(_) => true
    case Not(x) => NoAndAboveOr(x)
    case Or(l, r) => NoAndAboveOr(l) && NoAndAboveOr(r)
    case And(l, r) => NoOr(l) && NoOr(r)
  }

  /** `isNNF`: negations sit directly on literals. */
  predicate IsNNF(e: Expr) {
    match e
    case Lit(_) => true
    case Not(x) => IsAtomic(x)
    case And(l, r) => IsNNF(l) && IsNNF(r)
    case Or(l, r) => IsNNF(l) && IsNNF(r)
  }

  /** `isDNF`: in negation normal form, with every AND below every OR. */
  predicate IsDNF(e: Expr) {
    IsNNF(e) && NoAndAboveOr(e)
  }

  /** A tree without OR has no AND above an OR. */
  lemma {:induction false} NoOrNoAndAboveOr(e: Expr)
    requires NoOr(e)
    ensures NoAndAboveOr(e)
  {
    match e
    case Lit(_) =>
    case Not(x) => NoOrNoAndAboveOr(x);
    case And(_, _) =>
  }

  /** The leaves of the top-level OR spine of `e`, left to right. */
  function Disjuncts(e: Expr): (ds: seq<Expr>)
    ensures |ds| >= 1
    ensures !e.Or? ==> ds == [e]
  {
    if e.Or? then Disjuncts(e.lhs) + Disjuncts(e.rhs) else [e]
  }

  /** A conjunctive clause: a conjunction of literals and negated literals. */
  predicate IsClause(e: Expr) {
    IsNNF(e) && NoOr(e)
  }

  /** A tree is in DNF exactly when every leaf of its OR spine is a clause. */
  lemma {:induction false} DNFIsDisjunctionOfClauses(e: Expr)
    ensures IsDNF(e) <==> forall d | d in Disjuncts(e) :: IsClause(d)
  {
    if e.Or? {
      DNFIsDisjunctionOfClauses(e.lhs);
      DNFIsDisjunctionOfClauses(e.rhs);
    } else {
      assert (forall d | d in Disjuncts(e) :: IsClause(d)) <==> IsClause(e) by {
        assert Disjuncts(e) == [e];
      }
      if e.Not? && e.scope.Lit? {
        assert NoOr(e.scope) && NoAndAboveOr(e.scope);
      }
    }
  }

  /** A disjunction holds exactly when one of its disjuncts does. */
  lemma {:induction false} DisjunctsEval(e: Expr, env: string -> bool)
    ensures Eval(e, env) <==> exists d | d in Disjuncts(e) :: Eval(d, env)
  {
    if e.Or? {
      DisjunctsEval(e.lhs, env);
      DisjunctsEval(e.rhs, env);
      assert forall d :: d in Disjuncts(e) <==> d in Disjuncts(e.lhs) || d in Disjuncts(e.rhs);
    }
  }

  /**
   * The operand of a De Morgan rewrite: `x.scope()` when `x` is a negation,
   * otherwise a new NOT over `x`.
   */
  function Complement(x: Expr): (r: Expr)
    ensures forall env :: Eval(r, env) == !Eval(x, env)
    ensures BinCount(r) == BinCount(x)
  {
    if IsNegation(x) then x.scope else Not(x)
  }

  /**
   * `toNNF`: push negations inwards by De Morgan's laws and drop double
   * negations. The result has the meaning and the number of AND/OR nodes of
   * the input, and its root is never a negation of a non-literal.
   */
  function ToNNF(e: Expr): (r: Expr)
    ensures forall env :: Eval(r, env) == Eval(e, env)
    ensures BinCount(r) == BinCount(e)
    ensures IsNegation(r) ==> IsAtomic(r.scope)
  {
    match e
    case Lit(_) => e
    case Not(x) =>
      (match x
       case Lit(_) => e
       case Not(y) => ToNNF(y)
       case Or(a, b) => And(Complement(ToNNF(a)), Complement(ToNNF(b)))
       case And(a, b) => Or(Complement(ToNNF(a)), Complement(ToNNF(b))))
    case Or(l, r) => Or(ToNNF(l), ToNNF(r))
    case And(l, r) => And(ToNNF(l), ToNNF(r))
  }

  /** A tree already in negation normal form comes back unchanged. */
  lemma {:induction false} ToNNFKeepsNNF(e: Expr)
    requires IsNNF(e)
    ensures ToNNF(e) == e
  {
    match e
    case Lit(_) =>
    case Not(_) =>
    case Or(l, r) =>
      ToNNFKeepsNNF(l);
      ToNNFKeepsNNF(r);
    case And(l, r) =>
      ToNNFKeepsNNF(l);
      ToNNFKeepsNNF(r);
  }

  /**
   * Only the root is normalised: in `!((a & b) | c)` the negated conjunction
   * survives, so the result is not in negation normal form and a second
   * `toNNF` changes it again.
   */
  lemma ToNNFOnlyAtRoot()
    ensures var e := Not(Or(And(Lit("a"), Lit("b")), Lit("c")));
      && ToNNF(e) == And(Not(And(Lit("a"), Lit("b"))), Not(Lit("c")))
      && !IsNNF(ToNNF(e))
      && ToNNF(ToNNF(e)) == And(Or(Not(Lit("a")), Not(Lit("b"))), Not(Lit("c")))
  {
    var ab := And(Lit("a"), Lit("b"));
    assert ToNNF(ab) == ab;
    assert ToNNF(Lit("c")) == Lit("c");
    assert ToNNF(Not(ab)) == Or(Not(Lit("a")), Not(Lit("b")));
  }

  /**
   * `distributeAndOr`: the conjunction of two trees with AND distributed
   * over every OR at the top of either one.
   */
  function DistributeAndOr(a: Expr, b: Expr): (r: Expr)
    ensures forall env :: Eval(r, env) == (Eval(a, env) && Eval(b, env))
    ensures IsDNF(a) && IsDNF(b) ==> IsDNF(r)
    decreases a, b
  {
    if IsDisjunction(a) then
      Or(DistributeAndOr(a.lhs, b), DistributeAndOr(a.rhs, b))
    else if IsDisjunction(b) then
      Or(DistributeAndOr(a, b.lhs), DistributeAndOr(a, b.rhs))
    else
      And(a, b)
  }

  /**
   * `NNFtoDNF`: literals and negations are returned as they are; a
   * disjunction normalises both sides; a conjunction normalises both sides and
   * distributes. On a tree whose root is not a negation of a non-literal (as
   * `toNNF` leaves it) the result is in DNF; it always keeps the meaning.
   */
  function NNFtoDNF(e: Expr): (r: Expr)
    ensures forall env :: Eval(r, env) == Eval(e, env)
    ensures !(IsNegation(e) && !IsAtomic(e.scope)) ==> IsDNF(r)
    ensures IsAtomic(e) || IsNegation(e) ==> r == e
    decreases BinCount(e), 0
  {
    match e
    case Lit(_) => e
    case Not(_) => e
    case Or(l, r) => Or(ToDNF(l), ToDNF(r))
    case And(l, r) => DistributeAndOr(ToDNF(l), ToDNF(r))
  }

  /** `toDNF`: the DNF of `toNNF(e)`; always in DNF and equivalent to `e`. */
  function ToDNF(e: Expr): (r: Expr)
    ensures forall env :: Eval(r, env) == Eval(e, env)
    ensures IsDNF(r)
    decreases BinCount(e), 1
  {
    NNFtoDNF(ToNNF(e))
  }

  /** A tree in DNF comes back unchanged from `toDNF`. */
  lemma {:induction false} ToDNFKeepsDNF(e: Expr)
    requires IsDNF(e)
    ensures ToDNF(e) == e
  {
    ToNNFKeepsNNF(e);
    match e
    case Lit(_) =>
    case Not(_) =>
    case Or(l, r) =>
      ToDNFKeepsDNF(l);
      ToDNFKeepsDNF(r);
    case And(l, r) =>
      NoOrNoAndAboveOr(l);
      NoOrNoAndAboveOr(r);
      ToDNFKeepsDNF(l);
      ToDNFKeepsDNF(r);
  }

  /** Hence `toDNF` is idempotent. */
  lemma ToDNFIdempotent(e: Expr)
    ensures ToDNF(ToDNF(e)) == ToDNF(e)
  {
    ToDNFKeepsDNF(ToDNF(e));
  }
}
