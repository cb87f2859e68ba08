/**
 * The first revision of the normal-form rewrites (src/logic.cpp). The node
 * tests, `noOr`, `noAndAboveOr`, `isNNF`, `isDNF` and `distributeAndOr` are
 * the same code as in the current revision and are shared with it; `toNNF`
 * differs, since De Morgan's laws here always wrap each operand in a new
 * negation, and with it `NNFtoDNF` and `toDNF`.
 */
module LegacyLogic {
  import opened Expressions
  import opened Logic

  /**
   * `toNNF`: a double negation at the root is dropped; a negated disjunction
   * or conjunction becomes the dual operator over the negations of the
   * rewritten operands. The result keeps the meaning and the number of
   * AND/OR nodes, and its root is never a negation of a non-literal.
   */
  function ToNNF(e: Expr): (r: Expr)
    ensures forall env :: Eval(r, env) == Eval(e, env)
    ensures BinCount(r) == BinCount(e)
    ensures IsNegation(r) ==> IsAtomic(r.scope)
  {
    match e
    case Lit(_) => e
    case Not(x) =>
      (match x
       case Lit(_) => e
       case Not(y) => ToNNF(y)
       case Or(a, b) =>
         var na, nb := ToNNF(a), ToNNF(b);
         assert forall env :: Eval(na, env) == Eval(a, env) && Eval(nb, env) == Eval(b, env);
         assert forall env :: Eval(e, env) == !(Eval(a, env) || Eval(b, env));
         And(Not(na), Not(nb))
       case And(a, b) =>
         var na, nb := ToNNF(a), ToNNF(b);
         assert forall env :: Eval(na, env) == Eval(a, env) && Eval(nb, env) == Eval(b, env);
         assert forall env :: Eval(e, env) == !(Eval(a, env) && Eval(b, env));
         Or(Not(na), Not(nb)))
    case Or(l, r) => Or(ToNNF(l), ToNNF(r))
    case And(l, r) => And(ToNNF(l), ToNNF(r))
  }

  /** A tree already in negation normal form comes back unchanged. */
  lemma {:induction false} ToNNFKeepsNNF(e: Expr)
    requires IsNNF(e)
    ensures ToNNF(e) == e
  {
    match e
    case Lit(_) =>
    case Not(_) =>
    case Or(l, r) =>
      ToNNFKeepsNNF(l);
      ToNNFKeepsNNF(r);
    case And(l, r) =>
      ToNNFKeepsNNF(l);
      ToNNFKeepsNNF(r);
  }

  /**
   * `!(!x | y)` becomes `!!x & !y`: a double negation below the root
   * survives (the current revision gives `x & !y`), and `toDNF` still
   * reaches `x & !y`.
   */
  lemma DoubleNegationSurvives(x: string, y: string)
    ensures ToNNF(Not(Or(Not(Lit(x)), Lit(y)))) == And(Not(Not(Lit(x))), Not(Lit(y)))
    ensures !IsNNF(ToNNF(Not(Or(Not(Lit(x)), Lit(y)))))
    ensures Logic.ToNNF(Not(Or(Not(Lit(x)), Lit(y)))) == And(Lit(x), Not(Lit(y)))
    ensures ToDNF(Not(Or(Not(Lit(x)), Lit(y)))) == And(Lit(x), Not(Lit(y)))
  {
    assert ToNNF(Not(Lit(x))) == Not(Lit(x));
    assert ToNNF(Not(Not(Lit(x)))) == ToNNF(Lit(x)) == Lit(x);
    assert ToDNF(Not(Not(Lit(x)))) == NNFtoDNF(Lit(x)) == Lit(x);
    assert ToDNF(Not(Lit(y))) == Not(Lit(y));
  }

  /**
   * `NNFtoDNF`: literals and negations are returned as they are; a
   * disjunction normalises both sides; a conjunction normalises both sides and
   * distributes. On a tree whose root is not a negation of a non-literal the
   * result is in DNF; it always keeps the meaning.
   */
  function NNFtoDNF(e: Expr): (r: Expr)
    ensures forall env :: Eval(r, env) == Eval(e, env)
    ensures !(IsNegation(e) && !IsAtomic(e.scope)) ==> IsDNF(r)
    ensures IsAtomic(e) || IsNegation(e) ==> r == e
    decreases BinCount(e), 0
  {
    match e
    case Lit(_) => e
    case Not(x) =>
      assert IsAtomic(x) ==> NoAndAboveOr(x);
      e
    case Or(l, r) => Or(ToDNF(l), ToDNF(r))
    case And(l, r) => DistributeAndOr(ToDNF(l), ToDNF(r))
  }

  /** `toDNF`: the DNF of `toNNF(e)`; always in DNF and equivalent to `e`. */
  function ToDNF(e: Expr): (r: Expr)
    ensures forall env :: Eval(r, env) == Eval(e, env)
    ensures IsDNF(r)
    decreases BinCount(e), 1
  {
    NNFtoDNF(ToNNF(e))
  }

  /** A tree in DNF comes back unchanged from `toDNF`. */
  lemma {:induction false} ToDNFKeepsDNF(e: Expr)
    requires IsDNF(e)
    ensures ToDNF(e) == e
  {
    ToNNFKeepsNNF(e);
    match e
    case Lit(_) =>
    case Not(_) =>
    case Or(l, r) =>
      ToDNFKeepsDNF(l);
      ToDNFKeepsDNF(r);
    case And(l, r) =>
      NoOrNoAndAboveOr(l);
      NoOrNoAndAboveOr(r);
      ToDNFKeepsDNF(l);
      ToDNFKeepsDNF(r);
  }

  /** Hence `toDNF` is idempotent. */
  lemma ToDNFIdempotent(e: Expr)
    ensures ToDNF(ToDNF(e)) == ToDNF(e)
  {
    ToDNFKeepsDNF(ToDNF(e));
  }

  /** Both revisions of `toDNF` agree on every tree already in DNF. */
  lemma ToDNFRevisionsAgreeOnDNF(e: Expr)
    requires IsDNF(e)
    ensures ToDNF(e) == Logic.ToDNF(e) == e
  {
    ToDNFKeepsDNF(e);
    Logic.ToDNFKeepsDNF(e);
  }
}
