/**
 * The expression tree of the search-query language (src/expression.cpp and the
 * headers next to it).
 *
 * The pipeline treats a tree as an immutable value: `Expr` is a literal, a
 * negation of one child, or a conjunction/disjunction of two children.  The
 * self-copy child that the parsers attach to literal nodes is never read and is
 * dropped here.  The mutable node container of src/expression.cpp, whose
 * `addOperand`/`addOperands` push onto a child vector, is the class
 * `Expression` below; its children are stored as `Expr` values.
 */
module Expressions {

  datatype Option<T> = None | Some(value: T)

  /** The operator tag of a node (`enum class Operator { NOT, AND, OR, NIL }`). */
  datatype Operator = NotOp | AndOp | OrOp | NilOp

  datatype Expr =
    | Lit(literal: string)
    | Not(scope: Expr)
    | And(lhs: Expr, rhs: Expr)
    | Or(lhs: Expr, rhs: Expr)
  {
    /** `op()`: the operator tag; a literal carries NIL. */
    function Op(): Operator {
      match this
      case Lit(_) => NilOp
      case Not(_) => NotOp
      case And(_, _) => AndOp
      case Or(_, _) => OrOp
    }

    /** `literal()`: the text of a literal node; operator nodes are built with "". */
    function Text(): string {
      if Lit? then literal else ""
    }
  }

  /** Truth value of `e` when every literal `s` has the truth value `env(s)`. */
  function Eval(e: Expr, env: string -> bool): bool {
    match e
    case Lit(s) => env(s)
    case Not(x) => !Eval(x, env)
    case And(l, r) => Eval(l, env) && Eval(r, env)
    case Or(l, r) => Eval(l, env) || Eval(r, env)
  }

  /** Number of AND/OR nodes: the measure that the DNF rewriting decreases. */
  function BinCount(e: Expr): nat {
    match e
    case Lit(_) => 0
    case Not(x) => BinCount(x)
    case And(l, r) => BinCount(l) + BinCount(r) + 1
    case Or(l, r) => BinCount(l) + BinCount(r) + 1
  }

  /** `print`: fully parenthesised surface syntax (src/expression.cpp:29-45). */
  function Print(e: Expr): string {
    match e
    case Lit(s) => s
    case And(l, r) => "(" + Print(l) + " & " + Print(r) + ")"
    case Or(l, r) => "(" + Print(l) + " | " + Print(r) + ")"
    case Not(x) => "!" + Print(x)
  }

  /**
   * The node container of src/expression.cpp: an operator tag, a literal and a
   * vector of children that `addOperand`/`addOperands` grow in place.
   */
  class Expression {
    var op: Operator
    var literal: string
    var children: seq<Expr>

    /** `Expression()`: a NIL node with an empty literal and no children. */
    constructor ()
      ensures op == NilOp && literal == "" && children == []
      ensures Value() == Some(Lit(""))
    {
      op := NilOp;
      literal := "";
      children := [];
    }

    /**
     * `Expression(op, literal, children)`: the children argument is ignored
     * as written, so the node always starts without children.
     */
    constructor WithOperator(op: Operator, literal: string, ignored: seq<Expr>)
      ensures this.op == op && this.literal == literal
      ensures ChildCount() == 0
    {
      this.op := op;
      this.literal := literal;
      children := [];
    }

    /** `childCount()`. */
    function ChildCount(): (n: nat)
      reads this
      ensures n == |children|
    {
      |children|
    }

    /** `child(pos)`: `children.at(pos)` throws outside the range, so callers stay inside it. */
    function Child(pos: int): (c: Expr)
      reads this
      requires 0 <= pos < ChildCount()
      ensures c in children
    {
      children[pos]
    }

    /**
     * The tree this node stands for, when it has as many children as its
     * operator reads (`lhs()`/`rhs()`/`scope()` are children 0 and 1).
     */
    function Value(): (v: Option<Expr>)
      reads this
      ensures v.Some? ==> v.value.Op() == op
      ensures op == NilOp ==> v == Some(Lit(literal))
    {
      match op
      case NilOp => Some(Lit(literal))
      case NotOp => if |children| >= 1 then Some(Not(children[0])) else None
      case AndOp => if |children| >= 2 then Some(And(children[0], children[1])) else None
      case OrOp => if |children| >= 2 then Some(Or(children[0], children[1])) else None
    }

    /**
     * `addOperand` (both overloads): append one child, keeping the others.
     * The shared-pointer overload shares the child object and the reference
     * overload copies it; as a value the two are the same.
     */
    method AddOperand(e: Expr)
      modifies this`children
      ensures ChildCount() == old(ChildCount()) + 1
      ensures children[..old(ChildCount())] == old(children)
      ensures Child(ChildCount() - 1) == e
    {
      children := children + [e];
    }

    /** `addOperands`: append the given expressions one by one, in order. */
    method AddOperands(es: seq<Expr>)
      modifies this`children
      ensures ChildCount() == old(ChildCount()) + |es|
      ensures children == old(children) + es
    {
      for i := 0 to |es|
        invariant children == old(children) + es[..i]
      {
        children := children + [es[i]];
      }
      assert es[..|es|] == es;
    }
  }

  /**
   * How the rewriting code of src/logic.cpp builds a binary node: a node
   * created with just its operator, then `addOperands({lhs, rhs})`.
   */
  method BuildBinary(op: Operator, lhs: Expr, rhs: Expr) returns (node: Expression)
    requires op == AndOp || op == OrOp
    ensures fresh(node)
    ensures node.Value() == Some(if op == AndOp then And(lhs, rhs) else Or(lhs, rhs))
  {
    node := new Expression.WithOperator(op, "", []);
    node.AddOperands([lhs, rhs]);
  }
}
