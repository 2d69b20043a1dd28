/** Constant folding (tree_transform.h): a binary node whose operands both
    fold to numbers is replaced, in place, by a literal holding the combined
    value. Both operands are always visited; negations, variables, function
    invocations and placeholders are left alone and not descended into.

    `Fold` states what folding yields for a tree; `ApplyTransform` performs it
    on a node held by reference, as the source does. */
module TreeTransform {
  import opened Errors
  import opened Arithmetic
  import opened Tree
  import opened Calculator

  /** The rewritten tree and the `boost::optional` value the fold returns. */
  datatype Folding<N> = Folding(tree: Expr<N>, value: Option<N>)

  /** The fold rule shared by the five binary node kinds (tree_transform.h:42-113). */
  function FoldBinary<N>(ops: NumOps<N>, e: Expr<N>): Folding<N>
    requires IsBinary(e)
    decreases e, 0
  {
    var l := Fold(ops, e.lhs);
    var r := Fold(ops, e.rhs);
    if l.value.Some? && r.value.Some? then
      var v := Operator(ops, e)(l.value.value, r.value.value);
      Folding(Literal(v), Some(v))
    else
      Folding(WithOperands(e, l.tree, r.tree), None)
  }

  /** apply_transform<tree_fold> (tree_transform.h:27-32, 34-119). */
  function Fold<N>(ops: NumOps<N>, e: Expr<N>): Folding<N>
    decreases e, 1
  {
    match e
    case Literal(n) => Folding(e, Some(n))
    case Add(_, _) => FoldBinary(ops, e)
    case Subtract(_, _) => FoldBinary(ops, e)
    case Multiply(_, _) => FoldBinary(ops, e)
    case Divide(_, _) => FoldBinary(ops, e)
    case Exponentiate(_, _) => FoldBinary(ops, e)
    case _ => Folding(e, None)
  }

  /** Literals combined by binary operators only. */
  predicate Constant<N>(e: Expr<N>) {
    if e.Literal? then true
    else if IsBinary(e) then Constant(e.lhs) && Constant(e.rhs)
    else false
  }

  /** Nothing left to fold: no binary node reached through binary nodes has
      two literal operands. */
  predicate Folded<N>(e: Expr<N>) {
    if IsBinary(e) then Folded(e.lhs) && Folded(e.rhs) && !(e.lhs.Literal? && e.rhs.Literal?)
    else true
  }

  /** Folding yields a value exactly for constant trees, and then the tree
      has become the literal holding it. */
  lemma {:induction false} FoldValueIffConstant<N>(ops: NumOps<N>, e: Expr<N>)
    ensures Fold(ops, e).value.Some? <==> Constant(e)
    ensures Fold(ops, e).value.Some? ==> Fold(ops, e).tree == Literal(Fold(ops, e).value.value)
  {
    if IsBinary(e) {
      FoldValueIffConstant(ops, e.lhs);
      FoldValueIffConstant(ops, e.rhs);
    }
  }

  /** The folded value is what the original tree evaluates to, in every
      environment. */
  lemma {:induction false} FoldValueSound<N>(ops: NumOps<N>, env: map<string, N>, e: Expr<N>)
    requires Fold(ops, e).value.Some?
    ensures Eval(ops, env, e) == Ok(Fold(ops, e).value.value)
  {
    if IsBinary(e) {
      FoldValueSound(ops, env, e.lhs);
      FoldValueSound(ops, env, e.rhs);
      assert Eval(ops, env, e) == EvalBinary(ops, env, e);
    }
  }

  /** Folding may be skipped: the folded tree evaluates exactly as the
      original does, value or error, in every environment. */
  lemma {:induction false} FoldPreservesEval<N>(ops: NumOps<N>, env: map<string, N>, e: Expr<N>)
    ensures Eval(ops, env, Fold(ops, e).tree) == Eval(ops, env, e)
  {
    if IsBinary(e) {
      FoldPreservesEval(ops, env, e.lhs);
      FoldPreservesEval(ops, env, e.rhs);
      var l, r := Fold(ops, e.lhs), Fold(ops, e.rhs);
      if l.value.Some? && r.value.Some? {
        FoldValueSound(ops, env, e);
      } else {
        var t := WithOperands(e, l.tree, r.tree);
        assert Eval(ops, env, t) == EvalBinary(ops, env, t);
        assert Eval(ops, env, e) == EvalBinary(ops, env, e);
      }
    }
  }

  /** Folding leaves nothing to fold. */
  lemma {:induction false} FoldLeavesFolded<N>(ops: NumOps<N>, e: Expr<N>)
    ensures Folded(Fold(ops, e).tree)
  {
    if IsBinary(e) {
      FoldLeavesFolded(ops, e.lhs);
      FoldLeavesFolded(ops, e.rhs);
      FoldValueIffConstant(ops, e.lhs);
      FoldValueIffConstant(ops, e.rhs);
    }
  }

  /** The trees folding leaves unchanged are exactly those with nothing left
      to fold. */
  lemma {:induction false} FoldFixpointIff<N>(ops: NumOps<N>, e: Expr<N>)
    ensures Fold(ops, e).tree == e <==> Folded(e)
  {
    if IsBinary(e) {
      FoldFixpointIff(ops, e.lhs);
      FoldFixpointIff(ops, e.rhs);
      FoldValueIffConstant(ops, e.lhs);
      FoldValueIffConstant(ops, e.rhs);
      var l, r := Fold(ops, e.lhs), Fold(ops, e.rhs);
      if !Folded(e) && Fold(ops, e).tree == e {
        FoldLeavesFolded(ops, e);
      }
    }
  }

  /** Folding twice is folding once: same tree and same result. */
  lemma {:induction false} FoldIdempotent<N>(ops: NumOps<N>, e: Expr<N>)
    ensures Fold(ops, Fold(ops, e).tree) == Fold(ops, e)
  {
    if IsBinary(e) {
      FoldIdempotent(ops, e.lhs);
      FoldIdempotent(ops, e.rhs);
    }
  }

  /** A negation is not descended into, while both operands of a binary node
      are folded even when only one of them is constant. */
  lemma FoldExamples<N>(ops: NumOps<N>, a: N, b: N)
    ensures Fold(ops, Negate(Add(Literal(a), Literal(b)))) == Folding(Negate(Add(Literal(a), Literal(b))), None)
    ensures Fold(ops, Add(Var("x"), Add(Literal(a), Literal(b))))
         == Folding(Add(Var("x"), Literal(ops.add(a, b))), None)
    ensures Fold(ops, Multiply(Add(Literal(a), Literal(b)), Literal(b)))
         == Folding(Literal(ops.mul(ops.add(a, b), b)), Some(ops.mul(ops.add(a, b), b)))
  {
    var sum := Add(Literal(a), Literal(b));
    assert Fold(ops, sum.lhs) == Folding(Literal(a), Some(a));
    assert Fold(ops, sum.rhs) == Folding(Literal(b), Some(b));
    assert Operator(ops, sum) == ops.add;
    assert Fold(ops, sum) == FoldBinary(ops, sum);
    assert Fold(ops, sum) == Folding(Literal(ops.add(a, b)), Some(ops.add(a, b)));
    assert Fold(ops, Var("x")) == Folding(Var("x"), None);
    assert Fold(ops, Literal(b)) == Folding(Literal(b), Some(b));
  }

  /** A `t_expression&`: the place in its parent where a node lives. */
  class Slot<N> {
    var node: Expr<N>

    constructor(e: Expr<N>)
      ensures node == e
    {
      node := e;
    }
  }

  /** apply_transform<tree_fold> on the node held by `slot`
      (tree_transform.h:27-32, 38-41, 114-118). */
  method ApplyTransform<N>(ops: NumOps<N>, slot: Slot<N>) returns (r: Option<N>)
    modifies slot
    ensures slot.node == Fold(ops, old(slot.node)).tree
    ensures r == Fold(ops, old(slot.node)).value
    decreases slot.node, 1
  {
    match slot.node
    case Literal(n) =>
      r := Some(n);
    case Add(_, _) =>
      r := FoldBinaryInPlace(ops, slot);
    case Subtract(_, _) =>
      r := FoldBinaryInPlace(ops, slot);
    case Multiply(_, _) =>
      r := FoldBinaryInPlace(ops, slot);
    case Divide(_, _) =>
      r := FoldBinaryInPlace(ops, slot);
    case Exponentiate(_, _) =>
      r := FoldBinaryInPlace(ops, slot);
    case _ =>
      r := None;
  }

  /** The binary operator() overloads of tree_fold (tree_transform.h:42-113):
      fold both operands where they live, then overwrite the node with the
      combined literal when both gave a value. */
  method FoldBinaryInPlace<N>(ops: NumOps<N>, slot: Slot<N>) returns (r: Option<N>)
    requires IsBinary(slot.node)
    modifies slot
    ensures slot.node == Fold(ops, old(slot.node)).tree
    ensures r == Fold(ops, old(slot.node)).value
    decreases slot.node, 0
  {
    var left := new Slot(slot.node.lhs);
    var right := new Slot(slot.node.rhs);
    var lhs := ApplyTransform(ops, left);
    var rhs := ApplyTransform(ops, right);
    slot.node := WithOperands(slot.node, left.node, right.node);
    if lhs.Some? && rhs.Some? {
      var result := Operator(ops, slot.node)(lhs.value, rhs.value);
      slot.node := Literal(result);
      r := Some(result);
    } else {
      r := None;
    }
  }
}
