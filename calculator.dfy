/** The evaluator of calculator.h: a structural recursion over an expression
    against a read-only map from variable names to values, and the session
    state whose map a variable definition updates. */
module Calculator {
  import opened Errors
  import opened Arithmetic
  import opened Tree

  /** The message of the std::logic_error thrown for a placeholder (calculator.h:62). */
  const PlaceholderMessage := "t_arg_placeholder encountered while evaluating expression"

  /** The operation a binary node applies to its operands' values (calculator.h:72-91). */
  function Operator<N>(ops: NumOps<N>, e: Expr<N>): (N, N) -> N
    requires IsBinary(e)
  {
    match e
    case Add(_, _) => ops.add
    case Subtract(_, _) => ops.sub
    case Multiply(_, _) => ops.mul
    case Divide(_, _) => ops.div
    case Exponentiate(_, _) => ops.pow
  }

  /** Both operands, the left one first, then the operation. */
  function EvalBinary<N>(ops: NumOps<N>, env: map<string, N>, e: Expr<N>): Result<N>
    requires IsBinary(e)
    decreases e, 0
  {
    var a :- Eval(ops, env, e.lhs);
    var b :- Eval(ops, env, e.rhs);
    Ok(Operator(ops, e)(a, b))
  }

  /** eval_expression_tree (calculator.h:34-95). The environment is a value,
      so evaluation cannot change it. */
  function Eval<N>(ops: NumOps<N>, env: map<string, N>, e: Expr<N>): Result<N>
    decreases e, 1
  {
    match e
    case Literal(n) => Ok(n)
    case Var(name) => if name in env then Ok(env[name]) else Err(EvalError("Undefined variable"))
    case Placeholder(_) => Err(LogicError(PlaceholderMessage))
    case Call(_, _) => Err(EvalError("Unimplemented"))
    case Negate(a) =>
      var v :- Eval(ops, env, a);
      Ok(ops.neg(v))
    case Add(_, _) => EvalBinary(ops, env, e)
    case Subtract(_, _) => EvalBinary(ops, env, e)
    case Multiply(_, _) => EvalBinary(ops, env, e)
    case Divide(_, _) => EvalBinary(ops, env, e)
    case Exponentiate(_, _) => EvalBinary(ops, env, e)
  }

  /** The names evaluation may look up: those of the variable nodes that are
      reached without passing through a function invocation. */
  function Vars<N>(e: Expr<N>): set<string> {
    match e
    case Literal(_) => {}
    case Var(name) => {name}
    case Call(_, _) => {}
    case Placeholder(_) => {}
    case Negate(a) => Vars(a)
    case Add(l, r) => Vars(l) + Vars(r)
    case Subtract(l, r) => Vars(l) + Vars(r)
    case Multiply(l, r) => Vars(l) + Vars(r)
    case Divide(l, r) => Vars(l) + Vars(r)
    case Exponentiate(l, r) => Vars(l) + Vars(r)
  }

  /** Every variable reached is bound and no reserved node (function
      invocation or placeholder) is reached. */
  predicate Evaluable<N>(env: map<string, N>, e: Expr<N>) {
    match e
    case Literal(_) => true
    case Var(name) => name in env
    case Call(_, _) => false
    case Placeholder(_) => false
    case Negate(a) => Evaluable(env, a)
    case Add(l, r) => Evaluable(env, l) && Evaluable(env, r)
    case Subtract(l, r) => Evaluable(env, l) && Evaluable(env, r)
    case Multiply(l, r) => Evaluable(env, l) && Evaluable(env, r)
    case Divide(l, r) => Evaluable(env, l) && Evaluable(env, r)
    case Exponentiate(l, r) => Evaluable(env, l) && Evaluable(env, r)
  }

  /** Evaluation succeeds exactly on the trees whose variables are all bound
      and that reach no function invocation or placeholder. */
  lemma {:induction false} EvalSucceedsIff<N>(ops: NumOps<N>, env: map<string, N>, e: Expr<N>)
    ensures Eval(ops, env, e).Ok? <==> Evaluable(env, e)
  {
    match e
    case Negate(a) => EvalSucceedsIff(ops, env, a);
    case Add(l, r) => EvalSucceedsIff(ops, env, l); EvalSucceedsIff(ops, env, r);
    case Subtract(l, r) => EvalSucceedsIff(ops, env, l); EvalSucceedsIff(ops, env, r);
    case Multiply(l, r) => EvalSucceedsIff(ops, env, l); EvalSucceedsIff(ops, env, r);
    case Divide(l, r) => EvalSucceedsIff(ops, env, l); EvalSucceedsIff(ops, env, r);
    case Exponentiate(l, r) => EvalSucceedsIff(ops, env, l); EvalSucceedsIff(ops, env, r);
    case _ =>
  }

  /** The only failures are an unbound variable, a function invocation
      (an eval_error, not a logic error) and a placeholder (a logic error). */
  lemma {:induction false} EvalErrors<N>(ops: NumOps<N>, env: map<string, N>, e: Expr<N>)
    requires Eval(ops, env, e).Err?
    ensures Eval(ops, env, e).error in
      {EvalError("Undefined variable"), EvalError("Unimplemented"), LogicError(PlaceholderMessage)}
    decreases e, 1
  {
    match e
    case Negate(a) => EvalErrors(ops, env, a);
    case Add(l, r) => EvalErrorsBinary(ops, env, e);
    case Subtract(l, r) => EvalErrorsBinary(ops, env, e);
    case Multiply(l, r) => EvalErrorsBinary(ops, env, e);
    case Divide(l, r) => EvalErrorsBinary(ops, env, e);
    case Exponentiate(l, r) => EvalErrorsBinary(ops, env, e);
    case _ =>
  }

  lemma {:induction false} EvalErrorsBinary<N>(ops: NumOps<N>, env: map<string, N>, e: Expr<N>)
    requires IsBinary(e) && EvalBinary(ops, env, e).Err?
    ensures EvalBinary(ops, env, e).error in
      {EvalError("Undefined variable"), EvalError("Unimplemented"), LogicError(PlaceholderMessage)}
    decreases e, 0
  {
    if Eval(ops, env, e.lhs).Err? {
      EvalErrors(ops, env, e.lhs);
    } else {
      EvalErrors(ops, env, e.rhs);
    }
  }

  /** Two environments that agree on the variables of `e` give `e` the same
      value (or the same error). */
  lemma {:induction false} EvalLocal<N>(ops: NumOps<N>, env1: map<string, N>, env2: map<string, N>, e: Expr<N>)
    requires forall x :: x in Vars(e) ==> (x in env1 <==> x in env2)
    requires forall x :: x in Vars(e) && x in env1 && x in env2 ==> env1[x] == env2[x]
    ensures Eval(ops, env1, e) == Eval(ops, env2, e)
  {
    match e
    case Negate(a) => EvalLocal(ops, env1, env2, a);
    case Add(l, r) => EvalLocal(ops, env1, env2, l); EvalLocal(ops, env1, env2, r);
    case Subtract(l, r) => EvalLocal(ops, env1, env2, l); EvalLocal(ops, env1, env2, r);
    case Multiply(l, r) => EvalLocal(ops, env1, env2, l); EvalLocal(ops, env1, env2, r);
    case Divide(l, r) => EvalLocal(ops, env1, env2, l); EvalLocal(ops, env1, env2, r);
    case Exponentiate(l, r) => EvalLocal(ops, env1, env2, l); EvalLocal(ops, env1, env2, r);
    case _ =>
  }

  /** The environment after `define name = val`, or the error that leaves
      it as it was: the value is computed against the old environment
      before anything is written (calculator.h:97-102). */
  function Define<N>(ops: NumOps<N>, env: map<string, N>, name: string, val: Expr<N>): Result<map<string, N>> {
    var v :- Eval(ops, env, val);
    Ok(env[name := v])
  }

  /** A definition binds its name to the value of its expression in the old
      environment, leaves every other binding alone, and fails exactly when
      evaluation fails, with the same error. */
  lemma DefineFrame<N>(ops: NumOps<N>, env: map<string, N>, name: string, val: Expr<N>)
    ensures Define(ops, env, name, val).Ok? <==> Eval(ops, env, val).Ok?
    ensures Define(ops, env, name, val).Err? ==> Define(ops, env, name, val).error == Eval(ops, env, val).error
    ensures Define(ops, env, name, val).Ok? ==>
      var env' := Define(ops, env, name, val).value;
      && env'.Keys == env.Keys + {name}
      && env'[name] == Eval(ops, env, val).value
      && forall x :: x in env && x != name ==> env'[x] == env[x]
  {
  }

  /** `define x = x + 1` reads the old binding of x. */
  lemma DefineReadsOldValue<N>(ops: NumOps<N>, env: map<string, N>, x: string, one: N)
    requires x in env
    ensures Define(ops, env, x, Add(Var(x), Literal(one))) == Ok(env[x := ops.add(env[x], one)])
  {
    var e := Add(Var(x), Literal(one));
    assert Eval(ops, env, e.lhs) == Ok(env[x]);
    assert Eval(ops, env, e.rhs) == Ok(one);
    assert Eval(ops, env, e) == Ok(ops.add(env[x], one));
  }

  /** Defining a name the expression does not mention leaves its value alone. */
  lemma EvalAfterUnrelatedDefine<N>(ops: NumOps<N>, env: map<string, N>, name: string, val: Expr<N>, e: Expr<N>)
    requires name !in Vars(e)
    requires Define(ops, env, name, val).Ok?
    ensures Eval(ops, Define(ops, env, name, val).value, e) == Eval(ops, env, e)
  {
    EvalLocal(ops, Define(ops, env, name, val).value, env, e);
  }

  /** calculator_state (calculator.h:14-18), the session's variable bindings. */
  class CalculatorState<N> {
    var variables: map<string, N>

    constructor()
      ensures variables == map[]
    {
      variables := map[];
    }

    /** process_variable_definition (calculator.h:97-102): the map is
        written only after the value has been computed. */
    method ProcessVariableDefinition(ops: NumOps<N>, t: Statement<N>) returns (o: Outcome)
      requires t.VarDefinition?
      modifies this
      ensures match Define(ops, old(variables), t.name, t.val)
              case Ok(env) => o == Pass && variables == env
              case Err(e) => o == Fail(e) && variables == old(variables)
    {
      var n := Eval(ops, variables, t.val);
      if n.Err? {
        return Fail(n.error);
      }
      variables := variables[t.name := n.value];
      o := Pass;
    }

    /** The dispatch of main.cpp:37-47: an expression is evaluated, a
        variable definition processed, and a function definition is a
        logic error. */
    method Execute(ops: NumOps<N>, t: Statement<N>) returns (r: Result<Option<N>>)
      modifies this
      ensures t.Expression? ==>
        && variables == old(variables)
        && r == match Eval(ops, old(variables), t.expr)
                case Ok(v) => Ok(Some(v))
                case Err(e) => Err(e)
      ensures t.VarDefinition? ==>
        match Define(ops, old(variables), t.name, t.val)
        case Ok(env) => r == Ok(None) && variables == env
        case Err(e) => r == Err(e) && variables == old(variables)
      ensures t.FuncDefinition? ==> r == Err(LogicError("Unimplemented")) && variables == old(variables)
    {
      var kind := IdentifyStatement(t);
      if kind == ExpressionKind {
        var v := Eval(ops, variables, t.expr);
        if v.Err? {
          return Err(v.error);
        }
        r := Ok(Some(v.value));
      } else if kind == VarDefinitionKind {
        var o := ProcessVariableDefinition(ops, t);
        if o.Fail? {
          return Err(o.error);
        }
        r := Ok(None);
      } else {
        r := Err(LogicError("Unimplemented"));
      }
    }
  }
}
