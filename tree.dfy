/** The abstract syntax tree of tree.h: an expression is one of ten
    alternatives (the boost::variant of tree.h:76-88, in that order) and a
    statement one of three (tree.h:145-150). Every node owns its children. */
module Tree {

  /** `unsigned int`, the type of placeholder indices and arities. */
  newtype uint32 = x: int | 0 <= x < 0x1_0000_0000

  datatype Expr<N> =
    | Literal(value: N)                          // NumType
    | Var(name: string)                          // t_var_occurrance
    | Call(name: string, args: seq<Expr<N>>)     // t_func_invocation
    | Placeholder(index: uint32)                 // t_arg_placeholder
    | Negate(operand: Expr<N>)                   // t_negate (one operand)
    | Add(lhs: Expr<N>, rhs: Expr<N>)            // t_add, ops[0] and ops[1]
    | Subtract(lhs: Expr<N>, rhs: Expr<N>)       // t_subtract
    | Multiply(lhs: Expr<N>, rhs: Expr<N>)       // t_multiply
    | Divide(lhs: Expr<N>, rhs: Expr<N>)         // t_divide
    | Exponentiate(lhs: Expr<N>, rhs: Expr<N>)   // t_exponentiate

  /** The five alternatives built on t_binary_op. */
  predicate IsBinary<N>(e: Expr<N>) {
    e.Add? || e.Subtract? || e.Multiply? || e.Divide? || e.Exponentiate?
  }

  /** The binary node of the same kind as `e` with operands `l` and `r`. */
  function WithOperands<N>(e: Expr<N>, l: Expr<N>, r: Expr<N>): (b: Expr<N>)
    requires IsBinary(e)
    ensures IsBinary(b) && b.lhs == l && b.rhs == r
    ensures b.Add? == e.Add? && b.Subtract? == e.Subtract? && b.Multiply? == e.Multiply?
    ensures b.Divide? == e.Divide? && b.Exponentiate? == e.Exponentiate?
  {
    match e
    case Add(_, _) => Add(l, r)
    case Subtract(_, _) => Subtract(l, r)
    case Multiply(_, _) => Multiply(l, r)
    case Divide(_, _) => Divide(l, r)
    case Exponentiate(_, _) => Exponentiate(l, r)
  }

  datatype Statement<N> =
    | Expression(expr: Expr<N>)                                // t_expression
    | VarDefinition(name: string, val: Expr<N>)                // t_var_definition
    | FuncDefinition(name: string, arity: uint32, val: Expr<N>) // t_func_definition

  /** statement_type (tree.h:152-157). */
  datatype StatementType = ExpressionKind | VarDefinitionKind | FuncDefinitionKind

  /** boost::variant::which(): the position of the active alternative. */
  function Which<N>(t: Statement<N>): nat {
    match t
    case Expression(_) => 0
    case VarDefinition(_, _) => 1
    case FuncDefinition(_, _, _) => 2
  }

  /** identify_statement (tree.h:159-171): the alternatives map, in
      declaration order, to the three statement types. */
  function IdentifyStatement<N>(t: Statement<N>): (k: StatementType)
    ensures k == ExpressionKind <==> t.Expression?
    ensures k == VarDefinitionKind <==> t.VarDefinition?
    ensures k == FuncDefinitionKind <==> t.FuncDefinition?
  {
    match Which(t)
    case 0 => ExpressionKind
    case 1 => VarDefinitionKind
    case _ => FuncDefinitionKind
  }
}
