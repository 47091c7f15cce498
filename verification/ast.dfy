/**
 The abstract syntax tree the compiler and the expression collapse consume
 (src/ast.hpp). Source positions are omitted: they only feed diagnostics.
 */
module Ast {
  import opened Wrappers

  /** `ast::optoken`: one enumeration shared by binary and unary operators. */
  datatype OpToken =
    | Plus | Minus | Times | Divide | Modulo
    | Positive | Negative | LogicalNot | BitwiseNot
    | ShiftLeft | ShiftRight
    | Equal | NotEqual | Less | LessEqual | Greater | GreaterEqual
    | BitwiseAnd | BitwiseXor | BitwiseOr
    | LogicalAnd | LogicalOr

  /**
   `ast::operand` without its `nil` alternative (visiting `nil` is an
   assertion failure, so a finished tree never holds one). An `Expression`
   is a chain `first op1 o1 op2 o2 …` of one precedence tier.
   */
  datatype Operand =
    | Literal(value: int)
    | Variable(name: string)
    | Unary(op: OpToken, operand: Operand)
    | Expression(first: Operand, rest: seq<Operation>)

  /** `ast::operation`: one `op operand` link of a chain. */
  datatype Operation = Operation(op: OpToken, operand: Operand)

  /**
   `ast::statement` restricted to the forms the compiler lowers. A
   declaration is a name with a mandatory initializer: that is what the
   compiler reads (`variable_declaration.assign.{lhs, rhs}`).
   */
  datatype Statement =
    | VarDecl(name: string, init: Operand)
    | Assign(lhs: string, rhs: Operand)
    | If(cond: Operand, thn: StatementList, els: Option<StatementList>)
    | While(cond: Operand, body: StatementList)
    | Block(block: StatementList)

  /** `ast::statement_list`, also the whole program (`ast::program`). */
  datatype StatementList = StatementList(stmts: seq<Statement>)

  /** The tokens `ast::operation` may carry. */
  predicate IsBinaryToken(t: OpToken) {
    !IsUnaryToken(t)
  }

  /** The tokens `ast::unary` may carry. */
  predicate IsUnaryToken(t: OpToken) {
    t.Positive? || t.Negative? || t.LogicalNot? || t.BitwiseNot?
  }

  /** Number of nodes of an operand; bounds its evaluation depth. */
  function NodeCount(e: Operand): nat
  {
    match e
    case Literal(_) => 1
    case Variable(_) => 1
    case Unary(_, o) => 1 + NodeCount(o)
    case Expression(first, rest) => 1 + NodeCount(first) + RestNodeCount(rest)
  }

  function RestNodeCount(rest: seq<Operation>): nat
  {
    if rest == [] then 0 else OperationNodeCount(rest[0]) + RestNodeCount(rest[1..])
  }

  function OperationNodeCount(o: Operation): nat
  {
    1 + NodeCount(o.operand)
  }
}
