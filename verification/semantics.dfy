/**
 A reference meaning for the language the compiler accepts, written
 directly over the syntax tree and independent of the bytecode: operands
 evaluate with the C++ `int` operators of `CppInt` (undefined behaviour is
 `None`), a chain is a left fold, and statements update an environment
 from names to values. A `while` loop spends one unit of fuel per
 iteration, so `None` also stands for "did not finish within the fuel".

 The environment holds the names whose declaration has executed. A name
 declared in a branch that did not run is in the compiler's table but not
 in the environment, and reading it has no meaning here.
 */
module Semantics {
  import opened Wrappers
  import opened CppInt
  import opened Ast
  import opened Collapse

  type Env = map<string, int>

  /** The C++ meaning of a unary token applied to `x`. */
  function UnaryValue(t: OpToken, x: int): (r: Option<int>)
    ensures r.Some? ==> IsUnaryToken(t)
  {
    match t
    case Positive => Some(x)
    case Negative => Neg(x)
    case LogicalNot => Some(FromBool(x == 0))
    case BitwiseNot => Some(BitNot(x))
    case _ => None
  }

  /** The C++ meaning of a binary token applied to `a` and `b`. */
  function BinaryValue(t: OpToken, a: int, b: int): (r: Option<int>)
    ensures r.Some? ==> IsBinaryToken(t)
  {
    match t
    case Plus => Add(a, b)
    case Minus => Sub(a, b)
    case Times => Mul(a, b)
    case Divide => Div(a, b)
    case Modulo => Mod(a, b)
    case ShiftLeft => CppInt.ShiftLeft(a, b)
    case ShiftRight => CppInt.ShiftRight(a, b)
    case Equal => Some(FromBool(a == b))
    case NotEqual => Some(FromBool(a != b))
    case Less => Some(FromBool(a < b))
    case LessEqual => Some(FromBool(a <= b))
    case Greater => Some(FromBool(a > b))
    case GreaterEqual => Some(FromBool(a >= b))
    case BitwiseAnd => Some(BitAnd(a, b))
    case BitwiseXor => Some(BitXor(a, b))
    case BitwiseOr => Some(BitOr(a, b))
    case LogicalAnd => Some(FromBool(a != 0 && b != 0))
    case LogicalOr => Some(FromBool(a != 0 || b != 0))
    case _ => None
  }

  /** The value of an operand. */
  function Eval(e: Operand, env: Env): Option<int>
    decreases e
  {
    match e
    case Literal(v) => Some(v)
    case Variable(x) => if x in env then Some(env[x]) else None
    case Unary(t, o) =>
      (match Eval(o, env)
       case None => None
       case Some(x) => UnaryValue(t, x))
    case Expression(first, rest) =>
      match Eval(first, env)
      case None => None
      case Some(acc) => EvalRest(acc, rest, env)
  }

  /** `acc op1 o1 op2 o2 …`, grouped from the left. */
  function EvalRest(acc: int, rest: seq<Operation>, env: Env): Option<int>
    decreases rest
  {
    if rest == [] then Some(acc)
    else
      match EvalOperation(acc, rest[0], env)
      case None => None
      case Some(acc') => EvalRest(acc', rest[1..], env)
  }

  function EvalOperation(acc: int, o: Operation, env: Env): Option<int>
    decreases o
  {
    match Eval(o.operand, env)
    case None => None
    case Some(x) => BinaryValue(o.op, acc, x)
  }

  /** The environment after a statement. */
  function Exec(s: Statement, env: Env, fuel: nat): Option<Env>
    decreases fuel, s, 0
  {
    match s
    case VarDecl(x, init) =>
      (match Eval(init, env)
       case None => None
       case Some(v) => Some(env[x := v]))
    case Assign(x, rhs) =>
      (match Eval(rhs, env)
       case None => None
       case Some(v) => Some(env[x := v]))
    case If(cond, thn, els) =>
      (match Eval(cond, env)
       case None => None
       case Some(c) =>
         if c != 0 then ExecList(thn.stmts, env, fuel)
         else if els.Some? then ExecList(els.value.stmts, env, fuel)
         else Some(env))
    case While(cond, body) => Loop(cond, body.stmts, env, fuel)
    case Block(b) => ExecList(b.stmts, env, fuel)
  }

  /**
   A `while` loop: the condition is evaluated before every iteration, and
   every iteration of the body spends one unit of fuel.
   */
  function Loop(cond: Operand, body: seq<Statement>, env: Env, fuel: nat): Option<Env>
    decreases fuel, body, 2
  {
    if fuel == 0 then None
    else
      match Eval(cond, env)
      case None => None
      case Some(c) =>
        if c == 0 then Some(env)
        else
          match ExecList(body, env, fuel - 1)
          case None => None
          case Some(env') => Loop(cond, body, env', fuel - 1)
  }

  function ExecList(ss: seq<Statement>, env: Env, fuel: nat): Option<Env>
    decreases fuel, ss, 1
  {
    if ss == [] then Some(env)
    else
      match Exec(ss[0], env, fuel)
      case None => None
      case Some(env') => ExecList(ss[1..], env', fuel)
  }

  // ---------------------------------------------------------------------
  // Collapse keeps the meaning
  // ---------------------------------------------------------------------

  /** The collapse pass does not change the value of any operand. */
  lemma {:induction false} NormalizeKeepsValue(e: Operand, env: Env)
    ensures Eval(Normalize(e), env) == Eval(e, env)
    decreases e
  {
    match e
    case Literal(_) =>
    case Variable(_) =>
    case Unary(_, o) => NormalizeKeepsValue(o, env);
    case Expression(first, rest) =>
      NormalizeKeepsValue(first, env);
      if Eval(first, env).Some? {
        NormalizeRestKeepsValue(Eval(first, env).value, rest, env);
      }
  }

  lemma {:induction false} NormalizeRestKeepsValue(acc: int, rest: seq<Operation>, env: Env)
    ensures EvalRest(acc, NormalizeRest(rest), env) == EvalRest(acc, rest, env)
    decreases rest
  {
    if rest != [] {
      NormalizeOperationKeepsValue(acc, rest[0], env);
      assert NormalizeRest(rest)[0] == NormalizeOperation(rest[0]);
      assert NormalizeRest(rest)[1..] == NormalizeRest(rest[1..]);
      match EvalOperation(acc, rest[0], env)
      case None =>
      case Some(acc') => NormalizeRestKeepsValue(acc', rest[1..], env);
    }
  }

  lemma {:induction false} NormalizeOperationKeepsValue(acc: int, o: Operation, env: Env)
    ensures EvalOperation(acc, NormalizeOperation(o), env) == EvalOperation(acc, o, env)
    decreases o
  {
    NormalizeKeepsValue(o.operand, env);
  }
}
