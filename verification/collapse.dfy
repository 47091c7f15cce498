/**
 The expression-collapse pass (`ASTVisitors::ExpressionCollapse`,
 src/visitors/ExpressionCollapse.hpp:7-44) over the default recursion of
 `VisitorAdapter`. A chain `expression` with no `op operand` links is
 replaced, in the operand that holds it, by its own normalised first
 operand; every other operand is normalised in place. The pass returns no
 value for statements: it only rewrites the operands they hold.
 */
module Collapse {
  import opened Wrappers
  import opened Ast
  import opened Scope
  import opened Layout
  import opened CodeGen
  import opened Compiler

  /** No operand reachable from `e` is a chain without links. */
  predicate Collapsed(e: Operand)
  {
    match e
    case Literal(_) => true
    case Variable(_) => true
    case Unary(_, o) => Collapsed(o)
    case Expression(first, rest) => rest != [] && Collapsed(first) && RestCollapsed(rest)
  }

  predicate RestCollapsed(rest: seq<Operation>)
  {
    forall i :: 0 <= i < |rest| ==> OperationCollapsed(rest[i])
  }

  predicate OperationCollapsed(o: Operation)
  {
    Collapsed(o.operand)
  }

  /** Every operand a statement holds, at any depth, is collapsed. */
  predicate StatementCollapsed(s: Statement)
  {
    match s
    case VarDecl(_, init) => Collapsed(init)
    case Assign(_, rhs) => Collapsed(rhs)
    case If(cond, thn, None) => Collapsed(cond) && ListCollapsed(thn.stmts)
    case If(cond, thn, Some(els)) => Collapsed(cond) && ListCollapsed(thn.stmts) && ListCollapsed(els.stmts)
    case While(cond, body) => Collapsed(cond) && ListCollapsed(body.stmts)
    case Block(b) => ListCollapsed(b.stmts)
  }

  predicate ListCollapsed(ss: seq<Statement>)
  {
    ss == [] || (StatementCollapsed(ss[0]) && ListCollapsed(ss[1..]))
  }

  /**
   The operand handler: literals and variables stay, a unary keeps its
   token around its normalised operand, a chain without links becomes its
   normalised first operand, and a longer chain keeps its tokens and order
   with every operand normalised.
   */
  function Normalize(e: Operand): (r: Operand)
    ensures Collapsed(r)
    ensures e.Literal? || e.Variable? ==> r == e
    ensures e.Unary? ==> r.Unary? && r.op == e.op
    ensures e.Expression? && e.rest != [] ==>
      r.Expression? && |r.rest| == |e.rest|
      && forall i :: 0 <= i < |e.rest| ==> r.rest[i].op == e.rest[i].op
    decreases e, 1
  {
    match e
    case Literal(_) => e
    case Variable(_) => e
    case Unary(t, o) => Unary(t, Normalize(o))
    case Expression(first, rest) =>
      if rest == [] then Normalize(first)
      else Expression(Normalize(first), NormalizeRest(rest))
  }

  /** The links of a chain, each operand normalised, tokens unchanged. */
  function NormalizeRest(rest: seq<Operation>): (r: seq<Operation>)
    ensures |r| == |rest|
    ensures forall i :: 0 <= i < |rest| ==> r[i].op == rest[i].op
    ensures RestCollapsed(r)
    decreases rest, 0
  {
    if rest == [] then []
    else [NormalizeOperation(rest[0])] + NormalizeRest(rest[1..])
  }

  function NormalizeOperation(o: Operation): (r: Operation)
    ensures r.op == o.op && OperationCollapsed(r)
    decreases o
  {
    Operation(o.op, Normalize(o.operand))
  }

  /** The pass over a statement: every operand it holds is normalised. */
  function NormalizeStatement(s: Statement): (r: Statement)
    ensures StatementCollapsed(r)
    ensures Decls(r) == Decls(s)
    decreases s, 0
  {
    match s
    case VarDecl(x, init) => VarDecl(x, Normalize(init))
    case Assign(x, rhs) => Assign(x, Normalize(rhs))
    case If(cond, thn, None) => If(Normalize(cond), StatementList(NormalizeList(thn.stmts)), None)
    case If(cond, thn, Some(els)) =>
      If(Normalize(cond), StatementList(NormalizeList(thn.stmts)), Some(StatementList(NormalizeList(els.stmts))))
    case While(cond, body) => While(Normalize(cond), StatementList(NormalizeList(body.stmts)))
    case Block(b) => Block(StatementList(NormalizeList(b.stmts)))
  }

  function NormalizeList(ss: seq<Statement>): (r: seq<Statement>)
    ensures |r| == |ss| && ListCollapsed(r)
    ensures ListDecls(r) == ListDecls(ss)
    decreases ss, 1
  {
    if ss == [] then []
    else [NormalizeStatement(ss[0])] + NormalizeList(ss[1..])
  }

  // ---------------------------------------------------------------------
  // Idempotence
  // ---------------------------------------------------------------------

  /** A collapsed operand is left exactly as it is. */
  lemma {:induction false} NormalizeCollapsed(e: Operand)
    requires Collapsed(e)
    ensures Normalize(e) == e
    decreases e, 1
  {
    match e
    case Literal(_) =>
    case Variable(_) =>
    case Unary(_, o) => NormalizeCollapsed(o);
    case Expression(first, rest) =>
      NormalizeCollapsed(first);
      NormalizeRestCollapsed(rest);
  }

  lemma {:induction false} NormalizeRestCollapsed(rest: seq<Operation>)
    requires RestCollapsed(rest)
    ensures NormalizeRest(rest) == rest
    decreases rest, 0
  {
    if rest != [] {
      NormalizeOperationCollapsed(rest[0]);
      NormalizeRestCollapsed(rest[1..]);
    }
  }

  lemma {:induction false} NormalizeOperationCollapsed(o: Operation)
    requires OperationCollapsed(o)
    ensures NormalizeOperation(o) == o
    decreases o
  {
    NormalizeCollapsed(o.operand);
  }

  /** Running the pass a second time changes nothing. */
  lemma NormalizeIdempotent(e: Operand)
    ensures Normalize(Normalize(e)) == Normalize(e)
  {
    NormalizeCollapsed(Normalize(e));
  }

  /** A statement whose operands are all collapsed is left exactly as it is. */
  lemma {:induction false} NormalizeStatementCollapsed(s: Statement)
    requires StatementCollapsed(s)
    ensures NormalizeStatement(s) == s
    decreases s, 1
  {
    match s
    case VarDecl(_, init) => NormalizeCollapsed(init);
    case Assign(_, rhs) => NormalizeCollapsed(rhs);
    case If(cond, thn, els) =>
      NormalizeCollapsed(cond);
      NormalizeListCollapsed(thn.stmts);
      if els.Some? {
        NormalizeListCollapsed(els.value.stmts);
      }
    case While(cond, body) =>
      NormalizeCollapsed(cond);
      NormalizeListCollapsed(body.stmts);
    case Block(b) => NormalizeListCollapsed(b.stmts);
  }

  lemma {:induction false} NormalizeListCollapsed(ss: seq<Statement>)
    requires ListCollapsed(ss)
    ensures NormalizeList(ss) == ss
    decreases ss, 0
  {
    if ss != [] {
      NormalizeStatementCollapsed(ss[0]);
      NormalizeListCollapsed(ss[1..]);
    }
  }

  /** Running the pass over a whole program twice is running it once. */
  lemma NormalizeBlockIdempotent(b: StatementList)
    ensures ListCollapsed(NormalizeBlock(b).stmts)
    ensures NormalizeBlock(NormalizeBlock(b)) == NormalizeBlock(b)
  {
    NormalizeListCollapsed(NormalizeList(b.stmts));
  }

  // ---------------------------------------------------------------------
  // The compiler does not see the difference
  // ---------------------------------------------------------------------

  /**
   A normalised operand compiles under exactly the same tables, to exactly
   the same words: a chain without links emits only its first operand.
   */
  lemma {:induction false} NormalizeKeepsCode(e: Operand, vars: map<string, int>)
    ensures Compilable(Normalize(e), vars) <==> Compilable(e, vars)
    ensures Compilable(e, vars) ==> OperandCode(Normalize(e), vars) == OperandCode(e, vars)
    decreases e, 1
  {
    match e
    case Literal(_) =>
    case Variable(_) =>
    case Unary(_, o) => NormalizeKeepsCode(o, vars);
    case Expression(first, rest) =>
      NormalizeKeepsCode(first, vars);
      NormalizeRestKeepsCode(rest, vars);
      if rest == [] && Compilable(e, vars) {
        assert OperandCode(e, vars) == OperandCode(first, vars) + [] by {
          assert RestCode(rest, vars) == [];
        }
      }
  }

  lemma {:induction false} NormalizeRestKeepsCode(rest: seq<Operation>, vars: map<string, int>)
    ensures RestCompilable(NormalizeRest(rest), vars) <==> RestCompilable(rest, vars)
    ensures RestCompilable(rest, vars) ==> RestCode(NormalizeRest(rest), vars) == RestCode(rest, vars)
    decreases rest, 0
  {
    if rest != [] {
      NormalizeOperationKeepsCode(rest[0], vars);
      NormalizeRestKeepsCode(rest[1..], vars);
      assert NormalizeRest(rest)[1..] == NormalizeRest(rest[1..]);
    }
  }

  lemma {:induction false} NormalizeOperationKeepsCode(o: Operation, vars: map<string, int>)
    ensures OperationCompilable(NormalizeOperation(o), vars) <==> OperationCompilable(o, vars)
    ensures OperationCompilable(o, vars) ==>
      OperationCode(NormalizeOperation(o), vars) == OperationCode(o, vars)
    decreases o
  {
    NormalizeKeepsCode(o.operand, vars);
  }

  /** Statement by statement, the pass changes neither success nor the words emitted. */
  lemma {:induction false} NormalizeStatementKeepsCode(s: Statement, vars: map<string, int>)
    ensures WellScoped(NormalizeStatement(s), vars) <==> WellScoped(s, vars)
    ensures WellScoped(s, vars) ==> StatementCode(NormalizeStatement(s), vars) == StatementCode(s, vars)
    decreases s, 1
  {
    match s
    case VarDecl(_, init) => NormalizeKeepsCode(init, vars);
    case Assign(_, rhs) => NormalizeKeepsCode(rhs, vars);
    case If(_, _, None) => NormalizeIfKeepsCode(s, vars);
    case If(_, _, Some(_)) => NormalizeIfElseKeepsCode(s, vars);
    case While(_, _) => NormalizeWhileKeepsCode(s, vars);
    case Block(b) => NormalizeListKeepsCode(b.stmts, vars);
  }

  lemma {:induction false} NormalizeIfKeepsCode(s: Statement, vars: map<string, int>)
    requires s.If? && s.els.None?
    ensures WellScoped(NormalizeStatement(s), vars) <==> WellScoped(s, vars)
    ensures WellScoped(s, vars) ==> StatementCode(NormalizeStatement(s), vars) == StatementCode(s, vars)
    decreases s, 0
  {
    var n := NormalizeStatement(s);
    NormalizeKeepsCode(s.cond, vars);
    NormalizeListKeepsCode(s.thn.stmts, vars);
    assert n.thn.stmts == NormalizeList(s.thn.stmts);
    if WellScoped(s, vars) {
      var cc, tc := OperandCode(s.cond, vars), ListCode(s.thn.stmts, vars);
      IfCode(s, vars, cc, tc);
      IfCode(n, vars, cc, tc);
    }
  }

  lemma {:induction false} NormalizeIfElseKeepsCode(s: Statement, vars: map<string, int>)
    requires s.If? && s.els.Some?
    ensures WellScoped(NormalizeStatement(s), vars) <==> WellScoped(s, vars)
    ensures WellScoped(s, vars) ==> StatementCode(NormalizeStatement(s), vars) == StatementCode(s, vars)
    decreases s, 0
  {
    var n := NormalizeStatement(s);
    var inner := Declare(vars, ListDecls(s.thn.stmts));
    NormalizeKeepsCode(s.cond, vars);
    NormalizeListKeepsCode(s.thn.stmts, vars);
    NormalizeListKeepsCode(s.els.value.stmts, inner);
    assert n.thn.stmts == NormalizeList(s.thn.stmts) && n.els.value.stmts == NormalizeList(s.els.value.stmts);
    if WellScoped(s, vars) {
      var cc, tc := OperandCode(s.cond, vars), ListCode(s.thn.stmts, vars);
      var ec := ListCode(s.els.value.stmts, inner);
      IfElseCode(s, vars, cc, tc, ec);
      IfElseCode(n, vars, cc, tc, ec);
    }
  }

  lemma {:induction false} NormalizeWhileKeepsCode(s: Statement, vars: map<string, int>)
    requires s.While?
    ensures WellScoped(NormalizeStatement(s), vars) <==> WellScoped(s, vars)
    ensures WellScoped(s, vars) ==> StatementCode(NormalizeStatement(s), vars) == StatementCode(s, vars)
    decreases s, 0
  {
    var n := NormalizeStatement(s);
    NormalizeKeepsCode(s.cond, vars);
    NormalizeListKeepsCode(s.body.stmts, vars);
    assert n.body.stmts == NormalizeList(s.body.stmts);
    if WellScoped(s, vars) {
      var cc, bc := OperandCode(s.cond, vars), ListCode(s.body.stmts, vars);
      WhileCode(s, vars, cc, bc);
      WhileCode(n, vars, cc, bc);
    }
  }

  lemma {:induction false} NormalizeListKeepsCode(ss: seq<Statement>, vars: map<string, int>)
    ensures ListWellScoped(NormalizeList(ss), vars) <==> ListWellScoped(ss, vars)
    ensures ListWellScoped(ss, vars) ==> ListCode(NormalizeList(ss), vars) == ListCode(ss, vars)
    decreases ss, 0
  {
    if ss != [] {
      NormalizeStatementKeepsCode(ss[0], vars);
      NormalizeListKeepsCode(ss[1..], Declare(vars, Decls(ss[0])));
      assert NormalizeList(ss)[1..] == NormalizeList(ss[1..]);
    }
  }

  /** The pass over a whole program. */
  function NormalizeBlock(b: StatementList): (r: StatementList)
    ensures |r.stmts| == |b.stmts| && ListCollapsed(r.stmts)
  {
    StatementList(NormalizeList(b.stmts))
  }

  /** `compile` of the collapsed program gives the very same result. */
  lemma CollapseKeepsCompile(prior: Program, prog: StatementList)
    ensures Compile(prior, NormalizeBlock(prog)) == Compile(prior, prog)
  {
    NormalizeListKeepsCode(prog.stmts, map[]);
  }
}
