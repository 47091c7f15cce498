/**
 The default structural recursion of `VisitorAdapter`
 (src/visitors/VisitorAdapter.hpp:48-147), as the sequence of node
 handlers it enters. An `operand` dispatches straight to the handler of
 the alternative it holds (a `forward_ast` is unwrapped on the way, so
 neither shows up as a visit of its own); a `nil` operand cannot occur.
 Every default handler returns the default result, except that the
 `operation` and `unary` handlers return their operand's result.
 */
module Traversal {
  import opened Wrappers
  import opened Ast
  import opened Scope
  import opened Collapse

  /** One handler entered by the traversal, with the data it can see. */
  datatype Visit =
    | IntVisit(value: int)
    | VariableVisit(name: string)
    | UnaryVisit(op: OpToken)
    | ExpressionVisit
    | OperationVisit(op: OpToken)
    | AssignmentVisit
    | DeclarationVisit
    | IfVisit
    | WhileVisit
    | ListVisit

  /** The handlers entered for an operand, in order. */
  function OperandTrace(e: Operand): seq<Visit>
    decreases e
  {
    match e
    case Literal(v) => [IntVisit(v)]
    case Variable(x) => [VariableVisit(x)]
    case Unary(t, o) => [UnaryVisit(t)] + OperandTrace(o)
    case Expression(first, rest) => [ExpressionVisit] + OperandTrace(first) + RestTrace(rest)
  }

  /** The links of a chain in list order. */
  function RestTrace(rest: seq<Operation>): seq<Visit>
    decreases rest
  {
    if rest == [] then [] else OperationTrace(rest[0]) + RestTrace(rest[1..])
  }

  function OperationTrace(o: Operation): seq<Visit>
    decreases o
  {
    [OperationVisit(o.op)] + OperandTrace(o.operand)
  }

  /**
   The handlers entered for a statement: an assignment visits its
   right-hand side before its left-hand side, a declaration its
   assignment, `if` its condition, then-block and else-block, `while` its
   condition and body.
   */
  function StatementTrace(s: Statement): seq<Visit>
    decreases s, 0
  {
    match s
    case VarDecl(x, init) => [DeclarationVisit, AssignmentVisit] + OperandTrace(init) + [VariableVisit(x)]
    case Assign(x, rhs) => [AssignmentVisit] + OperandTrace(rhs) + [VariableVisit(x)]
    case If(cond, thn, None) => [IfVisit] + OperandTrace(cond) + [ListVisit] + ListTrace(thn.stmts)
    case If(cond, thn, Some(els)) =>
      [IfVisit] + OperandTrace(cond) + [ListVisit] + ListTrace(thn.stmts) + [ListVisit] + ListTrace(els.stmts)
    case While(cond, body) => [WhileVisit] + OperandTrace(cond) + [ListVisit] + ListTrace(body.stmts)
    case Block(b) => [ListVisit] + ListTrace(b.stmts)
  }

  /** A statement list visits its statements in order. */
  function ListTrace(ss: seq<Statement>): seq<Visit>
    decreases ss, 1
  {
    if ss == [] then [] else StatementTrace(ss[0]) + ListTrace(ss[1..])
  }

  // ---------------------------------------------------------------------
  // What the compiler's handlers check along the way
  // ---------------------------------------------------------------------

  /**
   The compiler's handlers fail on a visit to an undeclared variable, a
   `unary` whose token is not unary or an `operation` whose token is not
   binary, and on nothing else inside an operand.
   */
  predicate VisitAccepted(v: Visit, vars: map<string, int>)
  {
    match v
    case VariableVisit(x) => x in vars
    case UnaryVisit(t) => IsUnaryToken(t)
    case OperationVisit(t) => IsBinaryToken(t)
    case _ => true
  }

  predicate TraceAccepted(t: seq<Visit>, vars: map<string, int>)
  {
    forall i :: 0 <= i < |t| ==> VisitAccepted(t[i], vars)
  }

  lemma TraceAcceptedAppend(a: seq<Visit>, b: seq<Visit>, vars: map<string, int>)
    ensures TraceAccepted(a + b, vars) <==> TraceAccepted(a, vars) && TraceAccepted(b, vars)
  {
    if TraceAccepted(a, vars) && TraceAccepted(b, vars) {
      forall i | 0 <= i < |a + b|
        ensures VisitAccepted((a + b)[i], vars)
      {
        if i >= |a| {
          assert (a + b)[i] == b[i - |a|];
        }
      }
    }
    if TraceAccepted(a + b, vars) {
      forall i | 0 <= i < |a|
        ensures VisitAccepted(a[i], vars)
      {
        assert (a + b)[i] == a[i];
      }
      forall i | 0 <= i < |b|
        ensures VisitAccepted(b[i], vars)
      {
        assert (a + b)[|a| + i] == b[i];
      }
    }
  }

  /**
   An operand compiles exactly when every handler its traversal enters
   accepts: the static condition the compiler checks, read off the visit
   order instead of the tree.
   */
  lemma {:induction false} CompilableByTrace(e: Operand, vars: map<string, int>)
    ensures Compilable(e, vars) <==> TraceAccepted(OperandTrace(e), vars)
    decreases e
  {
    match e
    case Literal(_) =>
    case Variable(x) =>
      assert OperandTrace(e)[0] == VariableVisit(x);
    case Unary(t, o) =>
      CompilableByTrace(o, vars);
      TraceAcceptedAppend([UnaryVisit(t)], OperandTrace(o), vars);
      assert OperandTrace(e)[0] == UnaryVisit(t);
    case Expression(first, rest) =>
      CompilableByTrace(first, vars);
      RestCompilableByTrace(rest, vars);
      TraceAcceptedAppend([ExpressionVisit], OperandTrace(first), vars);
      TraceAcceptedAppend([ExpressionVisit] + OperandTrace(first), RestTrace(rest), vars);
  }

  lemma {:induction false} RestCompilableByTrace(rest: seq<Operation>, vars: map<string, int>)
    ensures RestCompilable(rest, vars) <==> TraceAccepted(RestTrace(rest), vars)
    decreases rest
  {
    if rest != [] {
      OperationCompilableByTrace(rest[0], vars);
      RestCompilableByTrace(rest[1..], vars);
      TraceAcceptedAppend(OperationTrace(rest[0]), RestTrace(rest[1..]), vars);
    }
  }

  lemma {:induction false} OperationCompilableByTrace(o: Operation, vars: map<string, int>)
    ensures OperationCompilable(o, vars) <==> TraceAccepted(OperationTrace(o), vars)
    decreases o
  {
    CompilableByTrace(o.operand, vars);
    TraceAcceptedAppend([OperationVisit(o.op)], OperandTrace(o.operand), vars);
    assert OperationTrace(o)[0] == OperationVisit(o.op);
  }

  // ---------------------------------------------------------------------
  // Collapse keeps the leaves in visit order
  // ---------------------------------------------------------------------

  /** The literal and variable visits of a trace, in order. */
  function Leaves(t: seq<Visit>): (r: seq<Visit>)
    ensures |r| <= |t|
    ensures forall i :: 0 <= i < |r| ==> r[i].IntVisit? || r[i].VariableVisit?
  {
    if t == [] then []
    else if t[0].IntVisit? || t[0].VariableVisit? then [t[0]] + Leaves(t[1..])
    else Leaves(t[1..])
  }

  lemma {:induction false} LeavesAppend(a: seq<Visit>, b: seq<Visit>)
    ensures Leaves(a + b) == Leaves(a) + Leaves(b)
    decreases a
  {
    if a != [] {
      assert (a + b)[1..] == a[1..] + b;
      LeavesAppend(a[1..], b);
    } else {
      assert a + b == b;
    }
  }

  /**
   The collapse pass removes only `expression` nodes: the literals and
   variables a visitor meets, and their order, are the same before and
   after it.
   */
  lemma {:induction false} NormalizeKeepsLeaves(e: Operand)
    ensures Leaves(OperandTrace(Normalize(e))) == Leaves(OperandTrace(e))
    decreases e
  {
    match e
    case Literal(_) =>
    case Variable(_) =>
    case Unary(t, o) =>
      NormalizeKeepsLeaves(o);
      LeavesAppend([UnaryVisit(t)], OperandTrace(o));
      LeavesAppend([UnaryVisit(t)], OperandTrace(Normalize(o)));
    case Expression(first, rest) =>
      NormalizeKeepsLeaves(first);
      NormalizeRestKeepsLeaves(rest);
      LeavesAppend([ExpressionVisit], OperandTrace(first));
      LeavesAppend([ExpressionVisit] + OperandTrace(first), RestTrace(rest));
      if rest == [] {
        assert OperandTrace(e) == [ExpressionVisit] + OperandTrace(first) + [];
      } else {
        var n := Normalize(first);
        LeavesAppend([ExpressionVisit], OperandTrace(n));
        LeavesAppend([ExpressionVisit] + OperandTrace(n), RestTrace(NormalizeRest(rest)));
      }
  }

  lemma {:induction false} NormalizeRestKeepsLeaves(rest: seq<Operation>)
    ensures Leaves(RestTrace(NormalizeRest(rest))) == Leaves(RestTrace(rest))
    decreases rest
  {
    if rest != [] {
      var o := rest[0];
      NormalizeOperationKeepsLeaves(o);
      NormalizeRestKeepsLeaves(rest[1..]);
      assert NormalizeRest(rest)[0] == NormalizeOperation(o);
      assert NormalizeRest(rest)[1..] == NormalizeRest(rest[1..]);
      LeavesAppend(OperationTrace(o), RestTrace(rest[1..]));
      LeavesAppend(OperationTrace(NormalizeOperation(o)), RestTrace(NormalizeRest(rest[1..])));
    }
  }

  lemma {:induction false} NormalizeOperationKeepsLeaves(o: Operation)
    ensures Leaves(OperationTrace(NormalizeOperation(o))) == Leaves(OperationTrace(o))
    decreases o
  {
    NormalizeKeepsLeaves(o.operand);
    LeavesAppend([OperationVisit(o.op)], OperandTrace(o.operand));
    LeavesAppend([OperationVisit(o.op)], OperandTrace(Normalize(o.operand)));
  }

  /**
   The pass over a statement keeps the literals and variables a visitor
   meets, and their order, including the assigned name an assignment or
   declaration visits after its right-hand side.
   */
  lemma {:induction false} NormalizeStatementKeepsLeaves(s: Statement)
    ensures Leaves(StatementTrace(NormalizeStatement(s))) == Leaves(StatementTrace(s))
    decreases s, 1
  {
    match s
    case VarDecl(x, init) =>
      var h := [DeclarationVisit, AssignmentVisit];
      NormalizeKeepsLeaves(init);
      LeavesPair(h, h, OperandTrace(init), OperandTrace(Normalize(init)));
      LeavesPair(h + OperandTrace(init), h + OperandTrace(Normalize(init)), [VariableVisit(x)], [VariableVisit(x)]);
    case Assign(x, rhs) =>
      NormalizeKeepsLeaves(rhs);
      LeavesPair([AssignmentVisit], [AssignmentVisit], OperandTrace(rhs), OperandTrace(Normalize(rhs)));
      LeavesPair([AssignmentVisit] + OperandTrace(rhs), [AssignmentVisit] + OperandTrace(Normalize(rhs)),
        [VariableVisit(x)], [VariableVisit(x)]);
    case If(cond, thn, None) =>
      NormalizeKeepsLeaves(cond);
      NormalizeListKeepsLeaves(thn.stmts);
      HeadLeaves(IfVisit, cond, thn.stmts);
    case If(cond, thn, Some(els)) =>
      NormalizeKeepsLeaves(cond);
      NormalizeListKeepsLeaves(thn.stmts);
      NormalizeListKeepsLeaves(els.stmts);
      HeadLeaves(IfVisit, cond, thn.stmts);
      var t := [IfVisit] + OperandTrace(cond) + [ListVisit] + ListTrace(thn.stmts);
      var t' := [IfVisit] + OperandTrace(Normalize(cond)) + [ListVisit] + ListTrace(NormalizeList(thn.stmts));
      LeavesPair(t, t', [ListVisit], [ListVisit]);
      LeavesPair(t + [ListVisit], t' + [ListVisit], ListTrace(els.stmts), ListTrace(NormalizeList(els.stmts)));
    case While(cond, body) =>
      NormalizeKeepsLeaves(cond);
      NormalizeListKeepsLeaves(body.stmts);
      HeadLeaves(WhileVisit, cond, body.stmts);
    case Block(b) =>
      NormalizeListKeepsLeaves(b.stmts);
      LeavesPair([ListVisit], [ListVisit], ListTrace(b.stmts), ListTrace(NormalizeList(b.stmts)));
  }

  lemma {:induction false} NormalizeListKeepsLeaves(ss: seq<Statement>)
    ensures Leaves(ListTrace(NormalizeList(ss))) == Leaves(ListTrace(ss))
    decreases ss, 0
  {
    if ss != [] {
      NormalizeStatementKeepsLeaves(ss[0]);
      NormalizeListKeepsLeaves(ss[1..]);
      assert NormalizeList(ss)[0] == NormalizeStatement(ss[0]);
      assert NormalizeList(ss)[1..] == NormalizeList(ss[1..]);
      LeavesPair(StatementTrace(ss[0]), StatementTrace(NormalizeStatement(ss[0])),
        ListTrace(ss[1..]), ListTrace(NormalizeList(ss[1..])));
    }
  }

  /** The leaves of `[v] + condition + [list] + block` before and after the pass. */
  lemma HeadLeaves(v: Visit, cond: Operand, ss: seq<Statement>)
    requires Leaves(OperandTrace(Normalize(cond))) == Leaves(OperandTrace(cond))
    requires Leaves(ListTrace(NormalizeList(ss))) == Leaves(ListTrace(ss))
    ensures Leaves([v] + OperandTrace(cond) + [ListVisit] + ListTrace(ss))
      == Leaves([v] + OperandTrace(Normalize(cond)) + [ListVisit] + ListTrace(NormalizeList(ss)))
  {
    var c, c' := OperandTrace(cond), OperandTrace(Normalize(cond));
    LeavesPair([v], [v], c, c');
    LeavesPair([v] + c, [v] + c', [ListVisit], [ListVisit]);
    LeavesPair([v] + c + [ListVisit], [v] + c' + [ListVisit], ListTrace(ss), ListTrace(NormalizeList(ss)));
  }

  /** Pieces with the same leaves concatenate to traces with the same leaves. */
  lemma LeavesPair(b: seq<Visit>, b': seq<Visit>, c: seq<Visit>, c': seq<Visit>)
    requires Leaves(b) == Leaves(b') && Leaves(c) == Leaves(c')
    ensures Leaves(b + c) == Leaves(b' + c')
  {
    LeavesAppend(b, c);
    LeavesAppend(b', c');
  }
}
