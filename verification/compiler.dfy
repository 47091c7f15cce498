/**
 The bytecode compiler (`code_gen::compiler`, src/visitors/compiler.cpp:
 215-415). Each visitor overload becomes a function from the code buffer
 before the node to the buffer after it; `None` is the C++ `false`, after
 which every caller returns `false` at once and `compile` clears the
 buffer, so a partially written buffer is never observable.

 Every overload succeeds exactly on the well-scoped inputs of `Scope`, and
 on success appends exactly the fragment of `Layout` and declares exactly
 the names the node declares.
 */
module Compiler {
  import opened Wrappers
  import opened Ast
  import opened ByteCode
  import opened CodeGen
  import opened Scope
  import opened Layout

  /** `operator()` for int, variable, unary and expression operands. */
  function CompileOperand(p: Program, e: Operand): (r: Option<Program>)
    ensures r.Some? <==> Compilable(e, p.variables)
    ensures r.Some? ==> r.value == Program(p.code + OperandCode(e, p.variables), p.variables)
    decreases e
  {
    match e
    case Literal(v) => Some(Op2(p, OpInt, v))
    case Variable(x) =>
      (match FindVar(p, x)
       case None => None
       case Some(slot) => Some(Op2(p, OpLoad, slot)))
    case Unary(t, o) =>
      (match CompileOperand(p, o)
       case None => None
       case Some(q) =>
         match UnaryOpcode(t)
         case None => None
         case Some(w) => Some(Op1(q, w)))
    case Expression(first, rest) =>
      match CompileOperand(p, first)
      case None => None
      case Some(q) => CompileRest(q, rest)
  }

  /** The loop over `expression.rest`, stopping at the first failure. */
  function CompileRest(p: Program, rest: seq<Operation>): (r: Option<Program>)
    ensures r.Some? <==> RestCompilable(rest, p.variables)
    ensures r.Some? ==> r.value == Program(p.code + RestCode(rest, p.variables), p.variables)
    decreases rest
  {
    if rest == [] then AppendAssoc(p.code, [], []); Some(p)
    else
      match CompileOperation(p, rest[0])
      case None => None
      case Some(q) =>
        match CompileRest(q, rest[1..])
        case None => None
        case Some(r) =>
          AppendAssoc(p.code, OperationCode(rest[0], p.variables), RestCode(rest[1..], p.variables));
          Some(r)
  }

  /** `operator()(ast::operation&)`: the operand, then the binary opcode. */
  function CompileOperation(p: Program, o: Operation): (r: Option<Program>)
    ensures r.Some? <==> OperationCompilable(o, p.variables)
    ensures r.Some? ==> r.value == Program(p.code + OperationCode(o, p.variables), p.variables)
    decreases o
  {
    match CompileOperand(p, o.operand)
    case None => None
    case Some(q) =>
      match BinaryOpcode(o.op)
      case None => None
      case Some(w) => Some(Op1(q, w))
  }

  /** `operator()(ast::statement&)`: dispatch on the alternative held. */
  function CompileStatement(p: Program, s: Statement): (r: Option<Program>)
    ensures r.Some? <==> WellScoped(s, p.variables)
    ensures r.Some? ==>
      r.value == Program(p.code + StatementCode(s, p.variables), Declare(p.variables, Decls(s)))
    decreases s, 2
  {
    match s
    case VarDecl(_, _) => CompileVarDecl(p, s)
    case Assign(_, _) => CompileAssign(p, s)
    case If(_, _, _) => CompileIf(p, s)
    case While(_, _) => CompileWhile(p, s)
    case Block(b) => CompileList(p, b.stmts)
  }

  /**
   `operator()(ast::variable_declaration&)`: a name already in the table
   fails at once; otherwise the initializer is compiled before the name is
   added (so it cannot see the name it declares), then its value is stored
   into the new slot, numbered by the size of the table before the
   declaration.
   */
  function CompileVarDecl(p: Program, s: Statement): (r: Option<Program>)
    requires s.VarDecl?
    ensures r.Some? <==> s.name !in p.variables && Compilable(s.init, p.variables)
    ensures r.Some? ==>
      r.value == Program(p.code + StatementCode(s, p.variables), p.variables[s.name := NVars(p)])
  {
    if FindVar(p, s.name).Some? then None
    else
      match CompileOperand(p, s.init)
      case None => None
      case Some(q) =>
        var q' := AddVar(q, s.name);
        Some(Op2(q', OpStore, FindVar(q', s.name).value))
  }

  /** `operator()(ast::assignment&)`: the right-hand side, then a store into the name's slot. */
  function CompileAssign(p: Program, s: Statement): (r: Option<Program>)
    requires s.Assign?
    ensures r.Some? <==> Compilable(s.rhs, p.variables) && s.lhs in p.variables
    ensures r.Some? ==> r.value == Program(p.code + StatementCode(s, p.variables), p.variables)
  {
    match CompileOperand(p, s.rhs)
    case None => None
    case Some(q) =>
      match FindVar(q, s.lhs)
      case None => None
      case Some(slot) => Some(Op2(q, OpStore, slot))
  }

  /**
   `operator()(ast::if_statement&)`: condition, `op_jump_if` with a
   placeholder, then-block, back-patch of the placeholder; with an
   else-branch `CompileElse` continues.
   */
  function CompileIf(p: Program, s: Statement): (r: Option<Program>)
    requires s.If?
    ensures r.Some? <==> WellScoped(s, p.variables)
    ensures r.Some? ==>
      r.value == Program(p.code + StatementCode(s, p.variables), Declare(p.variables, Decls(s)))
    decreases s, 1
  {
    match CompileOperand(p, s.cond)
    case None => None
    case Some(q1) =>
      var q2 := Op2(q1, OpJumpIf, 0);
      var skip := Size(q2) - 1;
      match CompileList(q2, s.thn.stmts)
      case None => None
      case Some(q3) =>
        var cc := OperandCode(s.cond, p.variables);
        var tc := ListCode(s.thn.stmts, p.variables);
        IfClose(p, q1, q2, q3, skip, cc, tc);
        var q4 := Set(q3, skip, Size(q3) - skip);
        match s.els
        case None =>
          IfCode(s, p.variables, cc, tc);
          Some(q4)
        case Some(eb) =>
          DeclareAppend(p.variables, ListDecls(s.thn.stmts), ListDecls(eb.stmts));
          match CompileElse(q4, skip, eb)
          case None => None
          case Some(q7) =>
            var ec := ListCode(eb.stmts, q4.variables);
            IfElseJoin(p.code, cc, tc, ec);
            IfElseCode(s, p.variables, cc, tc, ec);
            Some(q7)
  }

  /**
   The else-branch part of the if overload, from the buffer `q4` whose
   `op_jump_if` operand at `skip` is already patched: that offset grows by
   2 for an `op_jump` placeholder, then the else-block follows and the
   `op_jump` is back-patched to skip it.
   */
  function CompileElse(q4: Program, skip: int, eb: StatementList): (r: Option<Program>)
    requires 0 <= skip < Size(q4)
    ensures r.Some? <==> ListWellScoped(eb.stmts, q4.variables)
    ensures r.Some? ==> r.value == Program(
      q4.code[skip := q4.code[skip] + 2]
        + [OpJump, |ListCode(eb.stmts, q4.variables)| + 1] + ListCode(eb.stmts, q4.variables),
      Declare(q4.variables, ListDecls(eb.stmts)))
    decreases eb, 0
  {
    var q5 := Set(q4, skip, Get(q4, skip) + 2);
    var q6 := Op2(q5, OpJump, 0);
    var exit := Size(q6) - 1;
    match CompileList(q6, eb.stmts)
    case None => None
    case Some(q7) =>
      ElseClose(q4, skip, q5, q6, exit, q7, ListCode(eb.stmts, q4.variables));
      Some(Set(q7, exit, Size(q7) - exit))
  }

  /**
   `operator()(ast::while_statement&)`: condition, `op_jump_if` with a
   placeholder, body, a back-jump to the condition's first word, then the
   back-patch of the placeholder.
   */
  function CompileWhile(p: Program, s: Statement): (r: Option<Program>)
    requires s.While?
    ensures r.Some? <==> WellScoped(s, p.variables)
    ensures r.Some? ==>
      r.value == Program(p.code + StatementCode(s, p.variables), Declare(p.variables, Decls(s)))
    decreases s, 1
  {
    var loop := Size(p);
    match CompileOperand(p, s.cond)
    case None => None
    case Some(q1) =>
      var q2 := Op2(q1, OpJumpIf, 0);
      var exit := Size(q2) - 1;
      match CompileList(q2, s.body.stmts)
      case None => None
      case Some(q3) =>
        var q4 := Op2(q3, OpJump, (loop - 1) - Size(q3));
        var cc := OperandCode(s.cond, p.variables);
        var bc := ListCode(s.body.stmts, p.variables);
        WhileClose(p, q1, q2, q3, q4, exit, cc, bc);
        WhileCode(s, p.variables, cc, bc);
        Some(Set(q4, exit, Size(q4) - exit))
  }

  /** `operator()(ast::statement_list&)`: in order, stopping at the first failure. */
  function CompileList(p: Program, ss: seq<Statement>): (r: Option<Program>)
    ensures r.Some? <==> ListWellScoped(ss, p.variables)
    ensures r.Some? ==>
      r.value == Program(p.code + ListCode(ss, p.variables), Declare(p.variables, ListDecls(ss)))
    decreases ss, 3
  {
    if ss == [] then AppendAssoc(p.code, [], []); Some(p)
    else
      match CompileStatement(p, ss[0])
      case None => None
      case Some(q) =>
        DeclareAppend(p.variables, Decls(ss[0]), ListDecls(ss[1..]));
        match CompileList(q, ss[1..])
        case None => None
        case Some(r) =>
          AppendAssoc(p.code, StatementCode(ss[0], p.variables), ListCode(ss[1..], q.variables));
          Some(r)
  }

  /** What `compile` leaves behind: its `bool` result and the buffer. */
  datatype Compiled = Compiled(ok: bool, program: Program)

  /**
   `compile`: clear the buffer, emit `op_stk_adj 0`, compile the program,
   and on success back-patch word 1 with the number of variables; on
   failure clear the buffer again. Whatever the buffer held before is
   dropped either way.
   */
  function Compile(prior: Program, prog: StatementList): (r: Compiled)
    ensures r.ok <==> ListWellScoped(prog.stmts, map[])
    ensures !r.ok ==> r.program == Empty
    ensures r.ok ==> r.program == Program(
      [OpStkAdj, |ListDecls(prog.stmts)|] + ListCode(prog.stmts, map[]),
      Declare(map[], ListDecls(prog.stmts)))
  {
    var p := Op2(Clear(prior), OpStkAdj, 0);
    match CompileList(p, prog.stmts)
    case None => Compiled(false, Clear(p))
    case Some(q) =>
      ListWellScopedDeclsFresh(prog.stmts, map[]);
      ProgramClose(p, q, ListDecls(prog.stmts), ListCode(prog.stmts, map[]));
      Compiled(true, Set(q, 1, NVars(q)))
  }

  // ---------------------------------------------------------------------
  // Back-patching on the buffer
  // ---------------------------------------------------------------------

  /** The then-block's back-patch: the `op_jump_if` operand skips the block. */
  lemma IfClose(p: Program, q1: Program, q2: Program, q3: Program, skip: int, cc: seq<int>, tc: seq<int>)
    requires q1.code == p.code + cc
    requires q2 == Op2(q1, OpJumpIf, 0) && skip == Size(q2) - 1
    requires q3.code == q2.code + tc
    ensures skip == |p.code| + |cc| + 1 && skip < Size(q3)
    ensures Set(q3, skip, Size(q3) - skip).code == p.code + (cc + [OpJumpIf, |tc| + 1] + tc)
  {
    IfPatch(p.code, cc, tc);
  }

  /** The else part's `op_jump` is back-patched to skip the else-block. */
  lemma ElseClose(q4: Program, skip: int, q5: Program, q6: Program, exit: int, q7: Program, ec: seq<int>)
    requires 0 <= skip < Size(q4)
    requires q5 == Set(q4, skip, Get(q4, skip) + 2)
    requires q6 == Op2(q5, OpJump, 0) && exit == Size(q6) - 1
    requires q7.code == q6.code + ec
    ensures 0 <= exit < Size(q7)
    ensures Set(q7, exit, Size(q7) - exit).code
      == q4.code[skip := q4.code[skip] + 2] + [OpJump, |ec| + 1] + ec
  {
    PatchAfter(q5.code, OpJump, 0, |ec| + 1, ec);
  }

  /** The loop's back-jump and the back-patch of its `op_jump_if`. */
  lemma WhileClose(p: Program, q1: Program, q2: Program, q3: Program, q4: Program, exit: int,
                   cc: seq<int>, bc: seq<int>)
    requires q1.code == p.code + cc
    requires q2 == Op2(q1, OpJumpIf, 0) && exit == Size(q2) - 1
    requires q3.code == q2.code + bc
    requires q4 == Op2(q3, OpJump, (Size(p) - 1) - Size(q3))
    ensures 0 <= exit < Size(q4)
    ensures Set(q4, exit, Size(q4) - exit).code
      == p.code + (cc + [OpJumpIf, |bc| + 3] + bc + [OpJump, -(|cc| + |bc| + 3)])
  {
    assert q4.code == p.code + cc + [OpJumpIf, 0] + bc + [OpJump, -(|cc| + |bc| + 3)];
    WhilePatch(p.code, cc, bc);
  }

  /** The final back-patch of `compile`: word 1 becomes the variable count. */
  lemma ProgramClose(p: Program, q: Program, names: seq<string>, code: seq<int>)
    requires p == Program([OpStkAdj, 0], map[])
    requires q == Program(p.code + code, Declare(map[], names))
    requires FreshNames(map[], names)
    ensures Size(q) >= 2 && NVars(q) == |names|
    ensures Set(q, 1, NVars(q)) == Program([OpStkAdj, |names|] + code, Declare(map[], names))
  {
    DeclareSlots(map[], names);
    PatchAfter([], OpStkAdj, 0, |names|, code);
  }
}
