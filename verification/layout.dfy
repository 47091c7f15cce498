/**
 The words the compiler emits for each construct, as position-independent
 fragments: a jump operand `d` stored at index `k` means the target
 `k + d`, so every offset is a sum of fragment lengths. The compiler itself
 writes into one growing buffer and back-patches jump operands through
 absolute indices; its contracts state that the result is exactly these
 fragments.
 */
module Layout {
  import opened Wrappers
  import opened Ast
  import opened ByteCode
  import opened Scope

  /** The opcode `compiler::operator()(ast::operation&)` emits for a token. */
  function BinaryOpcode(t: OpToken): (r: Option<int>)
    ensures r.Some? <==> IsBinaryToken(t)
    ensures r.Some? ==> HasBinaryFlag(r.value) && !HasUnaryFlag(r.value)
  {
    match t
    case Plus => Some(OpAdd)
    case Minus => Some(OpSub)
    case Times => Some(OpMul)
    case Divide => Some(OpDiv)
    case Modulo => Some(OpMod)
    case ShiftLeft => Some(OpShiftLeft)
    case ShiftRight => Some(OpShiftRight)
    case Equal => Some(OpEq)
    case NotEqual => Some(OpNeq)
    case Less => Some(OpLt)
    case LessEqual => Some(OpLte)
    case Greater => Some(OpGt)
    case GreaterEqual => Some(OpGte)
    case BitwiseOr => Some(OpBitwiseOr)
    case BitwiseXor => Some(OpBitwiseXor)
    case BitwiseAnd => Some(OpBitwiseAnd)
    case LogicalAnd => Some(OpLogicalAnd)
    case LogicalOr => Some(OpLogicalOr)
    case _ => None
  }

  /** The opcode `compiler::operator()(ast::unary&)` emits for a token. */
  function UnaryOpcode(t: OpToken): (r: Option<int>)
    ensures r.Some? <==> IsUnaryToken(t)
    ensures r.Some? ==> HasUnaryFlag(r.value) && !HasBinaryFlag(r.value)
  {
    match t
    case Positive => Some(OpPos)
    case Negative => Some(OpNeg)
    case LogicalNot => Some(OpLogNot)
    case BitwiseNot => Some(OpBitNot)
    case _ => None
  }

  /** Distinct binary tokens get distinct opcodes. */
  lemma BinaryOpcodeInjective(t1: OpToken, t2: OpToken)
    requires BinaryOpcode(t1).Some? && BinaryOpcode(t1) == BinaryOpcode(t2)
    ensures t1 == t2
  {
  }

  /** Distinct unary tokens get distinct opcodes. */
  lemma UnaryOpcodeInjective(t1: OpToken, t2: OpToken)
    requires UnaryOpcode(t1).Some? && UnaryOpcode(t1) == UnaryOpcode(t2)
    ensures t1 == t2
  {
  }

  // ---------------------------------------------------------------------
  // Fragments
  // ---------------------------------------------------------------------

  /** The words an operand appends: a left fold for a chain. */
  function OperandCode(e: Operand, vars: map<string, int>): seq<int>
    requires Compilable(e, vars)
    decreases e
  {
    match e
    case Literal(v) => [OpInt, v]
    case Variable(x) => [OpLoad, vars[x]]
    case Unary(t, o) => OperandCode(o, vars) + [UnaryOpcode(t).value]
    case Expression(first, rest) => OperandCode(first, vars) + RestCode(rest, vars)
  }

  /** Each `op operand` link in order: the operand's code, then the opcode. */
  function RestCode(rest: seq<Operation>, vars: map<string, int>): seq<int>
    requires RestCompilable(rest, vars)
    decreases rest
  {
    if rest == [] then []
    else OperationCode(rest[0], vars) + RestCode(rest[1..], vars)
  }

  function OperationCode(o: Operation, vars: map<string, int>): seq<int>
    requires OperationCompilable(o, vars)
    decreases o
  {
    OperandCode(o.operand, vars) + [BinaryOpcode(o.op).value]
  }

  /**
   The words a statement appends. A jump operand `d` at index `k` means the
   target `k + d`: `op_jump_if` after the condition skips the then-block
   (and, with an else, the two words of the `op_jump` after it); that
   `op_jump` skips the else-block; a loop's `op_jump_if` skips the body and
   the back-jump, and the back-jump returns to the condition's first word.
   */
  function StatementCode(s: Statement, vars: map<string, int>): seq<int>
    requires WellScoped(s, vars)
    decreases s
  {
    match s
    case VarDecl(_, init) => OperandCode(init, vars) + [OpStore, |vars|]
    case Assign(x, rhs) => OperandCode(rhs, vars) + [OpStore, vars[x]]
    case If(cond, thn, None) =>
      var tc := ListCode(thn.stmts, vars);
      OperandCode(cond, vars) + [OpJumpIf, |tc| + 1] + tc
    case If(cond, thn, Some(els)) =>
      var tc := ListCode(thn.stmts, vars);
      var ec := ListCode(els.stmts, Declare(vars, ListDecls(thn.stmts)));
      OperandCode(cond, vars) + [OpJumpIf, |tc| + 3] + tc + [OpJump, |ec| + 1] + ec
    case While(cond, body) =>
      var cc := OperandCode(cond, vars);
      var bc := ListCode(body.stmts, vars);
      cc + [OpJumpIf, |bc| + 3] + bc + [OpJump, -(|cc| + |bc| + 3)]
    case Block(b) => ListCode(b.stmts, vars)
  }

  function ListCode(ss: seq<Statement>, vars: map<string, int>): seq<int>
    requires ListWellScoped(ss, vars)
    decreases ss
  {
    if ss == [] then []
    else StatementCode(ss[0], vars) + ListCode(ss[1..], Declare(vars, Decls(ss[0])))
  }

  // ---------------------------------------------------------------------
  // Back-patching on plain sequences
  // ---------------------------------------------------------------------

  /** Appending fragments one after another is appending their concatenation. */
  lemma AppendAssoc(a: seq<int>, b: seq<int>, c: seq<int>)
    ensures a + b + c == a + (b + c)
    ensures a + [] == a
  {
  }

  /** Overwriting the word just after a prefix `a` of a buffer. */
  lemma PatchAfter(a: seq<int>, op: int, old_: int, v: int, rest: seq<int>)
    ensures (a + [op, old_] + rest)[|a| + 1 := v] == a + [op, v] + rest
  {
  }

  /** The then-block's back-patch: the `op_jump_if` offset skips the block. */
  lemma IfPatch(pre: seq<int>, cc: seq<int>, tc: seq<int>)
    ensures (pre + cc + [OpJumpIf, 0] + tc)[|pre| + |cc| + 1 := |tc| + 1]
      == pre + (cc + [OpJumpIf, |tc| + 1] + tc)
  {
    PatchAfter(pre + cc, OpJumpIf, 0, |tc| + 1, tc);
    assert (pre + cc) + [OpJumpIf, |tc| + 1] + tc == pre + (cc + [OpJumpIf, |tc| + 1] + tc);
  }

  /**
   With an else-branch the patched offset grows by 2 for the `op_jump`
   placeholder appended after the then-block; that `op_jump` skips the
   else-block.
   */
  lemma IfElseJoin(pre: seq<int>, cc: seq<int>, tc: seq<int>, ec: seq<int>)
    ensures (pre + (cc + [OpJumpIf, |tc| + 1] + tc))[|pre| + |cc| + 1] == |tc| + 1
    ensures (pre + (cc + [OpJumpIf, |tc| + 1] + tc))[|pre| + |cc| + 1 := |tc| + 3]
        + [OpJump, |ec| + 1] + ec
      == pre + (cc + [OpJumpIf, |tc| + 3] + tc + [OpJump, |ec| + 1] + ec)
  {
    assert pre + (cc + [OpJumpIf, |tc| + 1] + tc) == (pre + cc) + [OpJumpIf, |tc| + 1] + tc;
    PatchAfter(pre + cc, OpJumpIf, |tc| + 1, |tc| + 3, tc);
    assert (pre + cc) + [OpJumpIf, |tc| + 3] + tc + [OpJump, |ec| + 1] + ec
      == pre + (cc + [OpJumpIf, |tc| + 3] + tc + [OpJump, |ec| + 1] + ec);
  }

  /**
   A loop's back-jump returns to the first word of the condition, and the
   `op_jump_if` is patched to skip the body and the back-jump.
   */
  lemma WhilePatch(pre: seq<int>, cc: seq<int>, bc: seq<int>)
    ensures (pre + cc + [OpJumpIf, 0] + bc + [OpJump, -(|cc| + |bc| + 3)])[|pre| + |cc| + 1 := |bc| + 3]
      == pre + (cc + [OpJumpIf, |bc| + 3] + bc + [OpJump, -(|cc| + |bc| + 3)])
  {
    var back := [OpJump, -(|cc| + |bc| + 3)];
    assert pre + cc + [OpJumpIf, 0] + bc + back == (pre + cc) + [OpJumpIf, 0] + (bc + back);
    PatchAfter(pre + cc, OpJumpIf, 0, |bc| + 3, bc + back);
    assert (pre + cc) + [OpJumpIf, |bc| + 3] + (bc + back)
      == pre + (cc + [OpJumpIf, |bc| + 3] + bc + back);
  }

  // ---------------------------------------------------------------------
  // The fragments of the compound statements, spelled out
  // ---------------------------------------------------------------------

  lemma IfCode(s: Statement, vars: map<string, int>, cc: seq<int>, tc: seq<int>)
    requires s.If? && s.els.None? && WellScoped(s, vars)
    requires cc == OperandCode(s.cond, vars) && tc == ListCode(s.thn.stmts, vars)
    ensures StatementCode(s, vars) == cc + [OpJumpIf, |tc| + 1] + tc
  {
  }

  lemma IfElseCode(s: Statement, vars: map<string, int>, cc: seq<int>, tc: seq<int>, ec: seq<int>)
    requires s.If? && s.els.Some? && WellScoped(s, vars)
    requires cc == OperandCode(s.cond, vars) && tc == ListCode(s.thn.stmts, vars)
    requires ec == ListCode(s.els.value.stmts, Declare(vars, ListDecls(s.thn.stmts)))
    ensures StatementCode(s, vars) == cc + [OpJumpIf, |tc| + 3] + tc + [OpJump, |ec| + 1] + ec
  {
  }

  lemma WhileCode(s: Statement, vars: map<string, int>, cc: seq<int>, bc: seq<int>)
    requires s.While? && WellScoped(s, vars)
    requires cc == OperandCode(s.cond, vars) && bc == ListCode(s.body.stmts, vars)
    ensures StatementCode(s, vars) == cc + [OpJumpIf, |bc| + 3] + bc + [OpJump, -(|cc| + |bc| + 3)]
  {
  }
}
