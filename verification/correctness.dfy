/**
 The compiler and the virtual machine agree with the reference semantics.
 A compiled operand, started with the frame words of its variables in
 place, ends after its last word with its value pushed and nothing below
 touched; a compiled statement ends after its last word with the frame
 words holding the environment the statement produces; and the whole
 program, from `op_stk_adj` to the end of the code, halts with every
 variable's final value in its slot.

 The frame pointer is 0 throughout, as it is for the top-level activation
 that `vmachine::execute(code)` starts; the compiler emits neither calls
 nor returns.
 */
module Correctness {
  import opened Wrappers
  import opened ByteCode
  import opened Ast
  import opened CodeGen
  import opened Scope
  import opened Layout
  import opened Compiler
  import opened VM
  import opened Semantics

  // ---------------------------------------------------------------------
  // Glue between the token meanings and the opcodes
  // ---------------------------------------------------------------------

  /** The opcode emitted for a unary token computes the token's meaning. */
  lemma UnaryLink(t: OpToken, x: int)
    requires IsUnaryToken(t)
    ensures IsUnaryOpcode(UnaryOpcode(t).value)
    ensures ApplyUnary(UnaryOpcode(t).value, x) == UnaryValue(t, x)
  {
  }

  /** The opcode emitted for a binary token computes the token's meaning. */
  lemma BinaryLink(t: OpToken, a: int, b: int)
    requires IsBinaryToken(t)
    ensures IsBinaryOpcode(BinaryOpcode(t).value)
    ensures ApplyBinary(BinaryOpcode(t).value, a, b) == BinaryValue(t, a, b)
  {
  }

  // ---------------------------------------------------------------------
  // Stack needs
  // ---------------------------------------------------------------------

  function Max(a: nat, b: nat): nat { if a < b then b else a }

  /** The words above the stack pointer that evaluating `e` writes. */
  function Depth(e: Operand): (r: nat)
    ensures r >= 1
    decreases e
  {
    match e
    case Literal(_) => 1
    case Variable(_) => 1
    case Unary(_, o) => Depth(o)
    case Expression(first, rest) => Max(Depth(first), 1 + RestDepth(rest))
  }

  /** The words above the accumulator that the links of a chain write. */
  function RestDepth(rest: seq<Operation>): nat
    decreases rest
  {
    if rest == [] then 0 else Max(OperationDepth(rest[0]), RestDepth(rest[1..]))
  }

  function OperationDepth(o: Operation): nat
    decreases o
  {
    Depth(o.operand)
  }

  function StmtDepth(s: Statement): nat
    decreases s, 0
  {
    match s
    case VarDecl(_, init) => Depth(init)
    case Assign(_, rhs) => Depth(rhs)
    case If(cond, thn, None) => Max(Depth(cond), ListDepth(thn.stmts))
    case If(cond, thn, Some(els)) => Max(Depth(cond), Max(ListDepth(thn.stmts), ListDepth(els.stmts)))
    case While(cond, body) => Max(Depth(cond), ListDepth(body.stmts))
    case Block(b) => ListDepth(b.stmts)
  }

  function ListDepth(ss: seq<Statement>): nat
    decreases ss, 1
  {
    if ss == [] then 0 else Max(StmtDepth(ss[0]), ListDepth(ss[1..]))
  }

  // ---------------------------------------------------------------------
  // Code positions, frames and stored values
  // ---------------------------------------------------------------------

  /** `frag` sits in `code` from index `base` on. */
  ghost predicate At(code: seq<int>, base: int, frag: seq<int>) {
    0 <= base && base + |frag| <= |code| && code[base..base + |frag|] == frag
  }

  lemma AtSplit(code: seq<int>, base: int, a: seq<int>, b: seq<int>)
    requires At(code, base, a + b)
    ensures At(code, base, a) && At(code, base + |a|, b)
  {
    assert code[base..base + |a|] == code[base..base + |a| + |b|][..|a|];
    assert code[base + |a|..base + |a| + |b|] == code[base..base + |a| + |b|][|a|..];
  }

  lemma AtWord(code: seq<int>, base: int, w: int)
    requires At(code, base, [w])
    ensures base < |code| && code[base] == w
  {
    assert code[base..base + 1][0] == code[base];
  }

  lemma AtWords(code: seq<int>, base: int, w0: int, w1: int)
    requires At(code, base, [w0, w1])
    ensures base + 1 < |code| && code[base] == w0 && code[base + 1] == w1
  {
    assert code[base..base + 2][0] == code[base];
    assert code[base..base + 2][1] == code[base + 1];
  }

  ghost predicate SubMap(a: map<string, int>, b: map<string, int>) {
    forall x :: x in a ==> x in b && b[x] == a[x]
  }

  /**
   The frame of the top-level activation: `G` is the compiler's final
   table, its slots are the frame words below `n_locals`, and the stack
   pointer is at or above them.
   */
  ghost predicate Frame(G: map<string, int>, st: State) {
    DenseSlots(G) && st.nLocals == |G| && |G| <= st.sp <= |st.stack|
  }

  /** Every variable of `env` has its value in its slot. */
  ghost predicate Stored(G: map<string, int>, env: Env, stack: seq<int>) {
    forall x :: x in env ==> x in G && 0 <= G[x] < |stack| && stack[G[x]] == env[x]
  }

  /** Slots are below `n`, so words from `n` up do not matter to them. */
  lemma StoredKept(G: map<string, int>, env: Env, a: seq<int>, b: seq<int>, n: int)
    requires Stored(G, env, a) && DenseSlots(G) && |G| <= n <= |a| == |b|
    requires b[..n] == a[..n]
    ensures Stored(G, env, b)
  {
    forall x | x in env
      ensures x in G && 0 <= G[x] < |b| && b[G[x]] == env[x]
    {
      assert b[..n][G[x]] == a[..n][G[x]];
    }
  }

  /** Declaring fresh names keeps a table dense. */
  lemma {:induction false} DeclareDense(vars: map<string, int>, names: seq<string>)
    requires DenseSlots(vars) && FreshNames(vars, names)
    ensures DenseSlots(Declare(vars, names))
    decreases names
  {
    if names != [] {
      var vars' := vars[names[0] := |vars|];
      AddVarKeepsDense(Program([], vars), names[0]);
      assert FreshNames(vars', names[1..]) by {
        forall i | 0 <= i < |names[1..]|
          ensures names[1..][i] !in vars'
        {
          assert names[1..][i] == names[i + 1] && names[0] != names[i + 1];
        }
      }
      DeclareDense(vars', names[1..]);
    }
  }

  /** What is visible after declaring `a` is a part of what is visible after `a + b`. */
  lemma DeclarePrefix(vars: map<string, int>, a: seq<string>, b: seq<string>, G: map<string, int>)
    requires FreshNames(Declare(vars, a), b) && SubMap(Declare(vars, a + b), G)
    ensures SubMap(Declare(vars, a), G)
  {
    DeclareAppend(vars, a, b);
    DeclareSlots(Declare(vars, a), b);
  }

  // ---------------------------------------------------------------------
  // Plain steps
  // ---------------------------------------------------------------------

  /**
   `k` plain steps of the top-level activation lead from `st` to `st'`.
   Stated through a bound `t`, so that the solver unfolds `Steps` only for
   the step counts a proof actually mentions.
   */
  ghost predicate Reach(code: seq<int>, st: State, k: nat, st': State) {
    forall t: nat :: t == k ==> Steps(code, 0, st, t) == Some(st')
  }

  lemma StepsOne(code: seq<int>, st: State, st': State)
    requires 0 <= st.pc < |code| && Step(code, 0, st) == Next(st')
    ensures Reach(code, st, 1, st')
  {
    assert Steps(code, 0, st, 1) == Some(st');
  }

  lemma Then(code: seq<int>, st: State, k1: nat, s1: State, k2: nat, s2: State)
    requires Reach(code, st, k1, s1) && Reach(code, s1, k2, s2)
    ensures Reach(code, st, k1 + k2, s2)
  {
    assert Steps(code, 0, st, k1) == Some(s1) && Steps(code, 0, s1, k2) == Some(s2);
    StepsAppend(code, 0, st, k1, k2);
  }

  // ---------------------------------------------------------------------
  // Operands
  // ---------------------------------------------------------------------

  /**
   The code of an operand pushes its value: the stack pointer rises by one,
   the new top word is the value, and no word below the old stack pointer
   changes.
   */
  lemma {:induction false} OperandRuns(code: seq<int>, e: Operand, vars: map<string, int>,
      G: map<string, int>, env: Env, st: State, v: int) returns (k: nat, st': State)
    requires Compilable(e, vars) && At(code, st.pc, OperandCode(e, vars))
    requires SubMap(vars, G) && Frame(G, st) && st.sp + Depth(e) <= |st.stack|
    requires Stored(G, env, st.stack) && Eval(e, env) == Some(v)
    ensures Reach(code, st, k, st')
    ensures st'.pc == st.pc + |OperandCode(e, vars)| && st'.sp == st.sp + 1 && st'.nLocals == st.nLocals
    ensures |st'.stack| == |st.stack| && st'.stack[st.sp] == v
    ensures st'.stack[..st.sp] == st.stack[..st.sp]
    decreases e, 1
  {
    match e
    case Literal(n) =>
      AtWords(code, st.pc, OpInt, n);
      IntEffect(code, 0, st);
      st' := State(st.pc + 2, st.sp + 1, st.nLocals, st.stack[st.sp := n]);
      StepsOne(code, st, st');
      k := 1;
    case Variable(x) =>
      AtWords(code, st.pc, OpLoad, vars[x]);
      LoadEffect(code, 0, st);
      st' := State(st.pc + 2, st.sp + 1, st.nLocals, st.stack[st.sp := st.stack[vars[x]]]);
      StepsOne(code, st, st');
      k := 1;
    case Unary(_, _) => k, st' := UnaryRuns(code, e, vars, G, env, st, v);
    case Expression(_, _) => k, st' := ChainRuns(code, e, vars, G, env, st, v);
  }

  lemma {:induction false} UnaryRuns(code: seq<int>, e: Operand, vars: map<string, int>,
      G: map<string, int>, env: Env, st: State, v: int) returns (k: nat, st': State)
    requires e.Unary? && Compilable(e, vars)
    requires At(code, st.pc, OperandCode(e.operand, vars) + [UnaryOpcode(e.op).value])
    requires SubMap(vars, G) && Frame(G, st) && st.sp + Depth(e.operand) <= |st.stack|
    requires Stored(G, env, st.stack) && Eval(e, env) == Some(v)
    ensures Reach(code, st, k, st')
    ensures st'.pc == st.pc + |OperandCode(e.operand, vars)| + 1 && st'.sp == st.sp + 1
    ensures st'.nLocals == st.nLocals && |st'.stack| == |st.stack| && st'.stack[st.sp] == v
    ensures st'.stack[..st.sp] == st.stack[..st.sp]
    decreases e, 0
  {
    var x := Eval(e.operand, env).value;
    var op := UnaryOpcode(e.op).value;
    AtSplit(code, st.pc, OperandCode(e.operand, vars), [op]);
    var k1, s1 := OperandRuns(code, e.operand, vars, G, env, st, x);
    AtWord(code, s1.pc, op);
    UnaryLink(e.op, x);
    UnaryEffect(code, 0, s1);
    st' := State(s1.pc + 1, s1.sp, s1.nLocals, s1.stack[st.sp := v]);
    StepsOne(code, s1, st');
    Then(code, st, k1, s1, 1, st');
    k := k1 + 1;
  }

  lemma {:induction false} ChainRuns(code: seq<int>, e: Operand, vars: map<string, int>,
      G: map<string, int>, env: Env, st: State, v: int) returns (k: nat, st': State)
    requires e.Expression? && Compilable(e, vars)
    requires At(code, st.pc, OperandCode(e.first, vars) + RestCode(e.rest, vars))
    requires SubMap(vars, G) && Frame(G, st)
    requires st.sp + Depth(e.first) <= |st.stack| && st.sp + 1 + RestDepth(e.rest) <= |st.stack|
    requires Stored(G, env, st.stack) && Eval(e, env) == Some(v)
    ensures Reach(code, st, k, st')
    ensures st'.pc == st.pc + |OperandCode(e.first, vars)| + |RestCode(e.rest, vars)|
    ensures st'.sp == st.sp + 1 && st'.nLocals == st.nLocals
    ensures |st'.stack| == |st.stack| && st'.stack[st.sp] == v
    ensures st'.stack[..st.sp] == st.stack[..st.sp]
    decreases e, 0
  {
    var a := Eval(e.first, env).value;
    AtSplit(code, st.pc, OperandCode(e.first, vars), RestCode(e.rest, vars));
    var k1, s1 := OperandRuns(code, e.first, vars, G, env, st, a);
    StoredKept(G, env, st.stack, s1.stack, st.sp);
    var k2, s2 := RestRuns(code, e.rest, vars, G, env, s1, a, v);
    Then(code, st, k1, s1, k2, s2);
    k, st' := k1 + k2, s2;
  }

  /**
   The links of a chain fold into the accumulator, the word just below the
   stack pointer; the stack pointer ends where it started.
   */
  lemma {:induction false} RestRuns(code: seq<int>, rest: seq<Operation>, vars: map<string, int>,
      G: map<string, int>, env: Env, st: State, acc: int, v: int) returns (k: nat, st': State)
    requires RestCompilable(rest, vars) && At(code, st.pc, RestCode(rest, vars))
    requires SubMap(vars, G) && Frame(G, st) && |G| < st.sp && st.sp + RestDepth(rest) <= |st.stack|
    requires Stored(G, env, st.stack) && st.stack[st.sp - 1] == acc && EvalRest(acc, rest, env) == Some(v)
    ensures Reach(code, st, k, st')
    ensures st'.pc == st.pc + |RestCode(rest, vars)| && st'.sp == st.sp && st'.nLocals == st.nLocals
    ensures |st'.stack| == |st.stack| && st'.stack[st.sp - 1] == v
    ensures st'.stack[..st.sp - 1] == st.stack[..st.sp - 1]
    decreases rest, 2
  {
    if rest == [] {
      k, st' := 0, st;
    } else {
      var a := EvalOperation(acc, rest[0], env).value;
      AtSplit(code, st.pc, OperationCode(rest[0], vars), RestCode(rest[1..], vars));
      var k1, s1 := OperationRuns(code, rest[0], vars, G, env, st, acc, a);
      StoredKept(G, env, st.stack, s1.stack, st.sp - 1);
      var k2, s2 := RestRuns(code, rest[1..], vars, G, env, s1, a, v);
      Then(code, st, k1, s1, k2, s2);
      k, st' := k1 + k2, s2;
    }
  }

  lemma {:induction false} OperationRuns(code: seq<int>, o: Operation, vars: map<string, int>,
      G: map<string, int>, env: Env, st: State, acc: int, v: int) returns (k: nat, st': State)
    requires OperationCompilable(o, vars) && At(code, st.pc, OperationCode(o, vars))
    requires SubMap(vars, G) && Frame(G, st) && |G| < st.sp && st.sp + Depth(o.operand) <= |st.stack|
    requires Stored(G, env, st.stack) && st.stack[st.sp - 1] == acc && EvalOperation(acc, o, env) == Some(v)
    ensures Reach(code, st, k, st')
    ensures st'.pc == st.pc + |OperationCode(o, vars)| && st'.sp == st.sp && st'.nLocals == st.nLocals
    ensures |st'.stack| == |st.stack| && st'.stack[st.sp - 1] == v
    ensures st'.stack[..st.sp - 1] == st.stack[..st.sp - 1]
    decreases o, 2
  {
    var w := Eval(o.operand, env).value;
    var op := BinaryOpcode(o.op).value;
    AtSplit(code, st.pc, OperandCode(o.operand, vars), [op]);
    var k1, s1 := OperandRuns(code, o.operand, vars, G, env, st, w);
    AtWord(code, s1.pc, op);
    BinaryLink(o.op, acc, w);
    BinaryEffect(code, 0, s1);
    st' := State(s1.pc + 1, st.sp, st.nLocals, s1.stack[st.sp - 1 := v]);
    StepsOne(code, s1, st');
    Then(code, st, k1, s1, 1, st');
    k := k1 + 1;
  }

  // ---------------------------------------------------------------------
  // Statements
  // ---------------------------------------------------------------------

  /**
   The code of a statement takes the frame from the environment before it
   to the environment after it, and ends with the stack pointer where it
   started.
   */
  lemma {:induction false} StatementRuns(code: seq<int>, s: Statement, vars: map<string, int>,
      G: map<string, int>, env: Env, st: State, fuel: nat, env': Env) returns (k: nat, st': State)
    requires WellScoped(s, vars) && At(code, st.pc, StatementCode(s, vars))
    requires SubMap(Declare(vars, Decls(s)), G) && SubMap(vars, G)
    requires Frame(G, st) && st.sp + StmtDepth(s) <= |st.stack|
    requires Stored(G, env, st.stack) && Exec(s, env, fuel) == Some(env')
    ensures Reach(code, st, k, st')
    ensures st'.pc == st.pc + |StatementCode(s, vars)| && st'.sp == st.sp && st'.nLocals == st.nLocals
    ensures |st'.stack| == |st.stack| && Stored(G, env', st'.stack)
    decreases fuel, s, 3
  {
    match s
    case VarDecl(_, _) => k, st' := StoreRuns(code, s, vars, G, env, st, fuel, env');
    case Assign(_, _) => k, st' := StoreRuns(code, s, vars, G, env, st, fuel, env');
    case If(_, _, None) => k, st' := IfRuns(code, s, vars, G, env, st, fuel, env');
    case If(_, _, Some(_)) => k, st' := IfElseRuns(code, s, vars, G, env, st, fuel, env');
    case While(_, _) => k, st' := WhileRuns(code, s, vars, G, env, st, fuel, env');
    case Block(b) => k, st' := ListRuns(code, b.stmts, vars, G, env, st, fuel, env');
  }

  /** A declaration or an assignment: the value goes to the name's slot. */
  lemma StoreRuns(code: seq<int>, s: Statement, vars: map<string, int>,
      G: map<string, int>, env: Env, st: State, fuel: nat, env': Env) returns (k: nat, st': State)
    requires s.VarDecl? || s.Assign?
    requires WellScoped(s, vars) && At(code, st.pc, StatementCode(s, vars))
    requires SubMap(Declare(vars, Decls(s)), G) && SubMap(vars, G)
    requires Frame(G, st) && st.sp + StmtDepth(s) <= |st.stack|
    requires Stored(G, env, st.stack) && Exec(s, env, fuel) == Some(env')
    ensures Reach(code, st, k, st')
    ensures st'.pc == st.pc + |StatementCode(s, vars)| && st'.sp == st.sp && st'.nLocals == st.nLocals
    ensures |st'.stack| == |st.stack| && Stored(G, env', st'.stack)
  {
    var x, e := if s.VarDecl? then s.name else s.lhs, if s.VarDecl? then s.init else s.rhs;
    var slot := if s.VarDecl? then |vars| else vars[x];
    assert StatementCode(s, vars) == OperandCode(e, vars) + [OpStore, slot];
    if s.VarDecl? {
      assert Declare(vars, Decls(s)) == vars[x := |vars|] by {
        assert Decls(s)[1..] == [];
      }
    }
    k, st' := StoreSlot(code, e, vars, G, env, st, x, slot, Eval(e, env).value);
  }

  /** An operand's code followed by `op_store slot` puts its value in `x`'s slot. */
  lemma StoreSlot(code: seq<int>, e: Operand, vars: map<string, int>, G: map<string, int>,
      env: Env, st: State, x: string, slot: int, v: int) returns (k: nat, st': State)
    requires Compilable(e, vars) && At(code, st.pc, OperandCode(e, vars) + [OpStore, slot])
    requires SubMap(vars, G) && Frame(G, st) && st.sp + Depth(e) <= |st.stack|
    requires Stored(G, env, st.stack) && Eval(e, env) == Some(v) && x in G && G[x] == slot
    ensures Reach(code, st, k, st')
    ensures st'.pc == st.pc + |OperandCode(e, vars)| + 2 && st'.sp == st.sp && st'.nLocals == st.nLocals
    ensures |st'.stack| == |st.stack| && Stored(G, env[x := v], st'.stack)
  {
    AtSplit(code, st.pc, OperandCode(e, vars), [OpStore, slot]);
    var k1, s1 := OperandRuns(code, e, vars, G, env, st, v);
    AtWords(code, s1.pc, OpStore, slot);
    StoreEffect(code, 0, s1);
    st' := State(s1.pc + 2, st.sp, st.nLocals, s1.stack[slot := v]);
    StepsOne(code, s1, st');
    Then(code, st, k1, s1, 1, st');
    k := k1 + 1;
    forall y | y in env[x := v]
      ensures y in G && 0 <= G[y] < |st'.stack| && st'.stack[G[y]] == env[x := v][y]
    {
      if y != x {
        assert G[y] != G[x];
        assert s1.stack[..st.sp][G[y]] == st.stack[..st.sp][G[y]];
      }
    }
  }

  /**
   A condition's code followed by `op_jump_if d`: the condition is popped
   again, and the program counter lands after the operand word when it is
   non-zero and at the operand's index plus `d` when it is zero.
   */
  lemma CondJump(code: seq<int>, e: Operand, vars: map<string, int>, G: map<string, int>,
      env: Env, st: State, c: int, d: int) returns (k: nat, st': State)
    requires Compilable(e, vars) && At(code, st.pc, OperandCode(e, vars) + [OpJumpIf, d])
    requires SubMap(vars, G) && Frame(G, st) && st.sp + Depth(e) <= |st.stack|
    requires Stored(G, env, st.stack) && Eval(e, env) == Some(c)
    ensures Reach(code, st, k, st')
    ensures st'.pc == st.pc + |OperandCode(e, vars)| + (if c == 0 then 1 + d else 2)
    ensures st'.sp == st.sp && st'.nLocals == st.nLocals
    ensures |st'.stack| == |st.stack| && Stored(G, env, st'.stack)
  {
    AtSplit(code, st.pc, OperandCode(e, vars), [OpJumpIf, d]);
    var k1, s1 := OperandRuns(code, e, vars, G, env, st, c);
    st' := JumpIfRuns(code, s1, d);
    Then(code, st, k1, s1, 1, st');
    StoredKept(G, env, st.stack, st'.stack, st.sp);
    k := k1 + 1;
  }

  /** `op_jump_if d` pops the top word, and jumps to the operand's index plus `d` when it is zero. */
  lemma JumpIfRuns(code: seq<int>, st: State, d: int) returns (st': State)
    requires At(code, st.pc, [OpJumpIf, d]) && 1 <= st.sp <= |st.stack|
    ensures Reach(code, st, 1, st')
    ensures st' == State(if st.stack[st.sp - 1] == 0 then st.pc + 1 + d else st.pc + 2,
      st.sp - 1, st.nLocals, st.stack)
  {
    AtWords(code, st.pc, OpJumpIf, d);
    JumpIfEffect(code, 0, st);
    st' := State(if st.stack[st.sp - 1] == 0 then st.pc + 1 + d else st.pc + 2, st.sp - 1, st.nLocals, st.stack);
    StepsOne(code, st, st');
  }

  /** `op_jump d` moves to the operand's index plus `d`. */
  lemma JumpRuns(code: seq<int>, st: State, d: int)
    requires At(code, st.pc, [OpJump, d])
    ensures Reach(code, st, 1, st.(pc := st.pc + 1 + d))
  {
    AtWords(code, st.pc, OpJump, d);
    JumpEffect(code, 0, st);
    StepsOne(code, st, st.(pc := st.pc + 1 + d));
  }

  lemma IfRuns(code: seq<int>, s: Statement, vars: map<string, int>,
      G: map<string, int>, env: Env, st: State, fuel: nat, env': Env) returns (k: nat, st': State)
    requires s.If? && s.els.None?
    requires WellScoped(s, vars) && At(code, st.pc, StatementCode(s, vars))
    requires SubMap(Declare(vars, Decls(s)), G) && SubMap(vars, G)
    requires Frame(G, st) && st.sp + StmtDepth(s) <= |st.stack|
    requires Stored(G, env, st.stack) && Exec(s, env, fuel) == Some(env')
    ensures Reach(code, st, k, st')
    ensures st'.pc == st.pc + |StatementCode(s, vars)| && st'.sp == st.sp && st'.nLocals == st.nLocals
    ensures |st'.stack| == |st.stack| && Stored(G, env', st'.stack)
    decreases fuel, s, 1
  {
    var cc, tc := OperandCode(s.cond, vars), ListCode(s.thn.stmts, vars);
    IfCode(s, vars, cc, tc);
    AtSplit(code, st.pc, cc + [OpJumpIf, |tc| + 1], tc);
    IfParts(s, vars, G, st.sp, |st.stack|);
    IfExec(s, env, fuel, env');
    k, st' := IfBranch(code, s, vars, G, env, st, fuel, env', cc, tc);
  }

  /** What an `if` without else-branch asks of its parts: scope, declarations and stack room. */
  lemma IfParts(s: Statement, vars: map<string, int>, G: map<string, int>, sp: int, size: int)
    requires s.If? && s.els.None?
    requires WellScoped(s, vars) && SubMap(Declare(vars, Decls(s)), G) && sp + StmtDepth(s) <= size
    ensures Compilable(s.cond, vars) && ListWellScoped(s.thn.stmts, vars)
    ensures SubMap(Declare(vars, ListDecls(s.thn.stmts)), G)
    ensures sp + Depth(s.cond) <= size && sp + ListDepth(s.thn.stmts) <= size
  {
  }

  /** The parts of an `if` without else-branch: the block runs when the condition is non-zero. */
  lemma IfBranch(code: seq<int>, s: Statement, vars: map<string, int>, G: map<string, int>,
      env: Env, st: State, fuel: nat, env': Env, cc: seq<int>, tc: seq<int>) returns (k: nat, st': State)
    requires s.If? && Compilable(s.cond, vars) && ListWellScoped(s.thn.stmts, vars)
    requires cc == OperandCode(s.cond, vars) && tc == ListCode(s.thn.stmts, vars)
    requires At(code, st.pc, cc + [OpJumpIf, |tc| + 1]) && At(code, st.pc + |cc| + 2, tc)
    requires SubMap(Declare(vars, ListDecls(s.thn.stmts)), G) && SubMap(vars, G)
    requires Frame(G, st) && st.sp + Depth(s.cond) <= |st.stack| && st.sp + ListDepth(s.thn.stmts) <= |st.stack|
    requires Stored(G, env, st.stack) && Eval(s.cond, env).Some?
    requires if Eval(s.cond, env).value != 0 then ExecList(s.thn.stmts, env, fuel) == Some(env') else env' == env
    ensures Reach(code, st, k, st')
    ensures st'.pc == st.pc + |cc| + 2 + |tc| && st'.sp == st.sp && st'.nLocals == st.nLocals
    ensures |st'.stack| == |st.stack| && Stored(G, env', st'.stack)
    decreases fuel, s, 0
  {
    var c := Eval(s.cond, env).value;
    var k1, s1 := CondJump(code, s.cond, vars, G, env, st, c, |tc| + 1);
    if c == 0 {
      k, st' := k1, s1;
    } else {
      var k2, s2 := ListRuns(code, s.thn.stmts, vars, G, env, s1, fuel, env');
      Then(code, st, k1, s1, k2, s2);
      k, st' := k1 + k2, s2;
    }
  }

  lemma IfElseRuns(code: seq<int>, s: Statement, vars: map<string, int>,
      G: map<string, int>, env: Env, st: State, fuel: nat, env': Env) returns (k: nat, st': State)
    requires s.If? && s.els.Some?
    requires WellScoped(s, vars) && At(code, st.pc, StatementCode(s, vars))
    requires SubMap(Declare(vars, Decls(s)), G) && SubMap(vars, G)
    requires Frame(G, st) && st.sp + StmtDepth(s) <= |st.stack|
    requires Stored(G, env, st.stack) && Exec(s, env, fuel) == Some(env')
    ensures Reach(code, st, k, st')
    ensures st'.pc == st.pc + |StatementCode(s, vars)| && st'.sp == st.sp && st'.nLocals == st.nLocals
    ensures |st'.stack| == |st.stack| && Stored(G, env', st'.stack)
    decreases fuel, s, 2
  {
    var cc, tc := OperandCode(s.cond, vars), ListCode(s.thn.stmts, vars);
    var ec := ListCode(s.els.value.stmts, Declare(vars, ListDecls(s.thn.stmts)));
    IfElseCode(s, vars, cc, tc, ec);
    IfElseLayout(code, st.pc, cc, tc, ec);
    IfElseParts(s, vars, G, st.sp, |st.stack|);
    IfExec(s, env, fuel, env');
    k, st' := IfElseBranches(code, s, vars, G, env, st, fuel, env', cc, tc, ec);
  }

  /** Where the pieces of an `if` with an else-branch sit. */
  lemma IfElseLayout(code: seq<int>, base: int, cc: seq<int>, tc: seq<int>, ec: seq<int>)
    requires At(code, base, cc + [OpJumpIf, |tc| + 3] + tc + [OpJump, |ec| + 1] + ec)
    ensures IfElseAt(code, base, cc, tc, ec)
  {
    AtSplit(code, base, cc + [OpJumpIf, |tc| + 3] + tc + [OpJump, |ec| + 1], ec);
    AtSplit(code, base, cc + [OpJumpIf, |tc| + 3] + tc, [OpJump, |ec| + 1]);
    AtSplit(code, base, cc + [OpJumpIf, |tc| + 3], tc);
  }

  /** The four pieces of an `if` with an else-branch, in place from `base`. */
  ghost predicate IfElseAt(code: seq<int>, base: int, cc: seq<int>, tc: seq<int>, ec: seq<int>)
  {
    && At(code, base, cc + [OpJumpIf, |tc| + 3])
    && At(code, base + |cc| + 2, tc)
    && At(code, base + |cc| + 2 + |tc|, [OpJump, |ec| + 1])
    && At(code, base + |cc| + 4 + |tc|, ec)
  }

  /** Scope, declarations and stack room of the parts of an `if` with an else-branch. */
  ghost predicate IfElseScoped(s: Statement, vars: map<string, int>, G: map<string, int>, sp: int, size: int)
  {
    && s.If? && s.els.Some?
    && Compilable(s.cond, vars) && ListWellScoped(s.thn.stmts, vars)
    && ListWellScoped(s.els.value.stmts, Declare(vars, ListDecls(s.thn.stmts)))
    && SubMap(Declare(vars, ListDecls(s.thn.stmts)), G)
    && SubMap(Declare(Declare(vars, ListDecls(s.thn.stmts)), ListDecls(s.els.value.stmts)), G)
    && sp + Depth(s.cond) <= size
    && sp + ListDepth(s.thn.stmts) <= size && sp + ListDepth(s.els.value.stmts) <= size
  }

  /** The condition of an `if` has a value, and the branch it selects ends in `env'`. */
  ghost predicate IfChoice(s: Statement, env: Env, fuel: nat, env': Env)
  {
    && s.If? && Eval(s.cond, env).Some?
    && (Eval(s.cond, env).value != 0 ==> ExecList(s.thn.stmts, env, fuel) == Some(env'))
    && (Eval(s.cond, env).value == 0 && s.els.Some? ==> ExecList(s.els.value.stmts, env, fuel) == Some(env'))
    && (Eval(s.cond, env).value == 0 && s.els.None? ==> env' == env)
  }

  /** What an `if` with an else-branch asks of its parts: scope, declarations and stack room. */
  lemma IfElseParts(s: Statement, vars: map<string, int>, G: map<string, int>, sp: int, size: int)
    requires s.If? && s.els.Some?
    requires WellScoped(s, vars) && SubMap(Declare(vars, Decls(s)), G) && sp + StmtDepth(s) <= size
    ensures IfElseScoped(s, vars, G, sp, size)
  {
    ElseScope(vars, s.thn.stmts, s.els.value.stmts, G);
  }

  /** The else-branch sees the then-branch's declarations, and its own come after them. */
  lemma ElseScope(vars: map<string, int>, thn: seq<Statement>, els: seq<Statement>, G: map<string, int>)
    requires ListWellScoped(els, Declare(vars, ListDecls(thn)))
    requires SubMap(Declare(vars, ListDecls(thn) + ListDecls(els)), G)
    ensures SubMap(Declare(vars, ListDecls(thn)), G)
    ensures SubMap(Declare(Declare(vars, ListDecls(thn)), ListDecls(els)), G)
  {
    ListWellScopedDeclsFresh(els, Declare(vars, ListDecls(thn)));
    DeclarePrefix(vars, ListDecls(thn), ListDecls(els), G);
    DeclareAppend(vars, ListDecls(thn), ListDecls(els));
  }

  /**
   The parts of an `if` with an else-branch: a non-zero condition runs the
   then-block and jumps over the else-block, zero jumps to the else-block.
   */
  lemma IfElseBranches(code: seq<int>, s: Statement, vars: map<string, int>, G: map<string, int>,
      env: Env, st: State, fuel: nat, env': Env, cc: seq<int>, tc: seq<int>, ec: seq<int>)
      returns (k: nat, st': State)
    requires IfElseScoped(s, vars, G, st.sp, |st.stack|)
    requires cc == OperandCode(s.cond, vars) && tc == ListCode(s.thn.stmts, vars)
    requires ec == ListCode(s.els.value.stmts, Declare(vars, ListDecls(s.thn.stmts)))
    requires IfElseAt(code, st.pc, cc, tc, ec)
    requires SubMap(vars, G) && Frame(G, st) && Stored(G, env, st.stack) && IfChoice(s, env, fuel, env')
    ensures Reach(code, st, k, st')
    ensures st'.pc == st.pc + |cc| + 4 + |tc| + |ec| && st'.sp == st.sp && st'.nLocals == st.nLocals
    ensures |st'.stack| == |st.stack| && Stored(G, env', st'.stack)
    decreases fuel, s, 1
  {
    if Eval(s.cond, env).value == 0 {
      k, st' := ElseTaken(code, s, vars, G, env, st, fuel, env', cc, tc, ec);
    } else {
      k, st' := ThenTaken(code, s, vars, G, env, st, fuel, env', cc, tc, ec);
    }
  }

  /** A false condition jumps over the then-block and its `op_jump` straight into the else-block. */
  lemma ElseTaken(code: seq<int>, s: Statement, vars: map<string, int>, G: map<string, int>,
      env: Env, st: State, fuel: nat, env': Env, cc: seq<int>, tc: seq<int>, ec: seq<int>)
      returns (k: nat, st': State)
    requires IfElseScoped(s, vars, G, st.sp, |st.stack|)
    requires cc == OperandCode(s.cond, vars) && tc == ListCode(s.thn.stmts, vars)
    requires ec == ListCode(s.els.value.stmts, Declare(vars, ListDecls(s.thn.stmts)))
    requires IfElseAt(code, st.pc, cc, tc, ec)
    requires SubMap(vars, G) && Frame(G, st) && Stored(G, env, st.stack) && IfChoice(s, env, fuel, env')
    requires Eval(s.cond, env).value == 0
    ensures Reach(code, st, k, st')
    ensures st'.pc == st.pc + |cc| + 4 + |tc| + |ec| && st'.sp == st.sp && st'.nLocals == st.nLocals
    ensures |st'.stack| == |st.stack| && Stored(G, env', st'.stack)
    decreases fuel, s, 0
  {
    var k1, s1 := CondJump(code, s.cond, vars, G, env, st, 0, |tc| + 3);
    var k2, s2 := ListRuns(code, s.els.value.stmts, Declare(vars, ListDecls(s.thn.stmts)), G, env, s1, fuel, env');
    Then(code, st, k1, s1, k2, s2);
    k, st' := k1 + k2, s2;
  }

  /** A true condition falls into the then-block, whose `op_jump` leaves over the else-block. */
  lemma ThenTaken(code: seq<int>, s: Statement, vars: map<string, int>, G: map<string, int>,
      env: Env, st: State, fuel: nat, env': Env, cc: seq<int>, tc: seq<int>, ec: seq<int>)
      returns (k: nat, st': State)
    requires IfElseScoped(s, vars, G, st.sp, |st.stack|)
    requires cc == OperandCode(s.cond, vars) && tc == ListCode(s.thn.stmts, vars)
    requires ec == ListCode(s.els.value.stmts, Declare(vars, ListDecls(s.thn.stmts)))
    requires IfElseAt(code, st.pc, cc, tc, ec)
    requires SubMap(vars, G) && Frame(G, st) && Stored(G, env, st.stack) && IfChoice(s, env, fuel, env')
    requires Eval(s.cond, env).value != 0
    ensures Reach(code, st, k, st')
    ensures st'.pc == st.pc + |cc| + 4 + |tc| + |ec| && st'.sp == st.sp && st'.nLocals == st.nLocals
    ensures |st'.stack| == |st.stack| && Stored(G, env', st'.stack)
    decreases fuel, s, 0
  {
    var c := Eval(s.cond, env).value;
    var k1, s1 := CondJump(code, s.cond, vars, G, env, st, c, |tc| + 3);
    var k2, s2 := ThenJump(code, s.thn.stmts, vars, G, env, s1, fuel, env', |ec|);
    Then(code, st, k1, s1, k2, s2);
    k, st' := k1 + k2, s2;
  }

  /** An `if` that finishes evaluated its condition and ran the branch the condition chose. */
  lemma IfExec(s: Statement, env: Env, fuel: nat, env': Env)
    requires s.If? && Exec(s, env, fuel) == Some(env')
    ensures IfChoice(s, env, fuel, env')
  {
  }

  /** A then-block followed by the `op_jump` over an else-block of `n` words. */
  lemma {:induction false} ThenJump(code: seq<int>, thn: seq<Statement>, vars: map<string, int>,
      G: map<string, int>, env: Env, st: State, fuel: nat, env': Env, n: nat) returns (k: nat, st': State)
    requires ListWellScoped(thn, vars) && At(code, st.pc, ListCode(thn, vars))
    requires At(code, st.pc + |ListCode(thn, vars)|, [OpJump, n + 1])
    requires SubMap(Declare(vars, ListDecls(thn)), G) && SubMap(vars, G)
    requires Frame(G, st) && st.sp + ListDepth(thn) <= |st.stack|
    requires Stored(G, env, st.stack) && ExecList(thn, env, fuel) == Some(env')
    ensures Reach(code, st, k, st')
    ensures st'.pc == st.pc + |ListCode(thn, vars)| + 2 + n && st'.sp == st.sp && st'.nLocals == st.nLocals
    ensures |st'.stack| == |st.stack| && Stored(G, env', st'.stack)
    decreases fuel, thn, 1
  {
    var k1, s1 := ListRuns(code, thn, vars, G, env, st, fuel, env');
    JumpRuns(code, s1, n + 1);
    Then(code, st, k1, s1, 1, s1.(pc := s1.pc + 2 + n));
    k, st' := k1 + 1, s1.(pc := s1.pc + 2 + n);
  }

  lemma WhileRuns(code: seq<int>, s: Statement, vars: map<string, int>,
      G: map<string, int>, env: Env, st: State, fuel: nat, env': Env) returns (k: nat, st': State)
    requires s.While?
    requires WellScoped(s, vars) && At(code, st.pc, StatementCode(s, vars))
    requires SubMap(Declare(vars, Decls(s)), G) && SubMap(vars, G)
    requires Frame(G, st) && st.sp + StmtDepth(s) <= |st.stack|
    requires Stored(G, env, st.stack) && Exec(s, env, fuel) == Some(env')
    ensures Reach(code, st, k, st')
    ensures st'.pc == st.pc + |StatementCode(s, vars)| && st'.sp == st.sp && st'.nLocals == st.nLocals
    ensures |st'.stack| == |st.stack| && Stored(G, env', st'.stack)
    decreases fuel, s, 1
  {
    var cc, bc := OperandCode(s.cond, vars), ListCode(s.body.stmts, vars);
    WhileCode(s, vars, cc, bc);
    WhileLayout(code, st.pc, cc, bc);
    k, st' := LoopRuns(code, s, vars, G, env, st, fuel, env', cc, bc);
  }

  /** Where the pieces of a `while` sit. */
  lemma WhileLayout(code: seq<int>, base: int, cc: seq<int>, bc: seq<int>)
    requires At(code, base, cc + [OpJumpIf, |bc| + 3] + bc + [OpJump, -(|cc| + |bc| + 3)])
    ensures At(code, base, cc + [OpJumpIf, |bc| + 3])
    ensures At(code, base + |cc| + 2, bc)
    ensures At(code, base + |cc| + 2 + |bc|, [OpJump, -(|cc| + |bc| + 3)])
  {
    AtSplit(code, base, cc + [OpJumpIf, |bc| + 3] + bc, [OpJump, -(|cc| + |bc| + 3)]);
    AtSplit(code, base, cc + [OpJumpIf, |bc| + 3], bc);
  }

  /**
   The parts of a loop: every iteration the semantics takes is one pass
   through the condition, the body and the back-jump, and the final zero
   condition jumps past the back-jump.
   */
  lemma LoopRuns(code: seq<int>, s: Statement, vars: map<string, int>, G: map<string, int>,
      env: Env, st: State, fuel: nat, env': Env, cc: seq<int>, bc: seq<int>) returns (k: nat, st': State)
    requires s.While? && Compilable(s.cond, vars) && ListWellScoped(s.body.stmts, vars)
    requires cc == OperandCode(s.cond, vars) && bc == ListCode(s.body.stmts, vars)
    requires At(code, st.pc, cc + [OpJumpIf, |bc| + 3]) && At(code, st.pc + |cc| + 2, bc)
    requires At(code, st.pc + |cc| + 2 + |bc|, [OpJump, -(|cc| + |bc| + 3)])
    requires SubMap(Declare(vars, ListDecls(s.body.stmts)), G) && SubMap(vars, G)
    requires Frame(G, st) && st.sp + Depth(s.cond) <= |st.stack| && st.sp + ListDepth(s.body.stmts) <= |st.stack|
    requires Stored(G, env, st.stack) && Loop(s.cond, s.body.stmts, env, fuel) == Some(env')
    ensures Reach(code, st, k, st')
    ensures st'.pc == st.pc + |cc| + |bc| + 4 && st'.sp == st.sp && st'.nLocals == st.nLocals
    ensures |st'.stack| == |st.stack| && Stored(G, env', st'.stack)
    decreases fuel, s, 0
  {
    var c := Eval(s.cond, env).value;
    if c == 0 {
      k, st' := CondJump(code, s.cond, vars, G, env, st, c, |bc| + 3);
    } else {
      var env1 := ExecList(s.body.stmts, env, fuel - 1).value;
      var k1, s1 := WhileIteration(code, s, vars, G, env, st, fuel, env1, cc, bc);
      var k2, s2 := LoopRuns(code, s, vars, G, env1, s1, fuel - 1, env', cc, bc);
      Then(code, st, k1, s1, k2, s2);
      k, st' := k1 + k2, s2;
    }
  }

  /**
   One iteration of a loop whose condition holds: the body runs and the
   back-jump returns to the condition's first word.
   */
  lemma WhileIteration(code: seq<int>, s: Statement, vars: map<string, int>, G: map<string, int>,
      env: Env, st: State, fuel: nat, env': Env, cc: seq<int>, bc: seq<int>) returns (k: nat, st': State)
    requires s.While? && Compilable(s.cond, vars) && ListWellScoped(s.body.stmts, vars)
    requires cc == OperandCode(s.cond, vars) && bc == ListCode(s.body.stmts, vars)
    requires At(code, st.pc, cc + [OpJumpIf, |bc| + 3]) && At(code, st.pc + |cc| + 2, bc)
    requires At(code, st.pc + |cc| + 2 + |bc|, [OpJump, -(|cc| + |bc| + 3)])
    requires SubMap(Declare(vars, ListDecls(s.body.stmts)), G) && SubMap(vars, G)
    requires Frame(G, st) && st.sp + Depth(s.cond) <= |st.stack| && st.sp + ListDepth(s.body.stmts) <= |st.stack|
    requires Stored(G, env, st.stack) && fuel > 0
    requires Eval(s.cond, env).Some? && Eval(s.cond, env).value != 0
    requires ExecList(s.body.stmts, env, fuel - 1) == Some(env')
    ensures Reach(code, st, k, st')
    ensures st'.pc == st.pc && st'.sp == st.sp && st'.nLocals == st.nLocals
    ensures |st'.stack| == |st.stack| && Stored(G, env', st'.stack)
    decreases fuel - 1, s, 0
  {
    var k1, s1 := CondJump(code, s.cond, vars, G, env, st, Eval(s.cond, env).value, |bc| + 3);
    var k2, s2 := ListRuns(code, s.body.stmts, vars, G, env, s1, fuel - 1, env');
    JumpRuns(code, s2, -(|cc| + |bc| + 3));
    Then(code, s1, k2, s2, 1, s2.(pc := st.pc));
    Then(code, st, k1, s1, k2 + 1, s2.(pc := st.pc));
    k, st' := k1 + k2 + 1, s2.(pc := st.pc);
  }

  lemma {:induction false} ListRuns(code: seq<int>, ss: seq<Statement>, vars: map<string, int>,
      G: map<string, int>, env: Env, st: State, fuel: nat, env': Env) returns (k: nat, st': State)
    requires ListWellScoped(ss, vars) && At(code, st.pc, ListCode(ss, vars))
    requires SubMap(Declare(vars, ListDecls(ss)), G) && SubMap(vars, G)
    requires Frame(G, st) && st.sp + ListDepth(ss) <= |st.stack|
    requires Stored(G, env, st.stack) && ExecList(ss, env, fuel) == Some(env')
    ensures Reach(code, st, k, st')
    ensures st'.pc == st.pc + |ListCode(ss, vars)| && st'.sp == st.sp && st'.nLocals == st.nLocals
    ensures |st'.stack| == |st.stack| && Stored(G, env', st'.stack)
    decreases fuel, ss, 0
  {
    if ss == [] {
      k, st' := 0, st;
    } else {
      var inner := Declare(vars, Decls(ss[0]));
      var env1 := Exec(ss[0], env, fuel).value;
      AtSplit(code, st.pc, StatementCode(ss[0], vars), ListCode(ss[1..], inner));
      ListWellScopedDeclsFresh(ss[1..], inner);
      DeclarePrefix(vars, Decls(ss[0]), ListDecls(ss[1..]), G);
      DeclareAppend(vars, Decls(ss[0]), ListDecls(ss[1..]));
      var k1, s1 := StatementRuns(code, ss[0], vars, G, env, st, fuel, env1);
      var k2, s2 := ListRuns(code, ss[1..], inner, G, env1, s1, fuel, env');
      Then(code, st, k1, s1, k2, s2);
      k, st' := k1 + k2, s2;
    }
  }

  // ---------------------------------------------------------------------
  // Whole programs
  // ---------------------------------------------------------------------

  /** The compiler's final table numbers the declared names densely. */
  lemma CompiledSlots(prior: Program, prog: StatementList)
    requires Compile(prior, prog).ok
    ensures DenseSlots(Compile(prior, prog).program.variables)
    ensures |Compile(prior, prog).program.variables| == |ListDecls(prog.stmts)|
    ensures forall i :: 0 <= i < |ListDecls(prog.stmts)| ==>
      && ListDecls(prog.stmts)[i] in Compile(prior, prog).program.variables
      && Compile(prior, prog).program.variables[ListDecls(prog.stmts)[i]] == i
  {
    ListWellScopedDeclsFresh(prog.stmts, map[]);
    DeclareDense(map[], ListDecls(prog.stmts));
    DeclareSlots(map[], ListDecls(prog.stmts));
  }

  /**
   A program that compiles and terminates under the reference semantics
   runs to the end of its code on a machine whose stack has room for its
   variables and temporaries, and every variable's final value is in its
   slot.
   */
  lemma CompileCorrect(prior: Program, prog: StatementList, m: Machine, fuel: nat, env': Env)
      returns (k: nat, stack: seq<int>)
    requires Compile(prior, prog).ok
    requires ExecList(prog.stmts, map[], fuel) == Some(env')
    requires |ListDecls(prog.stmts)| + ListDepth(prog.stmts) <= |m.stack|
    ensures Execute(m, Compile(prior, prog).program.code, k) == Halt(-1, stack)
    ensures forall x :: x in env' ==>
      && x in Compile(prior, prog).program.variables
      && 0 <= Compile(prior, prog).program.variables[x] < |stack|
      && stack[Compile(prior, prog).program.variables[x]] == env'[x]
  {
    var G := Declare(map[], ListDecls(prog.stmts));
    CompiledSlots(prior, prog);
    k, stack := ProgramRuns(prog.stmts, G, m, fuel, env');
  }

  /** The code `Compile` emits for a well-scoped list, run from its first word. */
  lemma ProgramRuns(ss: seq<Statement>, G: map<string, int>, m: Machine, fuel: nat, env': Env)
      returns (k: nat, stack: seq<int>)
    requires ListWellScoped(ss, map[]) && G == Declare(map[], ListDecls(ss))
    requires DenseSlots(G) && |G| == |ListDecls(ss)|
    requires ExecList(ss, map[], fuel) == Some(env')
    requires |ListDecls(ss)| + ListDepth(ss) <= |m.stack|
    ensures Execute(m, [OpStkAdj, |ListDecls(ss)|] + ListCode(ss, map[]), k) == Halt(-1, stack)
    ensures Stored(G, env', stack)
  {
    var names := ListDecls(ss);
    var body := ListCode(ss, map[]);
    var code := [OpStkAdj, |names|] + body;
    var st0 := State(0, 0, 0, m.stack);
    StkAdjEffect(code, 0, st0);
    var st1 := State(2, |names|, |names|, m.stack);
    StepsOne(code, st0, st1);
    assert code[2..2 + |body|] == body;
    var k1, s2 := ListRuns(code, ss, map[], G, map[], st1, fuel, env');
    Then(code, st0, 1, st1, k1, s2);
    assert Steps(code, 0, st0, 1 + k1) == Some(s2);
    RunSteps(code, 0, st0, 1 + k1, 0);
    EndResult(code, 0, s2, 0);
    k, stack := 1 + k1, s2.stack;
  }

}
