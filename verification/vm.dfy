/**
 The stack machine (`vmachine::execute`, src/vm.cpp:12-204, and the
 `vmachine` class of src/vm/vm.hpp:63-91).

 The machine owns one vector of `int` words, the stack, whose length never
 changes. One activation of `execute` has a fixed frame pointer `fp` (an
 index into the stack) and a state of program counter, stack pointer and
 local count. Every C++ undefined behaviour — an access outside the stack,
 a read past the end of the code, signed overflow, division by zero, a bad
 shift — and every failed `BOOST_ASSERT` ends the run with `Crash`. A run
 carries fuel so that a program that loops forever has a meaning
 (`OutOfFuel`): every dispatched instruction costs one unit, and an
 `op_call` hands the remaining fuel both to the called activation and to
 the rest of the caller, so fuel bounds the dispatch depth of each
 activation rather than the total number of instructions.

 Code words are compared with the opcode values of `ByteCode` as they are;
 a word that is no opcode does nothing but advance the program counter.
 */
module VM {
  import opened Wrappers
  import opened CppInt
  import opened ByteCode

  /** Program counter, stack pointer and `n_locals` of one activation. */
  datatype State = State(pc: int, sp: int, nLocals: int, stack: seq<int>)

  /** What one iteration of the dispatch loop does. */
  datatype Effect =
    | Next(next: State)
    | Return(value: int, stack: seq<int>)
    | Call(nargs: int, target: int, after: State)
    | Fault

  /** How a run of `execute` ends. */
  datatype Outcome =
    | Halt(value: int, stack: seq<int>)
    | Crash
    | OutOfFuel

  predicate IsUnaryOpcode(w: int) {
    w == OpPos || w == OpNeg || w == OpLogNot || w == OpBitNot
  }

  predicate IsBinaryOpcode(w: int) {
    || w == OpAdd || w == OpSub || w == OpMul || w == OpDiv || w == OpMod
    || w == OpShiftLeft || w == OpShiftRight
    || w == OpEq || w == OpNeq || w == OpLt || w == OpLte || w == OpGt || w == OpGte
    || w == OpBitwiseAnd || w == OpBitwiseXor || w == OpBitwiseOr
    || w == OpLogicalAnd || w == OpLogicalOr
  }

  /** Every word of `ws` is a C++ `int`. */
  predicate WordsInRange(ws: seq<int>)
  {
    forall i :: 0 <= i < |ws| ==> InRange(ws[i])
  }

  /**
   The operand of every `op_int` word is a C++ `int`. Only `op_int` copies a
   code word onto the stack, so the opcodes themselves, whose flagged values
   lie above `INT_MAX` here, may be any words.
   */
  predicate IntOperandsInRange(code: seq<int>)
  {
    forall i :: 0 <= i < |code| - 1 && code[i] == OpInt ==> InRange(code[i + 1])
  }

  /**
   The value a unary opcode puts in place of the top word `x`. On an `int`
   only the negation of `INT_MIN` is undefined, and every result is an
   `int` again.
   */
  function ApplyUnary(op: int, x: int): (r: Option<int>)
    requires IsUnaryOpcode(op)
    ensures InRange(x) ==> (r.None? <==> op == OpNeg && x == IntMin)
    ensures InRange(x) && r.Some? ==> InRange(r.value)
  {
    if op == OpPos then Some(x)
    else if op == OpNeg then Neg(x)
    else if op == OpLogNot then Some(FromBool(x == 0))
    else Some(BitNot(x))
  }

  /**
   The value a binary opcode puts in place of its two operands: `a` is the
   word below the top, `b` the top. Both are already evaluated, so `&&`
   and `||` do not short-circuit. Only the arithmetic and shift opcodes can
   be undefined, and on two `int`s every result is an `int` again.
   */
  function ApplyBinary(op: int, a: int, b: int): (r: Option<int>)
    requires IsBinaryOpcode(op)
    ensures r.None? ==>
      op == OpAdd || op == OpSub || op == OpMul || op == OpDiv || op == OpMod
      || op == OpShiftLeft || op == OpShiftRight
    ensures InRange(a) && InRange(b) && r.Some? ==> InRange(r.value)
  {
    if op == OpAdd then Add(a, b)
    else if op == OpSub then Sub(a, b)
    else if op == OpMul then Mul(a, b)
    else if op == OpDiv then Div(a, b)
    else if op == OpMod then Mod(a, b)
    else if op == OpShiftLeft then CppInt.ShiftLeft(a, b)
    else if op == OpShiftRight then CppInt.ShiftRight(a, b)
    else if op == OpEq then Some(FromBool(a == b))
    else if op == OpNeq then Some(FromBool(a != b))
    else if op == OpLt then Some(FromBool(a < b))
    else if op == OpLte then Some(FromBool(a <= b))
    else if op == OpGt then Some(FromBool(a > b))
    else if op == OpGte then Some(FromBool(a >= b))
    else if op == OpBitwiseAnd then Some(BitAnd(a, b))
    else if op == OpBitwiseXor then Some(BitXor(a, b))
    else if op == OpBitwiseOr then Some(BitOr(a, b))
    else if op == OpLogicalAnd then Some(FromBool(a != 0 && b != 0))
    else Some(FromBool(a != 0 || b != 0))
  }

  /**
   `pushInt(op(popInt()))`: `popInt` reads the top word, lowers the stack
   pointer and asserts that it stays at or above `fp + n_locals`;
   `pushInt` raises it again and writes the result.
   */
  function UnaryStep(op: int, fp: int, st: State): (r: Effect)
    requires IsUnaryOpcode(op)
    ensures r.Next? || r.Fault?
    ensures r.Next? ==> r.next.pc == st.pc && r.next.sp == st.sp && r.next.nLocals == st.nLocals
    ensures r.Next? ==> |r.next.stack| == |st.stack|
    ensures r.Next? && WordsInRange(st.stack) ==> WordsInRange(r.next.stack)
  {
    if !(1 <= st.sp <= |st.stack|) || st.sp - 1 < fp + st.nLocals then Fault
    else
      match ApplyUnary(op, st.stack[st.sp - 1])
      case None => Fault
      case Some(v) => Next(st.(stack := st.stack[st.sp - 1 := v]))
  }

  /** `--stack_ptr; stack_ptr[-1] = stack_ptr[-1] op stack_ptr[0]`. */
  function BinaryStep(op: int, st: State): (r: Effect)
    requires IsBinaryOpcode(op)
    ensures r.Next? || r.Fault?
    ensures r.Next? ==> r.next.pc == st.pc && r.next.sp == st.sp - 1 && r.next.nLocals == st.nLocals
    ensures r.Next? ==> |r.next.stack| == |st.stack|
    ensures r.Next? && WordsInRange(st.stack) ==> WordsInRange(r.next.stack)
  {
    var sp := st.sp - 1;
    if !(1 <= sp < |st.stack|) then Fault
    else
      match ApplyBinary(op, st.stack[sp - 1], st.stack[sp])
      case None => Fault
      case Some(v) => Next(st.(sp := sp, stack := st.stack[sp - 1 := v]))
  }

  /**
   One iteration of the dispatch loop at the word `code[st.pc]`. After the
   opcode is read the program counter indexes its first operand word, so a
   jump's target is that operand's index plus the operand.
   */
  function Step(code: seq<int>, fp: int, st: State): (r: Effect)
    requires 0 <= st.pc < |code|
    ensures r.Next? ==> |r.next.stack| == |st.stack|
    ensures r.Return? ==> r.stack == st.stack
    ensures r.Call? ==> r.after.stack == st.stack
  {
    var op := code[st.pc];
    var pc := st.pc + 1;
    var st1 := st.(pc := pc);
    var sp := st.sp;
    var stack := st.stack;
    if IsUnaryOpcode(op) then UnaryStep(op, fp, st1)
    else if IsBinaryOpcode(op) then BinaryStep(op, st1)
    else if op == OpLoad then
      if pc < |code| && 0 <= fp + code[pc] < |stack| && 0 <= sp < |stack|
      then Next(State(pc + 1, sp + 1, st.nLocals, stack[sp := stack[fp + code[pc]]]))
      else Fault
    else if op == OpStore then
      if pc < |code| && 0 <= fp + code[pc] < |stack| && 0 <= sp - 1 < |stack|
      then Next(State(pc + 1, sp - 1, st.nLocals, stack[fp + code[pc] := stack[sp - 1]]))
      else Fault
    else if op == OpInt then
      if pc < |code| && 0 <= sp < |stack|
      then Next(State(pc + 1, sp + 1, st.nLocals, stack[sp := code[pc]]))
      else Fault
    else if op == OpJump then
      if pc < |code| then Next(st1.(pc := pc + code[pc])) else Fault
    else if op == OpJumpIf then
      if !(1 <= sp <= |stack|) then Fault
      else if stack[sp - 1] != 0 then Next(State(pc + 1, sp - 1, st.nLocals, stack))
      else if pc < |code| then Next(State(pc + code[pc], sp - 1, st.nLocals, stack))
      else Fault
    else if op == OpStkAdj then
      if pc < |code| && 0 <= code[pc] <= |stack|
      then Next(State(pc + 1, code[pc], code[pc], stack))
      else Fault
    else if op == OpCall then
      if pc + 1 < |code| then Call(code[pc], code[pc + 1], st1.(pc := pc + 2)) else Fault
    else if op == OpReturn then
      if 1 <= sp <= |stack| then Return(stack[sp - 1], stack) else Fault
    else
      Next(st1)
  }

  /**
   `execute(code, pc, frame_ptr)` from an activation state: loop until the
   program counter reaches the end of the code (the result is then -1) or
   an `op_return` is executed. `op_call nargs target` runs a nested
   activation whose frame starts at the first of the `nargs` argument
   words, with no locals; its result then replaces the arguments.
   */
  function Run(code: seq<int>, fp: int, st: State, fuel: nat): (r: Outcome)
    ensures r.Halt? ==> |r.stack| == |st.stack|
    decreases fuel
  {
    if st.pc == |code| then Halt(-1, st.stack)
    else if fuel == 0 then OutOfFuel
    else if !(0 <= st.pc < |code|) then Crash
    else
      match Step(code, fp, st)
      case Fault => Crash
      case Return(v, stack) => Halt(v, stack)
      case Next(st') => Run(code, fp, st', fuel - 1)
      case Call(nargs, target, after) =>
        var frame := after.sp - nargs;
        if !(0 <= frame <= |after.stack|) || !(0 <= target <= |code|) then Crash
        else
          match Run(code, frame, State(target, frame, 0, after.stack), fuel - 1)
          case Halt(v, stack) =>
            if frame == |stack| then Crash
            else Run(code, fp, after.(sp := after.sp - nargs + 1, stack := stack[frame := v]), fuel - 1)
          case Crash => Crash
          case OutOfFuel => OutOfFuel
  }

  /** `vmachine`: the stack, which outlives each call of `execute`. */
  datatype Machine = Machine(stack: seq<int>)

  /** `vmachine(stackSize)`: a stack of `size` zero words. */
  function NewMachine(size: nat): (m: Machine)
    ensures |m.stack| == size
    ensures forall i :: 0 <= i < size ==> m.stack[i] == 0
  {
    Machine(seq(size, _ => 0))
  }

  /** The machine built with the default stack size. */
  function DefaultMachine(): (m: Machine)
    ensures |m.stack| == DefaultStackSize
    ensures forall i :: 0 <= i < DefaultStackSize ==> m.stack[i] == 0
  {
    NewMachine(DefaultStackSize)
  }

  /** `execute(code)`: start at word 0 with the frame at the stack base. */
  function Execute(m: Machine, code: seq<int>, fuel: nat): (r: Outcome)
    ensures code == [] ==> r == Halt(-1, m.stack)
    ensures r.Halt? ==> |r.stack| == |m.stack|
  {
    Run(code, 0, State(0, 0, 0, m.stack), fuel)
  }

  // ---------------------------------------------------------------------
  // The effect of each opcode
  // ---------------------------------------------------------------------

  /**
   The stack holds C++ `int`s: when the stack starts out in range and every
   `op_int` operand is an `int`, one instruction keeps every stack word in
   range.
   */
  lemma StepKeepsWords(code: seq<int>, fp: int, st: State)
    requires 0 <= st.pc < |code| && IntOperandsInRange(code) && WordsInRange(st.stack)
    ensures Step(code, fp, st).Next? ==> WordsInRange(Step(code, fp, st).next.stack)
    ensures Step(code, fp, st).Return? ==> InRange(Step(code, fp, st).value)
  {
  }

  /** The same for a whole run: a halting run returns an `int` and leaves only `int`s. */
  lemma {:induction false} RunKeepsWords(code: seq<int>, fp: int, st: State, fuel: nat)
    requires IntOperandsInRange(code) && WordsInRange(st.stack)
    ensures Run(code, fp, st, fuel).Halt? ==>
      InRange(Run(code, fp, st, fuel).value) && WordsInRange(Run(code, fp, st, fuel).stack)
    decreases fuel
  {
    if st.pc != |code| && fuel > 0 && 0 <= st.pc < |code| {
      StepKeepsWords(code, fp, st);
      match Step(code, fp, st)
      case Fault =>
      case Return(_, _) =>
      case Next(st') => RunKeepsWords(code, fp, st', fuel - 1);
      case Call(nargs, target, after) =>
        var frame := after.sp - nargs;
        if 0 <= frame <= |after.stack| && 0 <= target <= |code| {
          RunKeepsWords(code, frame, State(target, frame, 0, after.stack), fuel - 1);
          match Run(code, frame, State(target, frame, 0, after.stack), fuel - 1)
          case Halt(v, stack) =>
            if frame != |stack| {
              RunKeepsWords(code, fp, after.(sp := after.sp - nargs + 1, stack := stack[frame := v]), fuel - 1);
            }
          case Crash =>
          case OutOfFuel =>
        }
    }
  }

  /** Comparisons and the logical operators yield 0 or 1. */
  lemma BooleanResults(op: int, a: int, b: int)
    requires op in [OpEq, OpNeq, OpLt, OpLte, OpGt, OpGte, OpLogicalAnd, OpLogicalOr]
    ensures IsBinaryOpcode(op) && ApplyBinary(op, a, b).Some?
    ensures ApplyBinary(op, a, b).value == 0 || ApplyBinary(op, a, b).value == 1
  {
  }

  /**
   A binary opcode consumes the two top words, the left operand below the
   right one, and leaves `left op right` in their place: one word less.
   */
  lemma BinaryEffect(code: seq<int>, fp: int, st: State)
    requires 0 <= st.pc < |code| && IsBinaryOpcode(code[st.pc])
    ensures Step(code, fp, st).Next? <==>
      2 <= st.sp <= |st.stack|
      && ApplyBinary(code[st.pc], st.stack[st.sp - 2], st.stack[st.sp - 1]).Some?
    ensures Step(code, fp, st).Next? ==> Step(code, fp, st).next == State(
      st.pc + 1, st.sp - 1, st.nLocals,
      st.stack[st.sp - 2 := ApplyBinary(code[st.pc], st.stack[st.sp - 2], st.stack[st.sp - 1]).value])
  {
  }

  /**
   A unary opcode replaces the top word by its result; the height is
   unchanged, and the top must lie above the frame's locals.
   */
  lemma UnaryEffect(code: seq<int>, fp: int, st: State)
    requires 0 <= st.pc < |code| && IsUnaryOpcode(code[st.pc])
    ensures Step(code, fp, st).Next? <==>
      1 <= st.sp <= |st.stack| && fp + st.nLocals <= st.sp - 1
      && ApplyUnary(code[st.pc], st.stack[st.sp - 1]).Some?
    ensures Step(code, fp, st).Next? ==> Step(code, fp, st).next == State(
      st.pc + 1, st.sp, st.nLocals,
      st.stack[st.sp - 1 := ApplyUnary(code[st.pc], st.stack[st.sp - 1]).value])
  {
  }

  /** `op_load s` pushes the frame word `s` and skips its operand. */
  lemma LoadEffect(code: seq<int>, fp: int, st: State)
    requires 0 <= st.pc < |code| - 1 && code[st.pc] == OpLoad
    requires 0 <= fp + code[st.pc + 1] < |st.stack| && 0 <= st.sp < |st.stack|
    ensures Step(code, fp, st) == Next(State(
      st.pc + 2, st.sp + 1, st.nLocals, st.stack[st.sp := st.stack[fp + code[st.pc + 1]]]))
  {
  }

  /** `op_store s` pops the top word into frame word `s`. */
  lemma StoreEffect(code: seq<int>, fp: int, st: State)
    requires 0 <= st.pc < |code| - 1 && code[st.pc] == OpStore
    requires 0 <= fp + code[st.pc + 1] < |st.stack| && 1 <= st.sp <= |st.stack|
    ensures Step(code, fp, st) == Next(State(
      st.pc + 2, st.sp - 1, st.nLocals, st.stack[fp + code[st.pc + 1] := st.stack[st.sp - 1]]))
  {
  }

  /** `op_int v` pushes `v`. */
  lemma IntEffect(code: seq<int>, fp: int, st: State)
    requires 0 <= st.pc < |code| - 1 && code[st.pc] == OpInt
    requires 0 <= st.sp < |st.stack|
    ensures Step(code, fp, st) == Next(State(
      st.pc + 2, st.sp + 1, st.nLocals, st.stack[st.sp := code[st.pc + 1]]))
  {
  }

  /** `op_jump d` moves to the operand's index plus `d`. */
  lemma JumpEffect(code: seq<int>, fp: int, st: State)
    requires 0 <= st.pc < |code| - 1 && code[st.pc] == OpJump
    ensures Step(code, fp, st) == Next(st.(pc := st.pc + 1 + code[st.pc + 1]))
  {
  }

  /**
   `op_jump_if d` pops the condition; zero jumps to the operand's index
   plus `d`, anything else continues after the operand.
   */
  lemma JumpIfEffect(code: seq<int>, fp: int, st: State)
    requires 0 <= st.pc < |code| - 1 && code[st.pc] == OpJumpIf
    requires 1 <= st.sp <= |st.stack|
    ensures Step(code, fp, st) == Next(State(
      if st.stack[st.sp - 1] == 0 then st.pc + 1 + code[st.pc + 1] else st.pc + 2,
      st.sp - 1, st.nLocals, st.stack))
  {
  }

  /** `op_stk_adj n` sets `n_locals` to `n` and the stack pointer to the absolute index `n`. */
  lemma StkAdjEffect(code: seq<int>, fp: int, st: State)
    requires 0 <= st.pc < |code| - 1 && code[st.pc] == OpStkAdj
    ensures Step(code, fp, st).Next? <==> 0 <= code[st.pc + 1] <= |st.stack|
    ensures Step(code, fp, st).Next? ==>
      Step(code, fp, st).next == State(st.pc + 2, code[st.pc + 1], code[st.pc + 1], st.stack)
  {
  }

  /** A word that is no opcode only advances the program counter. */
  lemma OtherWordEffect(code: seq<int>, fp: int, st: State)
    requires 0 <= st.pc < |code| && code[st.pc] !in AllOpcodes
    ensures Step(code, fp, st) == Next(st.(pc := st.pc + 1))
  {
  }

  /** Reaching the end of the code ends the activation with -1. */
  lemma EndResult(code: seq<int>, fp: int, st: State, fuel: nat)
    requires st.pc == |code|
    ensures Run(code, fp, st, fuel) == Halt(-1, st.stack)
  {
  }

  /** `op_return` ends the activation with the top word. */
  lemma ReturnResult(code: seq<int>, fp: int, st: State, fuel: nat)
    requires 0 <= st.pc < |code| && code[st.pc] == OpReturn && fuel > 0
    requires 1 <= st.sp <= |st.stack|
    ensures Run(code, fp, st, fuel) == Halt(st.stack[st.sp - 1], st.stack)
  {
  }

  /**
   `op_call nargs target`: once the nested activation, framed at the first
   argument, returns `v`, the `nargs` arguments are replaced by `v` and the
   caller continues after the call's two operand words.
   */
  lemma CallResult(code: seq<int>, fp: int, st: State, fuel: nat, v: int, stack: seq<int>)
    requires 0 <= st.pc < |code| - 2 && code[st.pc] == OpCall && fuel > 0
    requires 0 <= st.sp - code[st.pc + 1] < |st.stack| && 0 <= code[st.pc + 2] <= |code|
    requires Run(code, st.sp - code[st.pc + 1],
                 State(code[st.pc + 2], st.sp - code[st.pc + 1], 0, st.stack), fuel - 1)
             == Halt(v, stack)
    ensures |stack| == |st.stack|
    ensures Run(code, fp, st, fuel) == Run(code, fp, State(
      st.pc + 3, st.sp - code[st.pc + 1] + 1, st.nLocals,
      stack[st.sp - code[st.pc + 1] := v]), fuel - 1)
  {
  }

  // ---------------------------------------------------------------------
  // Runs of plain steps
  // ---------------------------------------------------------------------

  /**
   The state after `k` iterations of the dispatch loop that each continue
   with the next word (no call, no return, no fault, no end of code).
   */
  function Steps(code: seq<int>, fp: int, st: State, k: nat): Option<State>
    decreases k
  {
    if k == 0 then Some(st)
    else if !(0 <= st.pc < |code|) then None
    else
      match Step(code, fp, st)
      case Next(st') => Steps(code, fp, st', k - 1)
      case _ => None
  }

  /** Plain steps compose. */
  lemma {:induction false} StepsAppend(code: seq<int>, fp: int, st: State, k1: nat, k2: nat)
    requires Steps(code, fp, st, k1).Some?
    ensures Steps(code, fp, st, k1 + k2) == Steps(code, fp, Steps(code, fp, st, k1).value, k2)
    decreases k1
  {
    if k1 > 0 {
      StepsAppend(code, fp, Step(code, fp, st).next, k1 - 1, k2);
    }
  }

  /** A run that first takes `k` plain steps spends `k` units of fuel on them. */
  lemma {:induction false} RunSteps(code: seq<int>, fp: int, st: State, k: nat, fuel: nat)
    requires Steps(code, fp, st, k).Some?
    ensures Run(code, fp, st, fuel + k) == Run(code, fp, Steps(code, fp, st, k).value, fuel)
    decreases k
  {
    if k > 0 {
      RunSteps(code, fp, Step(code, fp, st).next, k - 1, fuel);
    }
  }
}
