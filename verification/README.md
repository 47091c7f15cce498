# DaedalusCompiler core in Dafny

DaedalusCompiler compiles a small C-like language (integer variables,
unary and binary operators, assignments, declarations, `if`/`else`,
`while` and blocks) to a word-coded bytecode, and runs that bytecode on a
stack machine. This project models four parts of it and proves
properties about them:

- **The opcode encoding.** `byte_code` in `src/vm/vm.hpp`, in module
  `ByteCode`. Unary opcodes carry bit 31, binary opcodes carry bit 30,
  and the data-movement and control opcodes carry neither.
- **The code buffer and the compiler.** The code buffer is
  `code_gen::program` and the compiler is `code_gen::compiler` in
  `src/visitors/compiler.cpp`, modelled in modules `CodeGen` and
  `Compiler`.
  - Every visitor overload is a function from the buffer before a node
    to the buffer after it, or `None` when the C++ overload returns
    `false`.
  - The jump placeholders and their back-patches are modelled
    word for word.
  - Module `Scope` gives the static conditions under which the compiler
    succeeds.
  - Module `Layout` gives the exact words it emits for each construct.
- **The stack machine.** `vmachine::execute` in `src/vm.cpp`, in modules
  `VM` and `CppInt`. The machine works on C++ `int` words; every
  undefined behaviour and every failed `BOOST_ASSERT` ends the run with
  `Crash`.
- **The expression-collapse pass.** `ExpressionCollapse` over the
  default recursion of `VisitorAdapter`, in modules `Collapse` and
  `Traversal`.

On top of these, module `Semantics` gives a reference meaning to the
language: a value for every operand and an environment for every
statement, independent of the bytecode. Module `Correctness` proves that
the compiled code, run on the machine, computes that meaning.

The main results:

- **Compiler success.** The compiler succeeds exactly on well-scoped
  programs: every name is declared before use and declared once, and
  every token has the right arity. On success it emits exactly the
  `Layout` fragments, with every jump offset landing on the intended
  word (`Compiler.Compile`). On failure it leaves an empty buffer.
- **Collapse.** The collapse pass leaves no chain without links anywhere
  in the program, and is idempotent on operands and on whole programs
  (`Collapse.NormalizeIdempotent`, `Collapse.NormalizeBlockIdempotent`).
  It keeps both the leaves a visitor meets and their order (`Traversal.NormalizeKeepsLeaves`), and the
  value of every operand (`Semantics.NormalizeKeepsValue`). It changes
  neither whether compilation succeeds nor the words emitted
  (`Collapse.CollapseKeepsCompile`).
- **Opcodes.** The opcode values are pairwise distinct and carry the
  flags the machine's dispatch relies on (`ByteCode.OpcodesDistinct`,
  `ByteCode.UnaryOpcodesFlagged`, `ByteCode.BinaryOpcodesFlagged`).
- **Compiler correctness** (`Correctness.CompileCorrect`). Take a
  program that compiles and that terminates under the reference
  semantics. Run on a machine whose stack has room for its variables and
  temporaries, it reaches the end of its code and returns -1, and every
  variable's final value sits in the variable's slot.

The model keeps two properties of the source as they are:

- `op_stk_adj` sets the stack pointer to an absolute index
  (`stack.begin() + n_locals`), not to one relative to the frame. This
  only matters inside a called function, and the compiler never emits
  calls.
- `op_jump_if` pops its condition after the jump has been decided.

## Model

| member | source | states |
|---|---|---|
| CppInt.FromBool | src/vm.cpp:98-127 | a C++ `bool` converted to `int` is 0 or 1, and is non-zero exactly when the condition holds |
| CppInt.Checked | src/vm.cpp:63-76 | an arithmetic result is defined exactly when it lies in the 32-bit signed range, and is then the mathematical value |
| CppInt.TruncDiv | src/vm.cpp:78-81 | C++ `/` truncates toward zero: the magnitude is the quotient of the magnitudes, and the sign is positive exactly when the operand signs agree |
| CppInt.TruncMod | src/vm.cpp:83-86 | C++ `%` pairs with the truncated quotient (quotient * divisor + remainder = dividend), is smaller in magnitude than the divisor, and takes the dividend's sign |
| CppInt.TruncDivMod | src/vm.cpp:78-86 | the truncated quotient and the signed remainder recombine to the dividend for every non-zero divisor |
| CppInt.Div | src/vm.cpp:78-81 | `a / b` is defined exactly when `b` is non-zero and the truncated quotient is representable (so `INT_MIN / -1` is undefined), and is then the quotient truncated toward zero |
| CppInt.Mod | src/vm.cpp:83-86 | `a % b` is defined exactly when `a / b` is, `(a / b) * b + a % b == a`, and the remainder of an `int` divisor is an `int` |
| CppInt.ShiftLeft | src/vm.cpp:88-91 | `a << b` is defined exactly for a shift count in 0..31 and a non-negative `a` with `a * 2^b < 2^32` (the C++14 rule), and is then the `int` congruent to `a * 2^b` modulo 2^32 |
| CppInt.ShiftIntoSignBit | src/vm.cpp:88-91 | `1 << 31` is defined and equals `INT_MIN`, while `2 << 31` and `-1 << 0` are undefined |
| CppInt.ShiftRight | src/vm.cpp:93-96 | `a >> b` is defined exactly for a shift count in 0..31; the value is the arithmetic shift, which rounds toward minus infinity (`r * 2^b <= a < (r + 1) * 2^b`; implementation-defined for a negative `a`, see below), and keeps an `int` an `int` |
| CppInt.FromBits | src/vm.cpp:128-141 | a 32-bit pattern reads as the `int` equal to it or to it minus 2^32, and that `int` is non-negative exactly when bit 31 is clear |
| CppInt.BitAnd | src/vm.cpp:128-131 | `a & b` on two's complement patterns is a representable value |
| CppInt.BitOr | src/vm.cpp:138-141 | `a \| b` on two's complement patterns is a representable value |
| CppInt.BitXor | src/vm.cpp:133-136 | `a ^ b` on two's complement patterns is a representable value |
| ByteCode.FlagsArePowersOfTwo | src/vm/vm.hpp:16-17 | the binary flag is 2^30 and the unary flag is twice that |
| ByteCode.UnaryOpcodesFlagged | src/vm/vm.hpp:21-24 | the four unary opcodes have bit 31 set and bit 30 clear |
| ByteCode.BinaryOpcodesFlagged | src/vm/vm.hpp:26-47 | the eighteen binary opcodes have bit 30 set and bit 31 clear |
| ByteCode.PlainOpcodesUnflagged | src/vm/vm.hpp:49-60 | `op_load` … `op_return` are 23 … 30 and carry neither flag |
| ByteCode.OpcodeNumbers | src/vm/vm.hpp:19-61 | below the flags, the thirty opcodes are numbered 1 … 30 in enumeration order |
| ByteCode.OpcodesDistinct | src/vm/vm.hpp:19-61 | no two opcodes share a value, so the dispatch switch is unambiguous |
| CodeGen.Clear | src/visitors/compiler.hpp:28 | `clear()` leaves no words and no variables |
| CodeGen.Set | src/visitors/compiler.hpp:26 | writing through `operator[]` changes exactly the one word, and neither the size nor the table |
| CodeGen.Op1 | src/visitors/compiler.cpp:19-21 | `op(a)` appends `a` and keeps every earlier word and the table |
| CodeGen.Op2 | src/visitors/compiler.cpp:23-26 | `op(a, b)` appends `a, b` and keeps every earlier word and the table |
| CodeGen.Op3 | src/visitors/compiler.cpp:28-32 | `op(a, b, c)` appends `a, b, c` and keeps every earlier word and the table |
| CodeGen.FindVar | src/visitors/compiler.cpp:34-39 | `find_var` finds a slot exactly for the names in the table, and it is their slot |
| CodeGen.AddVar | src/visitors/compiler.cpp:41-44 | `add_var` maps the name to the table size before the insertion, leaves every other name alone, grows the table by one for a new name, and leaves the code unchanged |
| CodeGen.AddVarKeepsDense | src/visitors/compiler.cpp:41-44 | adding a fresh name keeps slots distinct and within `0 .. nvars()` |
| Scope.DeclareAppend | src/visitors/compiler.cpp:360-366 | declaring the names of one statement and then the next is declaring the names of both |
| Scope.DeclareSlots | src/visitors/compiler.cpp:41-44 | declaring fresh names one by one gives the i-th of them slot `nvars() + i`, keeps older slots and grows the table by one per name |
| Scope.DeclareKeys | src/visitors/compiler.cpp:41-44 | the names in the table after a run of declarations are the old names plus the declared ones |
| Scope.WellScopedDeclsFresh | src/visitors/compiler.cpp:345-350 | a statement that compiles declares only names not yet in the table, none twice (the duplicate-variable check) |
| Scope.ListWellScopedDeclsFresh | src/visitors/compiler.cpp:360-366 | the same for a statement list, whose later statements see the earlier declarations |
| Layout.BinaryOpcode | src/visitors/compiler.cpp:233-295 | the operation overload has an opcode exactly for the binary tokens, and it carries the binary flag only |
| Layout.UnaryOpcode | src/visitors/compiler.cpp:302-318 | the unary overload has an opcode exactly for the four unary tokens, and it carries the unary flag only |
| Layout.BinaryOpcodeInjective | src/visitors/compiler.cpp:233-295 | different binary tokens are compiled to different opcodes |
| Layout.UnaryOpcodeInjective | src/visitors/compiler.cpp:302-318 | different unary tokens are compiled to different opcodes |
| Layout.IfPatch | src/visitors/compiler.cpp:371-375 | patching the `op_jump_if` placeholder with `size() - skip` makes it skip exactly the then-block |
| Layout.IfElseJoin | src/visitors/compiler.cpp:377-385 | with an else-branch, the patched offset grows by 2 to also skip the `op_jump`, which skips exactly the else-block |
| Layout.WhilePatch | src/visitors/compiler.cpp:391-400 | the loop's back-jump returns to the condition's first word, and the patched `op_jump_if` skips the body and the back-jump |
| Compiler.CompileOperand | src/visitors/compiler.cpp:215-331 | an operand compiles exactly when its variables are declared and its tokens have the right arity; it then appends exactly its fragment and leaves the table unchanged |
| Compiler.CompileRest | src/visitors/compiler.cpp:326-329 | the links of a chain compile in order, exactly when each of them compiles, to the concatenation of their fragments |
| Compiler.CompileOperation | src/visitors/compiler.cpp:230-297 | one link compiles to its operand's code followed by its binary opcode, exactly when the token is binary and the operand compiles |
| Compiler.CompileStatement | src/visitors/compiler.cpp:333-402 | a statement compiles exactly when it is well scoped; it then appends exactly its fragment and declares exactly the names it declares |
| Compiler.CompileVarDecl | src/visitors/compiler.cpp:345-358 | a declaration fails on a duplicate name and otherwise compiles exactly when its initializer does, which cannot see the new name; the value is stored into slot `nvars()` before the insertion |
| Compiler.CompileAssign | src/visitors/compiler.cpp:333-343 | an assignment compiles exactly when its right-hand side compiles and its target is declared, and stores into the target's slot |
| Compiler.CompileIf | src/visitors/compiler.cpp:368-388 | an `if` compiles exactly when it is well scoped, to the condition, a patched `op_jump_if`, the then-block and, with an else, the patched `op_jump` and the else-block |
| Compiler.CompileElse | src/visitors/compiler.cpp:377-385 | the else part adds 2 to the patched offset, then appends the `op_jump` over the else-block and the block itself |
| Compiler.CompileWhile | src/visitors/compiler.cpp:390-402 | a `while` compiles exactly when it is well scoped, to the condition, an `op_jump_if` past the loop, the body and a back-jump to the condition |
| Compiler.CompileList | src/visitors/compiler.cpp:360-366 | a list compiles exactly when each statement compiles in the table its predecessors leave, to the concatenation of their fragments |
| Compiler.Compile | src/visitors/compiler.cpp:404-415 | `compile` succeeds exactly on well-scoped programs; a failure leaves an empty buffer; success leaves `op_stk_adj <number of declared names>` followed by the program's fragments, and the table of the declared names |
| Compiler.IfClose | src/visitors/compiler.cpp:371-375 | the placeholder index `skip` is the word after `op_jump_if`, and patching it yields the then-fragment |
| Compiler.ElseClose | src/visitors/compiler.cpp:379-384 | the `op_jump` placeholder is patched to skip exactly the else-block |
| Compiler.WhileClose | src/visitors/compiler.cpp:394-400 | the back-jump operand `(loop - 1) - size()` and the exit patch yield the loop fragment |
| Compiler.ProgramClose | src/visitors/compiler.cpp:407-413 | patching word 1 with `nvars()` writes the number of declared names |
| VM.ApplyUnary | src/vm.cpp:47-61 | on an `int`, a unary opcode is undefined only for `-INT_MIN`, and its result is an `int` |
| VM.ApplyBinary | src/vm.cpp:63-151 | only the arithmetic and shift opcodes can be undefined; comparisons, bitwise and logical opcodes always succeed, and on two `int`s every result is an `int` |
| VM.UnaryStep | src/vm.cpp:19-29 | `pushInt(op(popInt()))` either faults or rewrites the top word in place, keeping the stack pointer, the local count, the stack's length and the `int` range of its words |
| VM.BinaryStep | src/vm.cpp:63-151 | a binary case either faults or lowers the stack pointer by one, keeping the local count, the stack's length and the `int` range of its words |
| VM.StepKeepsWords | src/vm.cpp:43-201 | with a stack of `int`s and an `int` operand after every `op_int`, one instruction leaves only `int`s on the stack and `op_return` returns an `int` |
| VM.RunKeepsWords | src/vm.cpp:12-204 | with a stack of `int`s and an `int` operand after every `op_int`, a halting run, nested calls included, returns an `int` and leaves only `int`s on the stack |
| VM.Step | src/vm.cpp:43-201 | no instruction changes the length of the stack |
| VM.Run | src/vm.cpp:12-204 | a run that halts leaves a stack of the same length |
| VM.NewMachine | src/vm/vm.hpp:67-70 | a new machine has a stack of the requested number of zero words |
| VM.DefaultMachine | src/vm/vm.hpp:67-70 | the default machine has 4096 zero words |
| VM.Execute | src/vm/vm.hpp:78-81 | `execute(code)` on empty code returns -1 at once, and a halting run keeps the stack's length |
| VM.BooleanResults | src/vm.cpp:98-151 | comparisons and the logical operators always produce 0 or 1 |
| VM.BinaryEffect | src/vm.cpp:63-151 | a binary opcode succeeds exactly when two words are on the stack and the operation is defined, and replaces them by `left op right` |
| VM.UnaryEffect | src/vm.cpp:19-61 | a unary opcode succeeds exactly when the top word lies above the frame's locals and the operation is defined, and replaces the top word |
| VM.LoadEffect | src/vm.cpp:153-155 | `op_load s` pushes frame word `s` and moves past its operand |
| VM.StoreEffect | src/vm.cpp:157-160 | `op_store s` pops the top word into frame word `s` |
| VM.IntEffect | src/vm.cpp:162-164 | `op_int v` pushes `v` |
| VM.JumpEffect | src/vm.cpp:166-168 | `op_jump d` moves to the operand's index plus `d` |
| VM.JumpIfEffect | src/vm.cpp:170-176 | `op_jump_if d` pops the condition, jumps by `d` from the operand's index on zero, and otherwise continues after the operand |
| VM.StkAdjEffect | src/vm.cpp:178-181 | `op_stk_adj n` succeeds exactly when `n` fits in the stack, and sets the local count and the absolute stack pointer to `n` |
| VM.OtherWordEffect | src/vm.cpp:46-201 | a word that matches no case of the switch only advances the program counter |
| VM.EndResult | src/vm.cpp:43-203 | reaching the end of the code ends the activation with -1 |
| VM.ReturnResult | src/vm.cpp:199-200 | `op_return` ends the activation with the top word |
| VM.CallResult | src/vm.cpp:183-197 | `op_call nargs target` runs a nested activation framed at the first argument, then replaces the arguments by its result and continues after the call |
| VM.StepsAppend | src/vm.cpp:43-202 | runs of plain dispatch steps compose |
| VM.RunSteps | src/vm.cpp:43-202 | a run that starts with `k` plain steps spends `k` units of fuel on them and continues from where they end |
| Collapse.Normalize | src/visitors/ExpressionCollapse.hpp:12-34 | the result contains no chain without links; literals and variables stay; a unary keeps its token; a longer chain keeps its tokens and their order |
| Collapse.NormalizeRest | src/visitors/VisitorAdapter.hpp:97-104 | the links of a chain keep their number and tokens, and every link operand is collapsed |
| Collapse.NormalizeOperation | src/visitors/VisitorAdapter.hpp:72-76 | a link keeps its token, and its operand is collapsed |
| Collapse.NormalizeStatement | src/visitors/VisitorAdapter.hpp:106-147 | after the pass over a statement, every operand it holds at any depth is collapsed, and it declares the same names |
| Collapse.NormalizeList | src/visitors/VisitorAdapter.hpp:125-131 | the pass over a list keeps its length and the names it declares, and leaves every operand in it collapsed |
| Collapse.NormalizeBlock | src/main.cpp:115-121 | the pass over the whole program keeps the number of statements and leaves every operand collapsed |
| Collapse.NormalizeCollapsed | src/visitors/ExpressionCollapse.hpp:26-34 | an operand without link-less chains is left exactly as it is |
| Collapse.NormalizeRestCollapsed | src/visitors/ExpressionCollapse.hpp:26-34 | the same for the links of a chain |
| Collapse.NormalizeOperationCollapsed | src/visitors/ExpressionCollapse.hpp:26-34 | the same for one link |
| Collapse.NormalizeIdempotent | src/visitors/ExpressionCollapse.hpp:12-34 | running the pass twice gives the same operand as running it once |
| Collapse.NormalizeStatementCollapsed | src/visitors/VisitorAdapter.hpp:106-147 | a statement whose operands are all collapsed is left exactly as it is |
| Collapse.NormalizeListCollapsed | src/visitors/VisitorAdapter.hpp:125-131 | the same for a statement list |
| Collapse.NormalizeBlockIdempotent | src/main.cpp:115-121 | over a whole program, the pass leaves no chain without links, and a second run changes nothing |
| Collapse.NormalizeKeepsCode | src/visitors/ExpressionCollapse.hpp:28-29 | a collapsed operand compiles under exactly the same tables, to exactly the same words |
| Collapse.NormalizeRestKeepsCode | src/visitors/VisitorAdapter.hpp:97-104 | the same for the links of a chain |
| Collapse.NormalizeOperationKeepsCode | src/visitors/VisitorAdapter.hpp:72-76 | the same for one link |
| Collapse.NormalizeStatementKeepsCode | src/visitors/VisitorAdapter.hpp:106-147 | the pass changes neither whether a statement compiles nor the words it compiles to |
| Collapse.NormalizeIfKeepsCode | src/visitors/VisitorAdapter.hpp:133-140 | the same for an `if` without an else-branch |
| Collapse.NormalizeIfElseKeepsCode | src/visitors/VisitorAdapter.hpp:133-140 | the same for an `if` with an else-branch |
| Collapse.NormalizeWhileKeepsCode | src/visitors/VisitorAdapter.hpp:142-147 | the same for a `while` |
| Collapse.NormalizeListKeepsCode | src/visitors/VisitorAdapter.hpp:125-131 | the same for a statement list |
| Collapse.CollapseKeepsCompile | src/visitors/compiler.cpp:404-415 | `compile` gives the very same result with or without the collapse pass |
| Traversal.CompilableByTrace | src/visitors/VisitorAdapter.hpp:66-104 | an operand compiles exactly when every handler the default traversal enters accepts it |
| Traversal.RestCompilableByTrace | src/visitors/VisitorAdapter.hpp:97-104 | the same for the links of a chain |
| Traversal.OperationCompilableByTrace | src/visitors/VisitorAdapter.hpp:72-76 | the same for one link |
| Traversal.NormalizeKeepsLeaves | src/visitors/ExpressionCollapse.hpp:12-43 | the literals and variables a traversal meets, and their order, are the same before and after the pass |
| Traversal.NormalizeRestKeepsLeaves | src/visitors/VisitorAdapter.hpp:97-104 | the same for the links of a chain |
| Traversal.NormalizeOperationKeepsLeaves | src/visitors/VisitorAdapter.hpp:72-76 | the same for one link |
| Traversal.NormalizeStatementKeepsLeaves | src/visitors/VisitorAdapter.hpp:106-147 | for a statement, whose traversal visits an assignment's right-hand side before its target, then an `if`'s condition, then-block and else-block, and a `while`'s condition and body: the literals and variables met, and their order, are the same before and after the pass |
| Traversal.NormalizeListKeepsLeaves | src/visitors/VisitorAdapter.hpp:125-131 | the same for a statement list visited in order |
| Semantics.NormalizeKeepsValue | src/visitors/ExpressionCollapse.hpp:12-34 | the pass does not change the value of any operand in any environment |
| Semantics.NormalizeRestKeepsValue | src/visitors/VisitorAdapter.hpp:97-104 | the same for the left fold over the links of a chain |
| Semantics.NormalizeOperationKeepsValue | src/visitors/VisitorAdapter.hpp:72-76 | the same for one link |
| Correctness.UnaryLink | src/visitors/compiler.cpp:299-320 | the opcode emitted for a unary token computes the token's C++ meaning |
| Correctness.BinaryLink | src/visitors/compiler.cpp:230-297 | the opcode emitted for a binary token computes the token's C++ meaning |
| Correctness.OperandRuns | src/visitors/compiler.cpp:215-331 | an operand's code pushes the operand's value, raises the stack pointer by one and changes no word below it |
| Correctness.UnaryRuns | src/visitors/compiler.cpp:299-320 | the same for a unary operand |
| Correctness.ChainRuns | src/visitors/compiler.cpp:322-331 | the same for a chain, which folds from the left |
| Correctness.RestRuns | src/visitors/compiler.cpp:326-329 | the links of a chain fold into the accumulator word and leave the stack pointer where it was |
| Correctness.OperationRuns | src/visitors/compiler.cpp:230-297 | one link replaces the accumulator by `accumulator op operand` |
| Correctness.StatementRuns | src/visitors/compiler.cpp:333-402 | a statement's code takes frame words holding the environment before it to frame words holding the environment after it, and returns the stack pointer to where it was |
| Correctness.StoreRuns | src/visitors/compiler.cpp:333-358 | a declaration or an assignment stores the value of its right-hand side into the name's slot |
| Correctness.StoreSlot | src/vm.cpp:157-160 | an operand's code followed by `op_store slot` updates exactly that variable's slot |
| Correctness.CondJump | src/vm.cpp:170-176 | a condition's code followed by `op_jump_if` leaves the stack as it was and lands after the operand when the value is non-zero, or at the jump target when it is zero |
| Correctness.JumpRuns | src/vm.cpp:166-168 | `op_jump` is one plain step to its target |
| Correctness.IfRuns | src/visitors/compiler.cpp:368-388 | an `if` without an else-branch runs its block exactly when the condition is non-zero, and ends after its code |
| Correctness.IfBranch | src/visitors/compiler.cpp:368-375 | the same, stated on the pieces of the fragment |
| Correctness.IfElseRuns | src/visitors/compiler.cpp:368-388 | an `if` with an else-branch runs exactly the branch the condition selects, and ends after its code |
| Correctness.IfElseBranches | src/visitors/compiler.cpp:377-385 | the same, stated on the pieces of the fragment: the then-branch jumps over the else-block |
| Correctness.ThenJump | src/visitors/compiler.cpp:379-384 | a then-block followed by its `op_jump` ends after the else-block |
| Correctness.WhileRuns | src/visitors/compiler.cpp:390-402 | a `while` runs its body once per iteration the semantics takes, and ends after its code |
| Correctness.LoopRuns | src/visitors/compiler.cpp:390-402 | the same, stated on the pieces of the fragment |
| Correctness.WhileIteration | src/visitors/compiler.cpp:396-400 | one iteration runs the body and the back-jump returns to the condition's first word |
| Correctness.ListRuns | src/visitors/compiler.cpp:360-366 | a statement list's code runs its statements in order |
| Correctness.CompiledSlots | src/visitors/compiler.cpp:404-415 | after `compile`, the table numbers the declared names densely, in declaration order |
| Correctness.CompileCorrect | src/visitors/compiler.cpp:404-415 | a program that compiles and terminates under the reference semantics, run by `execute` on a stack with room for its variables and temporaries, returns -1, with every variable's final value in its slot |

## Left out

- Parsing, error reporting and source positions are left out. This covers the Spirit grammar, the error handler and `position_tagged`. A compile failure is the bare `false`.
- Printing is left out: `print_assembler`, `print_variables`, `printStackFrame`, `PrettyPrinter` and `DumpAstVisitor`. It only writes to standard output.
- `main`, `daedalusc` and `BaseVisitor` are left out. They are the program's driver, not the core.
- Array declarations and functions are left out. The compiler has no overload for them, so a program holding them cannot be compiled. The unused `binary_expression` node is left out as well.
- `op_call` and `op_return` are modelled in `VM.Run`, but the compiler never emits them. The correctness proof therefore fixes the frame pointer at 0, as in the top-level activation.
- The declarations in `compiler.hpp` that the source file does not define are left out. These are `const` overloads, `expression_visit_left_to_right` and `start`. The model follows `compiler.cpp`.
- The operand `nil` is left out: visiting it is an assertion failure, so a parsed tree never holds one.
- A declaration's type name is left out, because the compiler ignores it. A declaration is a name with an initializer, as `compiler.cpp` reads it (`x.assign.lhs`, `x.assign.rhs`). The optional initializer of `ast.hpp` is not modelled.
- Code words are compared with the opcode values as unbounded integers. The C++ code stores the unsigned enumerators in `int` words and converts them back for the `switch`. Both sides use the same conversion, so it is not modelled.
- Literals are unbounded integers. The parser only produces `int` literals, but the model does not restrict them.
- In the machine, `BOOST_ASSERT` is taken as enabled: a failed assertion ends the run with `Crash`. Undefined behaviour also ends the run with `Crash` in the machine, and with `None` in the reference semantics.
- In the compiler, the two `default: BOOST_ASSERT(0); return false;` branches (src/visitors/compiler.cpp:292-294 and 315-317) are read as `return false`, an ordinary compile failure. With assertions enabled the source aborts there instead. The parser's token tables (src/expression.cpp:65-107) never put a token of the wrong arity in these places, so only hand-built trees reach them.
- CppInt.ShiftRight: C++14 leaves `a >> b` of a negative `a` implementation-defined. The model takes the arithmetic (floor) shift that the compilers in use produce, so `-5 >> 1` is -3.
- A left shift into the sign bit converts a value of at least 2^31 to `int`. C++14 leaves this conversion implementation-defined; the model takes the two's complement result that the compilers in use produce.
- `VM.Run` and `Semantics.Exec` take fuel. `VM.Run` spends one unit per dispatched instruction. An `op_call` hands the remaining fuel both to the called activation and to the rest of the caller, so the fuel bounds each activation's chain of instructions, not the total count. `Semantics.Exec` spends one unit per loop iteration. A program that runs forever therefore has no result in the model; that case is `OutOfFuel` or `None`.
- CppInt.BitAnd, CppInt.BitOr and CppInt.BitXor state only that the result is representable. Their values are defined through the 32-bit patterns, but no algebraic property of them is proved.
- VM.StepKeepsWords and VM.RunKeepsWords ask that the word after every word equal to `op_int` (25) is an `int`. They do not decode the code into instructions, so an operand word that happens to be 25 counts too. For example, `[op_int, 25, op_neg]` is outside their precondition, although only the `25` is ever pushed.
- VM.Step and VM.Run state only that the stack's length is kept. What each opcode does is stated per opcode by the `VM.*Effect` and `VM.*Result` lemmas.
- Correctness.CompileCorrect covers only programs that terminate under the reference semantics, where every variable is read only after its declaration has run. It assumes no undefined behaviour along the way. It does not state what the machine does for programs that crash or run forever.
