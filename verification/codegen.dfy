/**
 The code buffer the compiler writes into (`code_gen::program`,
 src/visitors/compiler.hpp:20-43 and src/visitors/compiler.cpp:19-44):
 a growing vector of words and a name-to-slot table.
 */
module CodeGen {
  import opened Wrappers

  /** `std::map<std::string, int> variables` plus `std::vector<int> code`. */
  datatype Program = Program(code: seq<int>, variables: map<string, int>)

  /** A buffer with no code and no variables. */
  const Empty: Program := Program([], map[])

  /** `size()`: the number of words emitted so far. */
  function Size(p: Program): nat { |p.code| }

  /** `nvars()`: the number of entries of the name-to-slot table. */
  function NVars(p: Program): nat { |p.variables| }

  /** `operator[] const`: the word at index `i`. */
  function Get(p: Program, i: int): int
    requires 0 <= i < Size(p)
  {
    p.code[i]
  }

  /** `clear()` empties both the code and the variable table. */
  function Clear(p: Program): (q: Program)
    ensures Size(q) == 0 && NVars(q) == 0
  {
    Empty
  }

  /** `operator[]` used as an lvalue: overwrite exactly one word. */
  function Set(p: Program, i: int, w: int): (q: Program)
    requires 0 <= i < Size(p)
    ensures Size(q) == Size(p) && Get(q, i) == w
    ensures forall j :: 0 <= j < Size(p) && j != i ==> Get(q, j) == Get(p, j)
    ensures q.variables == p.variables
  {
    p.(code := p.code[i := w])
  }

  /** `op(a)`: append one word. */
  function Op1(p: Program, a: int): (q: Program)
    ensures Size(q) == Size(p) + 1 && Get(q, Size(p)) == a
    ensures forall j :: 0 <= j < Size(p) ==> Get(q, j) == Get(p, j)
    ensures q.variables == p.variables
  {
    p.(code := p.code + [a])
  }

  /** `op(a, b)`: append an opcode and its operand word. */
  function Op2(p: Program, a: int, b: int): (q: Program)
    ensures Size(q) == Size(p) + 2 && Get(q, Size(p)) == a && Get(q, Size(p) + 1) == b
    ensures forall j :: 0 <= j < Size(p) ==> Get(q, j) == Get(p, j)
    ensures q.variables == p.variables
  {
    p.(code := p.code + [a, b])
  }

  /** `op(a, b, c)`: append an opcode and its two operand words. */
  function Op3(p: Program, a: int, b: int, c: int): (q: Program)
    ensures Size(q) == Size(p) + 3
    ensures Get(q, Size(p)) == a && Get(q, Size(p) + 1) == b && Get(q, Size(p) + 2) == c
    ensures forall j :: 0 <= j < Size(p) ==> Get(q, j) == Get(p, j)
    ensures q.variables == p.variables
  {
    p.(code := p.code + [a, b, c])
  }

  /** `find_var`: the slot of `name`, or a null pointer when it is unknown. */
  function FindVar(p: Program, name: string): (r: Option<int>)
    ensures r.Some? <==> name in p.variables
    ensures r.Some? ==> r.value == p.variables[name]
  {
    if name in p.variables then Some(p.variables[name]) else None
  }

  /**
   `add_var`: map `name` to the table size taken before the insertion.
   The compiler only adds names that are not yet in the table.
   */
  function AddVar(p: Program, name: string): (q: Program)
    ensures FindVar(q, name) == Some(NVars(p))
    ensures forall x :: x != name ==> FindVar(q, x) == FindVar(p, x)
    ensures NVars(q) == if name in p.variables then NVars(p) else NVars(p) + 1
    ensures q.code == p.code
  {
    p.(variables := p.variables[name := |p.variables|])
  }

  /** Every slot lies in `0 .. NVars` and no two names share one. */
  ghost predicate DenseSlots(vars: map<string, int>) {
    && (forall x :: x in vars ==> 0 <= vars[x] < |vars|)
    && (forall x, y :: x in vars && y in vars && x != y ==> vars[x] != vars[y])
  }

  /** Adding a fresh name keeps the slots dense: the new slot is the next one. */
  lemma AddVarKeepsDense(p: Program, name: string)
    requires DenseSlots(p.variables) && name !in p.variables
    ensures DenseSlots(AddVar(p, name).variables)
  {
  }
}
