/**
 The static conditions under which the compiler succeeds: every name is
 declared before use and declared once, every token has the arity of the
 node it sits in. The compiler's variable table is flat, so a declaration
 anywhere in a block, branch or loop body stays visible in the rest of the
 program text.
 */
module Scope {
  import opened Wrappers
  import opened Ast

  /** Every variable of `e` is in `vars` and every token has the right arity. */
  predicate Compilable(e: Operand, vars: map<string, int>)
  {
    match e
    case Literal(_) => true
    case Variable(x) => x in vars
    case Unary(t, o) => IsUnaryToken(t) && Compilable(o, vars)
    case Expression(first, rest) => Compilable(first, vars) && RestCompilable(rest, vars)
  }

  predicate RestCompilable(rest: seq<Operation>, vars: map<string, int>)
  {
    rest == [] || (OperationCompilable(rest[0], vars) && RestCompilable(rest[1..], vars))
  }

  predicate OperationCompilable(o: Operation, vars: map<string, int>)
  {
    IsBinaryToken(o.op) && Compilable(o.operand, vars)
  }

  /** The names `s` declares, in textual order (then-branch before else-branch). */
  function Decls(s: Statement): seq<string>
  {
    match s
    case VarDecl(x, _) => [x]
    case Assign(_, _) => []
    case If(_, thn, None) => ListDecls(thn.stmts)
    case If(_, thn, Some(els)) => ListDecls(thn.stmts) + ListDecls(els.stmts)
    case While(_, body) => ListDecls(body.stmts)
    case Block(b) => ListDecls(b.stmts)
  }

  function ListDecls(ss: seq<Statement>): seq<string>
  {
    if ss == [] then [] else Decls(ss[0]) + ListDecls(ss[1..])
  }

  /** `vars` after `add_var` of each of `names` in turn. */
  function Declare(vars: map<string, int>, names: seq<string>): map<string, int>
    decreases names
  {
    if names == [] then vars else Declare(vars[names[0] := |vars|], names[1..])
  }

  /** Declaring `a` and then `b` is declaring `a + b`. */
  lemma {:induction false} DeclareAppend(vars: map<string, int>, a: seq<string>, b: seq<string>)
    ensures Declare(vars, a + b) == Declare(Declare(vars, a), b)
    decreases a
  {
    if a != [] {
      assert (a + b)[1..] == a[1..] + b;
      DeclareAppend(vars[a[0] := |vars|], a[1..], b);
    } else {
      assert a + b == b;
    }
  }

  /**
   The scoping rules the compiler enforces: a name is used or assigned only
   after a declaration that precedes it in the text (declarations in a
   then-branch are visible in the else-branch and after the `if`, since the
   table is flat), and is never declared twice.
   */
  predicate WellScoped(s: Statement, vars: map<string, int>)
  {
    match s
    case VarDecl(x, init) => x !in vars && Compilable(init, vars)
    case Assign(x, rhs) => Compilable(rhs, vars) && x in vars
    case If(cond, thn, None) => Compilable(cond, vars) && ListWellScoped(thn.stmts, vars)
    case If(cond, thn, Some(els)) =>
      && Compilable(cond, vars)
      && ListWellScoped(thn.stmts, vars)
      && ListWellScoped(els.stmts, Declare(vars, ListDecls(thn.stmts)))
    case While(cond, body) => Compilable(cond, vars) && ListWellScoped(body.stmts, vars)
    case Block(b) => ListWellScoped(b.stmts, vars)
  }

  predicate ListWellScoped(ss: seq<Statement>, vars: map<string, int>)
  {
    ss == [] || (WellScoped(ss[0], vars) && ListWellScoped(ss[1..], Declare(vars, Decls(ss[0]))))
  }

  // ---------------------------------------------------------------------
  // Slots are numbered densely in declaration order
  // ---------------------------------------------------------------------

  /** The names occurring in `names`. */
  function NameSet(names: seq<string>): set<string>
    decreases names
  {
    if names == [] then {} else {names[0]} + NameSet(names[1..])
  }

  /** Every element of `names` is in its name set. */
  lemma {:induction false} NameSetHas(names: seq<string>, i: int)
    requires 0 <= i < |names|
    ensures names[i] in NameSet(names)
    decreases names
  {
    if i > 0 {
      NameSetHas(names[1..], i - 1);
    }
  }

  /** No name of `names` is in `vars`, and no name occurs twice. */
  ghost predicate FreshNames(vars: map<string, int>, names: seq<string>) {
    && (forall i :: 0 <= i < |names| ==> names[i] !in vars)
    && (forall i, j :: 0 <= i < j < |names| ==> names[i] != names[j])
  }

  /**
   Declaring fresh names gives the `i`-th of them slot `|vars| + i`,
   leaves the older slots alone and grows the table by one per name.
   */
  lemma {:induction false} DeclareSlots(vars: map<string, int>, names: seq<string>)
    requires FreshNames(vars, names)
    ensures |Declare(vars, names)| == |vars| + |names|
    ensures forall x :: x in vars ==> x in Declare(vars, names) && Declare(vars, names)[x] == vars[x]
    ensures forall i :: 0 <= i < |names| ==>
      names[i] in Declare(vars, names) && Declare(vars, names)[names[i]] == |vars| + i
    decreases names
  {
    if names != [] {
      var vars' := vars[names[0] := |vars|];
      assert FreshNames(vars', names[1..]) by {
        forall i | 0 <= i < |names[1..]|
          ensures names[1..][i] !in vars'
        {
          assert names[1..][i] == names[i + 1];
        }
      }
      DeclareSlots(vars', names[1..]);
      forall i | 0 <= i < |names|
        ensures names[i] in Declare(vars, names) && Declare(vars, names)[names[i]] == |vars| + i
      {
        if i > 0 {
          assert names[i] == names[1..][i - 1];
        }
      }
    }
  }

  /** Keys of a declaration run, without the freshness side condition. */
  lemma {:induction false} DeclareKeys(vars: map<string, int>, names: seq<string>)
    ensures Declare(vars, names).Keys == vars.Keys + NameSet(names)
    decreases names
  {
    if names != [] {
      DeclareKeys(vars[names[0] := |vars|], names[1..]);
    }
  }

  /** Concatenating two fresh runs, the second fresh after the first. */
  lemma FreshAppend(vars: map<string, int>, a: seq<string>, b: seq<string>)
    requires FreshNames(vars, a) && FreshNames(Declare(vars, a), b)
    ensures FreshNames(vars, a + b)
  {
    DeclareKeys(vars, a);
    forall i, j | 0 <= i < j < |a + b|
      ensures (a + b)[i] != (a + b)[j]
    {
      if i < |a| && j >= |a| {
        NameSetHas(a, i);
      }
    }
  }

  /** A well-scoped statement declares only fresh, distinct names. */
  lemma {:induction false} WellScopedDeclsFresh(s: Statement, vars: map<string, int>)
    requires WellScoped(s, vars)
    ensures FreshNames(vars, Decls(s))
    decreases s
  {
    match s
    case VarDecl(_, _) =>
    case Assign(_, _) =>
    case If(_, thn, None) => ListWellScopedDeclsFresh(thn.stmts, vars);
    case If(_, thn, Some(els)) =>
      ListWellScopedDeclsFresh(thn.stmts, vars);
      ListWellScopedDeclsFresh(els.stmts, Declare(vars, ListDecls(thn.stmts)));
      FreshAppend(vars, ListDecls(thn.stmts), ListDecls(els.stmts));
    case While(_, body) => ListWellScopedDeclsFresh(body.stmts, vars);
    case Block(b) => ListWellScopedDeclsFresh(b.stmts, vars);
  }

  lemma {:induction false} ListWellScopedDeclsFresh(ss: seq<Statement>, vars: map<string, int>)
    requires ListWellScoped(ss, vars)
    ensures FreshNames(vars, ListDecls(ss))
    decreases ss
  {
    if ss != [] {
      WellScopedDeclsFresh(ss[0], vars);
      ListWellScopedDeclsFresh(ss[1..], Declare(vars, Decls(ss[0])));
      FreshAppend(vars, Decls(ss[0]), ListDecls(ss[1..]));
    }
  }
}
