/** The two registries the checker consults: the per-procedure symbol table
    (variable name to type) and the program-wide procedure table (procedure
    name to parameter types). Every operation threads the diagnostics sink. */
module Registries {
  import opened Diagnostics

  type Scope = map<string, Ty>

  type ProcTable = map<string, seq<Ty>>

  function AlreadyDeclared(name: string): string {
    "Variable " + name + " is already declared"
  }

  function NotDeclared(name: string): string {
    "Variable " + name + " was not declared"
  }

  const ProcedureExistsMessage := "Procedure already exists!"

  /** Bind `name` to `ty` unless it is bound already, in which case one
      error is reported and the original binding stays. */
  function DeclareVariable(scope: Scope, name: string, ty: Ty, sink: Sink): (r: (Scope, Sink))
    ensures r.0.Keys == scope.Keys + {name}
    ensures forall n :: n in scope ==> r.0[n] == scope[n]
    ensures name !in scope ==> r.0[name] == ty
    ensures Extends(sink, r.1)
    ensures Added(sink, r.1) == if name in scope then [Diagnostic(AlreadyDeclared(name), None)] else []
  {
    if name in scope then
      (scope, Report(sink, AlreadyDeclared(name)))
    else
      (scope[name := ty], sink)
  }

  /** The bound type of `name`; for an unbound name, the empty type and one
      "was not declared" error. */
  function GetType(scope: Scope, name: string, sink: Sink): (r: (Ty, Sink))
    ensures name in scope ==> r.0 == scope[name] && r.1 == sink
    ensures name !in scope ==> r.0 == Unset
    ensures Extends(sink, r.1)
    ensures Added(sink, r.1) == if name in scope then [] else [Diagnostic(NotDeclared(name), None)]
  {
    if name in scope then (scope[name], sink)
    else (Unset, Report(sink, NotDeclared(name)))
  }

  function IsDeclared(scope: Scope, name: string): bool {
    name in scope
  }

  /** Whether `name` is bound to `expected`; an unbound name is reported,
      exactly as a lookup would report it. */
  function CheckType(scope: Scope, name: string, expected: Ty, sink: Sink): (r: (bool, Sink))
    ensures Extends(sink, r.1)
    ensures r.0 ==> IsDeclared(scope, name)
  {
    if name in scope then (scope[name] == expected, sink)
    else (false, Report(sink, NotDeclared(name)))
  }

  /** A lookup is silent exactly for declared names. */
  lemma DeclaredIffSilentLookup(scope: Scope, name: string, sink: Sink)
    ensures IsDeclared(scope, name) <==> Added(sink, GetType(scope, name, sink).1) == []
  {
  }

  /** CheckType answers through a lookup: it reports what the lookup
      reports, and holds exactly when the name is declared with the
      expected type. */
  lemma CheckTypeIsLookup(scope: Scope, name: string, expected: Ty, sink: Sink)
    ensures CheckType(scope, name, expected, sink).1 == GetType(scope, name, sink).1
    ensures CheckType(scope, name, expected, sink).0
        <==> IsDeclared(scope, name) && GetType(scope, name, sink).0 == expected
  {
  }

  /** A variable declared into a scope is found by the next lookup with the
      type it was declared with, unless it was already bound. */
  lemma DeclareThenLookup(scope: Scope, name: string, ty: Ty, sink: Sink)
    ensures var (s1, k1) := DeclareVariable(scope, name, ty, sink);
      GetType(s1, name, k1).0 == (if name in scope then scope[name] else ty)
  {
  }

  function ProcedureExists(table: ProcTable, name: string): bool {
    name in table
  }

  /** Register `name` with `args`. A name already registered is reported
      once, and its entry is still overwritten. */
  function AddProcedure(table: ProcTable, name: string, args: seq<Ty>, sink: Sink): (r: (ProcTable, Sink))
    ensures r.0.Keys == table.Keys + {name}
    ensures r.0[name] == args
    ensures forall n :: n in table && n != name ==> r.0[n] == table[n]
    ensures Extends(sink, r.1)
    ensures Added(sink, r.1) == if ProcedureExists(table, name) then [Diagnostic(ProcedureExistsMessage, None)] else []
  {
    var s := if ProcedureExists(table, name) then Report(sink, ProcedureExistsMessage) else sink;
    (table[name := args], s)
  }

  /** Registering twice: the second registration is the one that holds, and
      it is the only one reported. */
  lemma AddProcedureTwice(table: ProcTable, name: string, first: seq<Ty>, second: seq<Ty>, sink: Sink)
    requires !ProcedureExists(table, name)
    ensures var (t1, k1) := AddProcedure(table, name, first, sink);
      var (t2, k2) := AddProcedure(t1, name, second, k1);
      && t2[name] == second
      && Extends(sink, k2)
      && Added(sink, k2) == [Diagnostic(ProcedureExistsMessage, None)]
  {
    var (t1, k1) := AddProcedure(table, name, first, sink);
    var (t2, k2) := AddProcedure(t1, name, second, k1);
    ExtendsTrans(sink, k1, k2);
  }
}
