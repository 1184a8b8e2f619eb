/** The checking pass itself (typeCheck.cc, treeTraversal): a pre-order
    walk that, on entering a node, opens scopes, registers procedures and
    binds declarations, settles single-child factors and lvalues from the
    innermost scope, and then visits the children in order, re-typing and
    re-checking the node after each one. */
module Traversal {
  import opened Diagnostics
  import opened Trees
  import opened Registries
  import opened Rules

  const WainMessage := "The second parameter of wain is not int type"
  const CastMessage := "Type casting error"

  /** Everything the walk threads by reference: the scope stack, the
      procedure table, the name of the procedure being read, the parameter
      types gathered so far, the count of `procedures` nodes entered, and
      the diagnostics sink. */
  datatype Checker = Checker(scopes: seq<Scope>, procedures: ProcTable, procedureName: string,
                             params: seq<Ty>, procedureNumber: nat, sink: Sink)

  const Initial := Checker([], map[], "", [], 0, EmptySink)

  /** A node together with the state after visiting it. */
  datatype Visit = Visit(tree: Tree, st: Checker)

  /** What only grows along a walk: the parameter types gathered, the
      procedures registered and the count of `procedures` nodes entered;
      and the stack keeps one symbol table once a procedure was entered. */
  predicate Accumulates(a: Checker, b: Checker) {
    && a.params <= b.params
    && a.procedures.Keys <= b.procedures.Keys
    && a.procedureNumber <= b.procedureNumber
    && (OneScope(a) ==> OneScope(b))
  }

  lemma AccumulatesTrans(a: Checker, b: Checker, c: Checker)
    requires Accumulates(a, b) && Accumulates(b, c)
    ensures Accumulates(a, c)
  {
  }

  /** One symbol table, and only once a procedure has been entered. */
  predicate OneScope(st: Checker) {
    |st.scopes| == if st.procedureNumber == 0 then 0 else 1
  }

  function Innermost(scopes: seq<Scope>): Scope
    requires scopes != []
  {
    scopes[|scopes| - 1]
  }

  // ---------------------------------------------------------------------
  // Preconditions: the positional children the walk reads exist.

  /** The grandchildren the entry actions read exist. */
  predicate EntryShaped(t: Tree) {
    var ch := t.children;
    && (t.rule == "procedure" ==> |ch| >= 4)
    && (t.rule == "paramlist" ==> |ch| >= 1 && |ch[0].children| >= 1)
    && (t.rule == "main" ==> |ch| >= 6 && |ch[5].children| >= 1)
    && (t.rule == "dcl" ==> |ch| >= 2)
    && (t.rule == "dcls" && |ch| == 5 ==> |ch[1].children| >= 1)
  }

  /** Every node has the children the walk reads. */
  predicate Shaped(t: Tree) {
    && EntryShaped(t)
    && CheckShaped(t)
    && forall i :: 0 <= i < |t.children| ==> Shaped(t.children[i])
  }

  /** Every tree of a list is shaped. */
  predicate AllShaped(ts: seq<Tree>) {
    forall k :: 0 <= k < |ts| ==> Shaped(ts[k])
  }

  /** What visiting a node does to the scope stack before its children. */
  datatype ScopeEvent = Opens | Uses | Neither

  /** `procedures` pushes a scope; a declaration, an identifier factor and
      a single-child lvalue read the innermost one. */
  function NodeEvent(t: Tree): ScopeEvent {
    if t.rule == "procedures" then Opens
    else if t.rule == "dcl" then Uses
    else if t.rule == "factor" && |t.children| == 1
            && t.children[0].rule != "NUM" && t.children[0].rule != "NULL" then Uses
    else if t.rule == "lvalue" && |t.children| == 1 then Uses
    else Neither
  }

  /** The first scope event of a walk over `t`, in visiting order. */
  function FirstScopeEvent(t: Tree): ScopeEvent {
    if NodeEvent(t) != Neither then NodeEvent(t) else FirstEventOf(t.children)
  }

  function FirstEventOf(ts: seq<Tree>): ScopeEvent {
    if ts == [] then Neither
    else if FirstScopeEvent(ts[0]) != Neither then FirstScopeEvent(ts[0])
    else FirstEventOf(ts[1..])
  }

  /** The innermost scope exists whenever the walk over `t` first needs
      it. */
  predicate ScopeReady(st: Checker, t: Tree) {
    st.scopes != [] || FirstScopeEvent(t) != Uses
  }

  // ---------------------------------------------------------------------
  // Entry actions.

  /** `procedures`: drop the previous procedure's table, if a procedure
      was entered before, and push a fresh one. */
  function EnterProcedures(st: Checker): (r: Checker)
    ensures r.scopes != [] && Innermost(r.scopes) == map[]
    ensures r.scopes[..|r.scopes| - 1] <= st.scopes
    ensures |r.scopes| == if st.procedureNumber != 0 && st.scopes != [] then |st.scopes| else |st.scopes| + 1
    ensures r.procedureNumber == st.procedureNumber + 1
    ensures r == st.(scopes := r.scopes, procedureNumber := r.procedureNumber)
  {
    var kept := if st.procedureNumber != 0 && st.scopes != [] then st.scopes[..|st.scopes| - 1] else st.scopes;
    st.(scopes := kept + [map[]], procedureNumber := st.procedureNumber + 1)
  }

  /** `procedure`: remember its name, and register it at once with no
      parameters when its parameter list is empty. */
  function EnterProcedure(t: Tree, st: Checker): (r: Checker)
    requires |t.children| >= 4
    ensures var name := t.children[1].lexeme;
      && r.procedureName == name
      && (t.children[3].children == [] ==>
          && r.procedures.Keys == st.procedures.Keys + {name}
          && r.procedures[name] == []
          && (forall n :: n in st.procedures && n != name ==> r.procedures[n] == st.procedures[n])
          && Extends(st.sink, r.sink)
          && Added(st.sink, r.sink) == if name in st.procedures then [Diagnostic(ProcedureExistsMessage, None)] else [])
      && (t.children[3].children != [] ==> r.procedures == st.procedures && r.sink == st.sink)
    ensures r == st.(procedureName := r.procedureName, procedures := r.procedures, sink := r.sink)
  {
    var name := t.children[1].lexeme;
    if t.children[3].children == [] then
      var (table, sink) := AddProcedure(st.procedures, name, [], st.sink);
      st.(procedureName := name, procedures := table, sink := sink)
    else
      st.(procedureName := name)
  }

  /** `paramlist`: append the type of its declaration to the parameter
      list, which is never cleared; the last parameter of a list registers
      the current procedure with every type gathered so far. */
  function EnterParamlist(t: Tree, st: Checker): (r: Checker)
    requires |t.children| >= 1 && |t.children[0].children| >= 1
    ensures r.params == st.params + [ClauseType(|t.children[0].children[0].children|)]
    ensures |t.children| == 1 ==>
      && r.procedures.Keys == st.procedures.Keys + {st.procedureName}
      && r.procedures[st.procedureName] == r.params
      && Extends(st.sink, r.sink)
      && Added(st.sink, r.sink)
         == if st.procedureName in st.procedures then [Diagnostic(ProcedureExistsMessage, None)] else []
    ensures |t.children| != 1 ==> r.procedures == st.procedures && r.sink == st.sink
    ensures r == st.(params := r.params, procedures := r.procedures, sink := r.sink)
  {
    var params := st.params + [ClauseType(|t.children[0].children[0].children|)];
    if |t.children| == 1 then
      var (table, sink) := AddProcedure(st.procedures, st.procedureName, params, st.sink);
      st.(params := params, procedures := table, sink := sink)
    else
      st.(params := params)
  }

  /** `main`: its second parameter must be declared `int`. */
  function EnterMain(t: Tree, st: Checker): (r: Checker)
    requires |t.children| >= 6 && |t.children[5].children| >= 1
    ensures Extends(st.sink, r.sink)
    ensures Added(st.sink, r.sink)
      == if ClauseType(|t.children[5].children[0].children|) == Int then [] else [Diagnostic(WainMessage, None)]
    ensures r == st.(sink := r.sink)
  {
    if ClauseType(|t.children[5].children[0].children|) != Int then
      st.(sink := Report(st.sink, WainMessage))
    else st
  }

  /** `dcl`: bind the declared name in the innermost scope and give the
      identifier child the declared type. */
  function EnterDcl(t: Tree, st: Checker): (r: Visit)
    requires |t.children| >= 2 && st.scopes != []
    ensures var name := t.children[1].lexeme;
      var ty := ClauseType(|t.children[0].children|);
      var top := Innermost(st.scopes);
      && |r.st.scopes| == |st.scopes|
      && r.st.scopes[..|st.scopes| - 1] == st.scopes[..|st.scopes| - 1]
      && Innermost(r.st.scopes).Keys == top.Keys + {name}
      && Innermost(r.st.scopes)[name] == (if name in top then top[name] else ty)
      && Extends(st.sink, r.st.sink)
      && Added(st.sink, r.st.sink) == (if name in top then [Diagnostic(AlreadyDeclared(name), None)] else [])
      && r.tree == t.(children := t.children[1 := t.children[1].(ty := ty)])
    ensures r.st == st.(scopes := r.st.scopes, sink := r.st.sink)
  {
    var name := t.children[1].lexeme;
    var ty := ClauseType(|t.children[0].children|);
    var last := |st.scopes| - 1;
    var (scope, sink) := DeclareVariable(st.scopes[last], name, ty, st.sink);
    Visit(t.(children := t.children[1 := t.children[1].(ty := ty)]), st.(scopes := st.scopes[last := scope], sink := sink))
  }

  /** `dcls` with an initialiser: give the declaration its declared type,
      and report when the initialiser's type (fixed when the literal was
      attached) differs from it. */
  function EnterDcls(t: Tree, st: Checker): (r: Visit)
    requires |t.children| == 5 ==> |t.children[1].children| >= 1
    ensures |t.children| != 5 ==> r == Visit(t, st)
    ensures |t.children| == 5 ==>
      var ty := ClauseType(|t.children[1].children[0].children|);
      && r.tree == t.(children := t.children[1 := t.children[1].(ty := ty)])
      && Extends(st.sink, r.st.sink)
      && Added(st.sink, r.st.sink) == (if ty == t.children[3].ty then [] else [Diagnostic(CastMessage, None)])
      && r.st == st.(sink := r.st.sink)
  {
    if |t.children| == 5 then
      var ty := ClauseType(|t.children[1].children[0].children|);
      var tree := t.(children := t.children[1 := t.children[1].(ty := ty)]);
      Visit(tree, if ty != t.children[3].ty then st.(sink := Report(st.sink, CastMessage)) else st)
    else Visit(t, st)
  }

  /** The entry action of a node, chosen by its rule, followed by the base
      case of a single-child factor or lvalue. */
  function Enter(t: Tree, st: Checker): (r: Visit)
    requires EntryShaped(t)
    requires NodeEvent(t) == Uses ==> st.scopes != []
    ensures SameShape(t, r.tree)
    ensures Extends(st.sink, r.st.sink)
    ensures Accumulates(st, r.st)
    ensures r.st.procedureNumber == st.procedureNumber + (if t.rule == "procedures" then 1 else 0)
    ensures NodeEvent(t) == Opens ==> r.st.scopes != []
    ensures NodeEvent(t) != Opens ==> |r.st.scopes| == |st.scopes|
    ensures NodeEvent(t) == Neither ==> r.st.scopes == st.scopes
  {
    var v := EntryAction(t, st);
    var w := Settle(v.tree, v.st);
    ExtendsTrans(st.sink, v.st.sink, w.st.sink);
    w
  }

  /** The entry action proper, chosen by the node's rule. */
  function EntryAction(t: Tree, st: Checker): (r: Visit)
    requires EntryShaped(t)
    requires NodeEvent(t) == Uses ==> st.scopes != []
    ensures SameShape(t, r.tree) && NodeEvent(r.tree) == NodeEvent(t)
    ensures Extends(st.sink, r.st.sink)
    ensures Accumulates(st, r.st)
    ensures r.st.procedureNumber == st.procedureNumber + (if t.rule == "procedures" then 1 else 0)
    ensures NodeEvent(t) == Opens ==> r.st.scopes != []
    ensures NodeEvent(t) != Opens ==> |r.st.scopes| == |st.scopes|
    ensures NodeEvent(t) == Neither ==> r.st.scopes == st.scopes
  {
    if t.rule == "dcl" || t.rule == "dcls" then
      var v := Declare(t, st);
      SameShapeUnfold(t, v.tree);
      v
    else
      Visit(t, Register(t, st))
  }

  /** The entry actions that only touch the tables: scopes, procedures,
      parameters, and the check of `main`'s second parameter. */
  function Register(t: Tree, st: Checker): (r: Checker)
    requires EntryShaped(t) && t.rule != "dcl" && t.rule != "dcls"
    ensures Extends(st.sink, r.sink)
    ensures Accumulates(st, r)
    ensures r.procedureNumber == st.procedureNumber + (if t.rule == "procedures" then 1 else 0)
    ensures t.rule == "procedures" ==> r.scopes != []
    ensures t.rule != "procedures" ==> r.scopes == st.scopes
  {
    if t.rule == "procedures" then EnterProcedures(st)
    else if t.rule == "procedure" then EnterProcedure(t, st)
    else if t.rule == "paramlist" then EnterParamlist(t, st)
    else if t.rule == "main" then EnterMain(t, st)
    else st
  }

  /** The entry actions of declarations, which bind names and set the
      declared type on the identifier. */
  function Declare(t: Tree, st: Checker): (r: Visit)
    requires EntryShaped(t) && (t.rule == "dcl" || t.rule == "dcls")
    requires t.rule == "dcl" ==> st.scopes != []
    ensures SameShape(t, r.tree)
    ensures Extends(st.sink, r.st.sink)
    ensures |r.st.scopes| == |st.scopes|
    ensures r.st == st.(scopes := r.st.scopes, sink := r.st.sink)
  {
    var v := if t.rule == "dcl" then EnterDcl(t, st) else EnterDcls(t, st);
    assert SameShape(t, v.tree) by {
      if t.rule == "dcl" || |t.children| == 5 {
        RetypeSameShape(t.children[1], v.tree.children[1].ty);
        ReplaceChildSameShape(t, 1, v.tree.children[1]);
      }
    }
    v
  }

  /** The base case of a single-child factor or lvalue, resolved against
      the innermost scope. */
  function Settle(t: Tree, st: Checker): (r: Visit)
    requires NodeEvent(t) == Uses ==> st.scopes != []
    ensures SameShape(t, r.tree)
    ensures Extends(st.sink, r.st.sink)
    ensures r.st == st.(sink := r.st.sink)
  {
    if t.rule == "factor" && |t.children| == 1 then
      var scope := if NodeEvent(t) == Uses then Innermost(st.scopes) else map[];
      var (tree, sink) := FactorBase(t, scope, st.sink);
      Visit(tree, st.(sink := sink))
    else if t.rule == "lvalue" && |t.children| == 1 then
      var (tree, sink) := LvalueBase(t, Innermost(st.scopes), st.sink);
      Visit(tree, st.(sink := sink))
    else Visit(t, st)
  }

  // ---------------------------------------------------------------------
  // The walk.

  /** What a walk does to the scope stack depends on the shape only. */
  lemma {:induction false} SameShapeEvent(a: Tree, b: Tree)
    requires SameShape(a, b)
    ensures FirstScopeEvent(a) == FirstScopeEvent(b)
    decreases a
  {
    SameShapeUnfold(a, b);
    if |a.children| == 1 {
      SameShapeUnfold(a.children[0], b.children[0]);
    }
    SameShapeEventsOf(a.children, b.children);
  }

  lemma {:induction false} SameShapeEventsOf(xs: seq<Tree>, ys: seq<Tree>)
    requires |xs| == |ys| && forall i :: 0 <= i < |xs| ==> SameShape(xs[i], ys[i])
    ensures FirstEventOf(xs) == FirstEventOf(ys)
    decreases xs
  {
    if xs != [] {
      SameShapeEvent(xs[0], ys[0]);
      SameShapeEventsOf(xs[1..], ys[1..]);
    }
  }

  /** A suffix of a child list is its first tree followed by the rest:
      so for its first scope event, its shape and its size. */
  lemma SuffixStep(ts: seq<Tree>, i: nat)
    requires i < |ts|
    ensures FirstEventOf(ts[i..])
      == if FirstScopeEvent(ts[i]) != Neither then FirstScopeEvent(ts[i]) else FirstEventOf(ts[i + 1..])
    ensures AllShaped(ts[i..]) <==> Shaped(ts[i]) && AllShaped(ts[i + 1..])
    ensures SizeOf(ts[i..]) == Size(ts[i]) + SizeOf(ts[i + 1..])
  {
    assert ts[i..][0] == ts[i];
    assert ts[i..][1..] == ts[i + 1..];
    SizeOfSuffix(ts, i);
  }

  /** Visit `t`: its entry action, then its children in order. The result
      has the shape of `t`; diagnostics, parameter types and registered
      procedures only accumulate; and the scope stack is non-empty from the
      first `procedures` node on. */
  function Traverse(t: Tree, st: Checker): (r: Visit)
    requires Shaped(t) && ScopeReady(st, t)
    decreases Size(t), 0
    ensures SameShape(t, r.tree)
    ensures Extends(st.sink, r.st.sink)
    ensures Accumulates(st, r.st)
    ensures st.scopes != [] || FirstScopeEvent(t) == Opens ==> r.st.scopes != []
    ensures FirstScopeEvent(t) == Neither ==> r.st.scopes == st.scopes
  {
    var v := Enter(t, st);
    SameShapeShaped(t, v.tree);
    SameShapeSize(t, v.tree);
    SameShapeUnfold(t, v.tree);
    SameShapeEventsOf(t.children, v.tree.children);
    assert v.tree.children[0..] == v.tree.children;
    var r := TraverseChildren(v.tree, 0, v.st);
    ExtendsTrans(st.sink, v.st.sink, r.st.sink);
    AccumulatesTrans(st, v.st, r.st);
    r
  }

  /** Visit the children of `node` from the `i`th on. */
  function TraverseChildren(node: Tree, i: nat, st: Checker): (r: Visit)
    requires i <= |node.children| && CheckShaped(node)
    requires AllShaped(node.children[i..])
    requires st.scopes != [] || FirstEventOf(node.children[i..]) != Uses
    decreases SizeOf(node.children[i..]), 2
    ensures SameShape(node, r.tree)
    ensures Extends(st.sink, r.st.sink)
    ensures Accumulates(st, r.st)
    ensures st.scopes != [] || FirstEventOf(node.children[i..]) == Opens ==> r.st.scopes != []
    ensures FirstEventOf(node.children[i..]) == Neither ==> r.st.scopes == st.scopes
    ensures i == |node.children| ==> r == Visit(node, st)
  {
    if i == |node.children| then Visit(node, st)
    else
      SuffixStep(node.children, i);
      var w := VisitChild(node, i, st);
      var r := TraverseChildren(w.tree, i + 1, w.st);
      ExtendsTrans(st.sink, w.st.sink, r.st.sink);
      AccumulatesTrans(st, w.st, r.st);
      r
  }

  /** Visit the `i`th child, put the visited child in place, give the node
      the type the override chain gives, and report what the post-child
      checks find. */
  function VisitChild(node: Tree, i: nat, st: Checker): (r: Visit)
    requires i < |node.children| && CheckShaped(node) && Shaped(node.children[i])
    requires ScopeReady(st, node.children[i])
    decreases SizeOf(node.children[i..]), 1
    ensures SameShape(node, r.tree)
    ensures |r.tree.children| == |node.children|
    ensures r.tree.children[i + 1..] == node.children[i + 1..]
    ensures r.tree.children[i] == Traverse(node.children[i], st).tree
    ensures r.tree.children == node.children[i := Traverse(node.children[i], st).tree]
    ensures r.tree.ty == InferType(node.(children := r.tree.children))
    ensures r.st == Traverse(node.children[i], st).st.(sink := r.st.sink)
    ensures r.st.sink == ReportAll(Traverse(node.children[i], st).st.sink, PostChecks(r.tree))
    ensures CheckShaped(r.tree)
    ensures Extends(st.sink, r.st.sink)
    ensures Accumulates(st, r.st)
    ensures st.scopes != [] || FirstScopeEvent(node.children[i]) == Opens ==> r.st.scopes != []
    ensures FirstScopeEvent(node.children[i]) == Neither ==> r.st.scopes == st.scopes
  {
    SizeOfSuffix(node.children, i);
    var v := Traverse(node.children[i], st);
    var w := AfterChild(node, i, v);
    ExtendsTrans(st.sink, v.st.sink, w.st.sink);
    w
  }

  /** The work after the `i`th child has been visited to `v`. */
  function AfterChild(node: Tree, i: nat, v: Visit): (r: Visit)
    requires i < |node.children| && CheckShaped(node)
    requires SameShape(node.children[i], v.tree)
    ensures SameShape(node, r.tree)
    ensures |r.tree.children| == |node.children|
    ensures forall k :: i < k < |node.children| ==> r.tree.children[k] == node.children[k]
    ensures r.tree.children[i + 1..] == node.children[i + 1..]
    ensures r.tree.children == node.children[i := v.tree]
    ensures r.tree.ty == InferType(node.(children := node.children[i := v.tree]))
    ensures CheckShaped(r.tree) && r.tree.ty == InferType(r.tree)
    ensures Extends(v.st.sink, r.st.sink)
    ensures r.st.sink == ReportAll(v.st.sink, PostChecks(r.tree))
    ensures r.st == v.st.(sink := r.st.sink)
  {
    SameShapeUnfold(node.children[i], v.tree);
    var replaced := node.(children := node.children[i := v.tree]);
    ReplaceChildSameShape(node, i, v.tree);
    assert replaced.children[0].rule == node.children[0].rule;
    var typed := replaced.(ty := InferType(replaced));
    RetypeSameShape(replaced, typed.ty);
    InferTypeSettles(replaced);
    Visit(typed, v.st.(sink := ReportAll(v.st.sink, PostChecks(typed))))
  }

  /** The step after a child follows the type rules: where the node's
      production has a rule and its operands are typed, a diagnostic is
      appended exactly when the rule rejects, never more than one, and the
      node gets the type the rule gives. */
  lemma AfterChildFollowsRules(node: Tree, i: nat, v: Visit)
    requires i < |node.children| && CheckShaped(node)
    requires SameShape(node.children[i], v.tree)
    requires var t := AfterChild(node, i, v).tree;
      && OperandsKnown(ChildRules(t), ChildTypes(t))
      && Judged(t.rule, ChildRules(t), ChildTypes(t)).Some?
    ensures var r := AfterChild(node, i, v);
      var verdict := Judged(r.tree.rule, ChildRules(r.tree), ChildTypes(r.tree)).value;
      && (verdict.Rejected? <==> |r.st.sink.messages| > |v.st.sink.messages|)
      && |r.st.sink.messages| <= |v.st.sink.messages| + 1
      && (verdict.Typed? ==> r.tree.ty == verdict.ty)
  {
    var r := AfterChild(node, i, v);
    TypeRules(r.tree);
  }

  /** After its walk, a node with children carries the type the override
      chain gives for its final children: the last child's visit re-typed
      it, and nothing after that touches it. */
  lemma TraverseSettles(t: Tree, st: Checker)
    requires Shaped(t) && ScopeReady(st, t) && t.children != []
    ensures var r := Traverse(t, st);
      && |r.tree.children| == |t.children|
      && CheckShaped(r.tree) && r.tree.ty == InferType(r.tree)
  {
    var v := Enter(t, st);
    SameShapeShaped(t, v.tree);
    SameShapeUnfold(t, v.tree);
    SameShapeEventsOf(t.children, v.tree.children);
    assert v.tree.children[0..] == v.tree.children;
    ChildrenSettle(v.tree, 0, v.st);
  }

  lemma {:induction false} ChildrenSettle(node: Tree, i: nat, st: Checker)
    requires i < |node.children| && CheckShaped(node)
    requires AllShaped(node.children[i..])
    requires st.scopes != [] || FirstEventOf(node.children[i..]) != Uses
    decreases |node.children| - i
    ensures var r := TraverseChildren(node, i, st);
      && |r.tree.children| == |node.children|
      && CheckShaped(r.tree) && r.tree.ty == InferType(r.tree)
  {
    SuffixStep(node.children, i);
    var w := VisitChild(node, i, st);
    if i + 1 < |node.children| {
      ChildrenSettle(w.tree, i + 1, w.st);
    }
  }

  /** Shape preconditions depend on rules and child counts only. */
  lemma {:induction false} SameShapeShaped(a: Tree, b: Tree)
    requires SameShape(a, b) && Shaped(a)
    ensures Shaped(b)
    decreases a
  {
    SameShapeUnfold(a, b);
    forall i | 0 <= i < |a.children|
      ensures Shaped(b.children[i]) && |b.children[i].children| == |a.children[i].children|
    {
      SameShapeUnfold(a.children[i], b.children[i]);
      SameShapeShaped(a.children[i], b.children[i]);
    }
  }
}
