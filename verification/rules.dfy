/** The bottom-up typing rules of the checking pass (typeCheck.cc,
    treeTraversal lines 318-401, and the two base cases
    factorRecursionBaseCase and lvaluerRecursionBaseCase).

    After each child of a node is visited, the source recomputes the
    node's type by a chain of overrides and runs a fixed list of checks.
    The overrides only write the node's own type and the checks only read
    its children's types, so the two are modelled separately: InferType is
    the type the chain leaves on the node, PostChecks the messages the
    checks report, in report order. */
module Rules {
  import opened Diagnostics
  import opened Trees
  import opened Registries

  const UndeclaredMessage := "Variable not declared! "
  const DerefMessage := "In rule [factor STAR factor]: Expected child of type int*"
  const AddressMessage := "In rule [factor AMP lvalue]: Expected child of type int"
  const MinusMessage := "In rule [expr expr MINUS term]: cannot subtract int minus int*"
  const MismatchMessage := "Type Mismatch"
  const PrintlnMessage := "In rule [statement PRINTLN LPAREN expr RPAREN SEMI]: expr does not have type int"
  const DeleteMessage := "In rule [statement DELETE LBRACK RBRACK expr SEMI]: expr does not have type int*"
  const CompareMessage := "Type mismatch during comparision"

  /** The message for a multiplicative operand that is a pointer; `op` is
      STAR, SLASH or PCT. */
  function TermMessage(op: string): string {
    "In rule [term term " + op + " factor]: factor child is not type int"
  }

  predicate IsTermOperator(op: string) {
    op == "STAR" || op == "SLASH" || op == "PCT"
  }

  /** The child types of a node, left to right. */
  function ChildTypes(t: Tree): (ts: seq<Ty>)
    ensures |ts| == |t.children|
    ensures forall i :: 0 <= i < |ts| ==> ts[i] == t.children[i].ty
  {
    seq(|t.children|, i requires 0 <= i < |t.children| => t.children[i].ty)
  }

  /** The second child the post-child rules read exists: a parenthesised
      or dereferenced factor or lvalue, and an address-of factor, have one. */
  predicate CheckShaped(t: Tree) {
    t.children != [] ==>
      var first := t.children[0].rule;
      (((t.rule == "factor" || t.rule == "lvalue") && (first == "LPAREN" || first == "STAR"))
        || (t.rule == "factor" && first == "AMP"))
      ==> |t.children| >= 2
  }

  /** The type the override chain leaves on a node, given its children. In
      source order: the first child's type (an argument list keeps its
      own); none for statements and tests; the inner type of a
      parenthesised factor or lvalue; `int` for a dereference of a known
      operand; `int*` for an allocation and for the address of a known
      operand; `int*` for a sum with a pointer operand and for a
      difference whose left operand is a pointer; `int` for a call. */
  function InferType(t: Tree): (ty: Ty)
    requires t.children != [] && CheckShaped(t)
    ensures t.rule == "statement" || t.rule == "test" ==> ty == Unset
    ensures t.rule == "arglist" ==> ty == t.ty
  {
    var ch := t.children;
    var first := ch[0].rule;
    var factorOrLvalue := t.rule == "factor" || t.rule == "lvalue";
    var base := if t.rule != "arglist" then ch[0].ty else t.ty;
    var untyped := if t.rule == "statement" || t.rule == "test" then Unset else base;
    var paren := if first == "LPAREN" && factorOrLvalue then ch[1].ty else untyped;
    var deref := if first == "STAR" && factorOrLvalue && ch[1].ty != Unset then Int else paren;
    var alloc := if first == "NEW" && t.rule == "factor" then IntPtr else deref;
    var address := if first == "AMP" && t.rule == "factor" && ch[1].ty != Unset then IntPtr else alloc;
    var additive :=
      if t.rule == "expr" && |ch| == 3
         && ((ch[1].rule == "PLUS" && (ch[0].ty == IntPtr || ch[2].ty == IntPtr))
             || (ch[1].rule == "MINUS" && ch[0].ty == IntPtr))
      then IntPtr else address;
    if t.rule == "factor" && |ch| >= 2 && first == "ID" && ch[1].rule == "LPAREN" then Int else additive
  }

  /** One message when `c` holds, none otherwise. */
  function When(c: bool, message: string): seq<string> {
    if c then [message] else []
  }

  /** The messages the post-child checks report, in source order. A check
      whose operand type is still unknown stays silent, except the
      multiplicative and subtraction checks, which only look for a
      pointer. */
  function PostChecks(t: Tree): (ms: seq<string>)
    requires t.children != [] && CheckShaped(t)
    ensures var ch := t.children;
      && (t.rule == "statement" && |ch| == 4 && (ch[0].ty == Unset || ch[2].ty == Unset) ==> ms == [])
      && (t.rule == "statement" && |ch| == 5 && ch[0].rule == "PRINTLN" && ch[2].ty == Unset ==> ms == [])
      && (t.rule == "statement" && |ch| == 5 && ch[0].rule == "DELETE" && ch[3].ty == Unset ==> ms == [])
      && (t.rule == "test" && (|ch| != 3 || ch[0].ty == Unset || ch[2].ty == Unset) ==> ms == [])
      && ((t.rule == "factor" || t.rule == "lvalue") && ch[0].rule == "STAR" && ch[1].ty == Unset ==> ms == [])
      && (t.rule == "factor" && ch[0].rule == "AMP" && ch[1].ty == Unset ==> ms == [])
    ensures !IsValueRule(t.rule) && t.rule != "statement" && t.rule != "test" ==> ms == []
  {
    var ch := t.children;
    var first := ch[0].rule;
    When((t.rule == "factor" || t.rule == "lvalue") && first == "STAR"
         && ch[1].ty != Unset && ch[1].ty != IntPtr, DerefMessage)
    + When(t.rule == "factor" && first == "AMP" && ch[1].ty != Unset && ch[1].ty != Int, AddressMessage)
    + When(t.rule == "expr" && |ch| == 3 && ch[1].rule == "MINUS"
           && ch[0].ty == Int && ch[2].ty == IntPtr, MinusMessage)
    + (if t.rule == "term" && |ch| == 3 && IsTermOperator(ch[1].rule)
          && (ch[0].ty == IntPtr || ch[2].ty == IntPtr)
       then [TermMessage(ch[1].rule)] else [])
    + When(t.rule == "statement" && |ch| == 4 && ch[0].ty != Unset && ch[2].ty != Unset
           && ch[0].ty != ch[2].ty, MismatchMessage)
    + When(t.rule == "statement" && |ch| == 5 && first == "PRINTLN"
           && ch[2].ty != Unset && ch[2].ty != Int, PrintlnMessage)
    + When(t.rule == "statement" && |ch| == 5 && first == "DELETE"
           && ch[3].ty != Unset && ch[3].ty != IntPtr, DeleteMessage)
    + When(t.rule == "test" && |ch| == 3 && ch[0].ty != Unset && ch[2].ty != Unset
           && ch[0].ty != ch[2].ty, CompareMessage)
  }

  /** The verdict of the type rules on one production. */
  datatype Verdict = Typed(ty: Ty) | Rejected

  predicate IsComparison(op: string) {
    op == "EQ" || op == "NE" || op == "LT" || op == "LE" || op == "GE" || op == "GT"
  }

  /** The type rules of the checked language, one production at a time,
      written independently of the override chain: for each production
      with a type rule, the type it gives or its rejection; None for
      productions without a rule of their own. Statements and tests have
      no type of their own. */
  function Judged(rule: string, rs: seq<string>, ts: seq<Ty>): Option<Verdict>
    requires |rs| == |ts|
  {
    if (rule == "factor" || rule == "lvalue") && rs == ["STAR", "factor"] then
      Some(if ts[1] == IntPtr then Typed(Int) else Rejected)
    else if rule == "factor" && rs == ["AMP", "lvalue"] then
      Some(if ts[1] == Int then Typed(IntPtr) else Rejected)
    else if (rule == "factor" && rs == ["LPAREN", "expr", "RPAREN"])
         || (rule == "lvalue" && rs == ["LPAREN", "lvalue", "RPAREN"]) then
      Some(Typed(ts[1]))
    else if rule == "factor" && rs == ["NEW", "INT", "LBRACK", "expr", "RBRACK"] then
      Some(Typed(IntPtr))
    else if rule == "factor" && (rs == ["ID", "LPAREN", "RPAREN"] || rs == ["ID", "LPAREN", "arglist", "RPAREN"]) then
      Some(Typed(Int))
    else if (rule == "expr" && rs == ["term"]) || (rule == "term" && rs == ["factor"]) then
      Some(Typed(ts[0]))
    else if rule == "expr" && rs == ["expr", "PLUS", "term"] then
      Some(Typed(if ts[0] == IntPtr || ts[2] == IntPtr then IntPtr else Int))
    else if rule == "expr" && rs == ["expr", "MINUS", "term"] then
      Some(if ts[0] == Int && ts[2] == IntPtr then Rejected else Typed(ts[0]))
    else if rule == "term" && |rs| == 3 && rs[0] == "term" && IsTermOperator(rs[1]) && rs[2] == "factor" then
      Some(if ts[0] == Int && ts[2] == Int then Typed(Int) else Rejected)
    else if rule == "statement" && rs == ["lvalue", "BECOMES", "expr", "SEMI"] then
      Some(if ts[0] == ts[2] then Typed(Unset) else Rejected)
    else if rule == "statement" && rs == ["PRINTLN", "LPAREN", "expr", "RPAREN", "SEMI"] then
      Some(if ts[2] == Int then Typed(Unset) else Rejected)
    else if rule == "statement" && rs == ["DELETE", "LBRACK", "RBRACK", "expr", "SEMI"] then
      Some(if ts[3] == IntPtr then Typed(Unset) else Rejected)
    else if rule == "test" && |rs| == 3 && rs[0] == "expr" && IsComparison(rs[1]) && rs[2] == "expr" then
      Some(if ts[0] == ts[2] then Typed(Unset) else Rejected)
    else None
  }

  predicate IsValueRule(r: string) {
    r == "expr" || r == "term" || r == "factor" || r == "lvalue"
  }

  /** Every expression-like child has a known type. */
  predicate OperandsKnown(rs: seq<string>, ts: seq<Ty>)
    requires |rs| == |ts|
  {
    forall i :: 0 <= i < |rs| && IsValueRule(rs[i]) ==> ts[i] != Unset
  }

  /** The override chain and the checks implement the type rules: on every
      production that has a rule, with its operands' types known, the
      checks are silent exactly when the rule accepts, report at most one
      message, and the chain leaves the type the rule gives. */
  lemma TypeRules(t: Tree)
    requires t.children != [] && CheckShaped(t)
    requires OperandsKnown(ChildRules(t), ChildTypes(t))
    requires Judged(t.rule, ChildRules(t), ChildTypes(t)).Some?
    ensures var v := Judged(t.rule, ChildRules(t), ChildTypes(t)).value;
      && (v.Rejected? <==> PostChecks(t) != [])
      && |PostChecks(t)| <= 1
      && (v.Typed? ==> InferType(t) == v.ty)
  {
    if t.rule == "factor" || t.rule == "lvalue" {
      FactorRules(t);
    } else if t.rule == "expr" || t.rule == "term" {
      ArithmeticRules(t);
    } else {
      StatementRules(t);
    }
  }

  /** The type rules of factors and lvalues. */
  lemma FactorRules(t: Tree)
    requires t.children != [] && CheckShaped(t) && (t.rule == "factor" || t.rule == "lvalue")
    requires OperandsKnown(ChildRules(t), ChildTypes(t))
    requires Judged(t.rule, ChildRules(t), ChildTypes(t)).Some?
    ensures var v := Judged(t.rule, ChildRules(t), ChildTypes(t)).value;
      && (v.Rejected? <==> PostChecks(t) != [])
      && |PostChecks(t)| <= 1
      && (v.Typed? ==> InferType(t) == v.ty)
  {
    var rs := ChildRules(t);
    var ts := ChildTypes(t);
    assert forall i :: 0 <= i < |rs| ==> rs[i] == t.children[i].rule;
    if |rs| >= 2 && IsValueRule(rs[1]) {
      assert ts[1] != Unset;
    }
  }

  /** The type rules of sums, differences and products. */
  lemma ArithmeticRules(t: Tree)
    requires t.children != [] && CheckShaped(t) && (t.rule == "expr" || t.rule == "term")
    requires OperandsKnown(ChildRules(t), ChildTypes(t))
    requires Judged(t.rule, ChildRules(t), ChildTypes(t)).Some?
    ensures var v := Judged(t.rule, ChildRules(t), ChildTypes(t)).value;
      && (v.Rejected? <==> PostChecks(t) != [])
      && |PostChecks(t)| <= 1
      && (v.Typed? ==> InferType(t) == v.ty)
  {
    if t.rule == "expr" {
      ExprRules(t);
    } else {
      TermRules(t);
    }
  }

  lemma ExprRules(t: Tree)
    requires t.children != [] && CheckShaped(t) && t.rule == "expr"
    requires OperandsKnown(ChildRules(t), ChildTypes(t))
    requires Judged(t.rule, ChildRules(t), ChildTypes(t)).Some?
    ensures var v := Judged(t.rule, ChildRules(t), ChildTypes(t)).value;
      && (v.Rejected? <==> PostChecks(t) != [])
      && |PostChecks(t)| <= 1
      && (v.Typed? ==> InferType(t) == v.ty)
  {
    var rs := ChildRules(t);
    var ts := ChildTypes(t);
    assert forall i :: 0 <= i < |rs| ==> rs[i] == t.children[i].rule;
    if |rs| >= 1 && IsValueRule(rs[0]) {
      assert ts[0] != Unset;
    }
    if |rs| >= 3 && IsValueRule(rs[2]) {
      assert ts[2] != Unset;
    }
  }

  /** The arithmetic rules where an operand may still be untyped (after an
      undeclared identifier has been reported): a pointer operand alone
      decides. A sum with a pointer operand and a difference with a pointer
      on the left are `int*`; `int` minus `int*` is reported; a product,
      quotient or remainder with a pointer operand is reported, and without
      one it is silent. */
  lemma PointerArithmetic(t: Tree)
    requires |t.children| == 3 && CheckShaped(t)
    ensures var ch := t.children;
      && (t.rule == "expr" && ch[1].rule == "PLUS" && (ch[0].ty == IntPtr || ch[2].ty == IntPtr)
          ==> InferType(t) == IntPtr && PostChecks(t) == [])
      && (t.rule == "expr" && ch[1].rule == "MINUS" && ch[0].ty == IntPtr
          ==> InferType(t) == IntPtr && PostChecks(t) == [])
      && (t.rule == "expr" && ch[1].rule == "MINUS" && ch[0].ty == Int && ch[2].ty == IntPtr
          ==> PostChecks(t) == [MinusMessage])
      && (t.rule == "term" && IsTermOperator(ch[1].rule)
          ==> InferType(t) == ch[0].ty
              && (PostChecks(t) == if ch[0].ty == IntPtr || ch[2].ty == IntPtr
                                   then [TermMessage(ch[1].rule)] else []))
  {
  }

  /** The factor rules that hold whatever the operands' types: an
      allocation is `int*` and a call is `int`, silently; a dereference or
      an address-of whose operand is still untyped keeps the first child's
      type and reports nothing, so an unknown type raises no further
      error. */
  lemma FactorAnyOperands(t: Tree)
    requires t.children != [] && CheckShaped(t) && (t.rule == "factor" || t.rule == "lvalue")
    ensures var ch := t.children;
      && (t.rule == "factor" && ch[0].rule == "NEW" ==> InferType(t) == IntPtr && PostChecks(t) == [])
      && (t.rule == "factor" && |ch| >= 2 && ch[0].rule == "ID" && ch[1].rule == "LPAREN"
          ==> InferType(t) == Int && PostChecks(t) == [])
      && (ch[0].rule == "STAR" && ch[1].ty == Unset ==> InferType(t) == ch[0].ty && PostChecks(t) == [])
      && (t.rule == "factor" && ch[0].rule == "AMP" && ch[1].ty == Unset
          ==> InferType(t) == ch[0].ty && PostChecks(t) == [])
  {
  }

  lemma TermRules(t: Tree)
    requires t.children != [] && CheckShaped(t) && t.rule == "term"
    requires OperandsKnown(ChildRules(t), ChildTypes(t))
    requires Judged(t.rule, ChildRules(t), ChildTypes(t)).Some?
    ensures var v := Judged(t.rule, ChildRules(t), ChildTypes(t)).value;
      && (v.Rejected? <==> PostChecks(t) != [])
      && |PostChecks(t)| <= 1
      && (v.Typed? ==> InferType(t) == v.ty)
  {
    var rs := ChildRules(t);
    var ts := ChildTypes(t);
    assert forall i :: 0 <= i < |rs| ==> rs[i] == t.children[i].rule;
    if |rs| >= 1 && IsValueRule(rs[0]) {
      assert ts[0] != Unset;
    }
    if |rs| >= 3 && IsValueRule(rs[2]) {
      assert ts[2] != Unset;
    }
  }

  /** The type rules of statements and tests. */
  lemma StatementRules(t: Tree)
    requires t.children != [] && CheckShaped(t) && t.rule != "factor" && t.rule != "lvalue" && t.rule != "expr" && t.rule != "term"
    requires OperandsKnown(ChildRules(t), ChildTypes(t))
    requires Judged(t.rule, ChildRules(t), ChildTypes(t)).Some?
    ensures var v := Judged(t.rule, ChildRules(t), ChildTypes(t)).value;
      && (v.Rejected? <==> PostChecks(t) != [])
      && |PostChecks(t)| <= 1
      && (v.Typed? ==> InferType(t) == v.ty)
  {
    if t.rule == "test" {
      TestRules(t);
    } else {
      assert t.rule == "statement";
      if |t.children| == 4 {
        AssignRules(t);
      } else {
        OutputRules(t);
      }
    }
  }

  lemma TestRules(t: Tree)
    requires t.children != [] && CheckShaped(t) && t.rule == "test"
    requires OperandsKnown(ChildRules(t), ChildTypes(t))
    requires Judged(t.rule, ChildRules(t), ChildTypes(t)).Some?
    ensures var v := Judged(t.rule, ChildRules(t), ChildTypes(t)).value;
      && (v.Rejected? <==> PostChecks(t) != [])
      && |PostChecks(t)| <= 1
      && (v.Typed? ==> InferType(t) == v.ty)
  {
    var rs := ChildRules(t);
    var ts := ChildTypes(t);
    assert forall i :: 0 <= i < |rs| ==> rs[i] == t.children[i].rule;
    if |rs| >= 1 && IsValueRule(rs[0]) {
      assert ts[0] != Unset;
    }
    if |rs| >= 3 && IsValueRule(rs[2]) {
      assert ts[2] != Unset;
    }
  }

  lemma AssignRules(t: Tree)
    requires t.children != [] && CheckShaped(t) && t.rule == "statement" && |t.children| == 4
    requires OperandsKnown(ChildRules(t), ChildTypes(t))
    requires Judged(t.rule, ChildRules(t), ChildTypes(t)).Some?
    ensures var v := Judged(t.rule, ChildRules(t), ChildTypes(t)).value;
      && (v.Rejected? <==> PostChecks(t) != [])
      && |PostChecks(t)| <= 1
      && (v.Typed? ==> InferType(t) == v.ty)
  {
    var rs := ChildRules(t);
    var ts := ChildTypes(t);
    assert forall i :: 0 <= i < |rs| ==> rs[i] == t.children[i].rule;
    if |rs| >= 1 && IsValueRule(rs[0]) {
      assert ts[0] != Unset;
    }
    if |rs| >= 3 && IsValueRule(rs[2]) {
      assert ts[2] != Unset;
    }
  }

  lemma OutputRules(t: Tree)
    requires t.children != [] && CheckShaped(t) && t.rule == "statement" && |t.children| != 4
    requires OperandsKnown(ChildRules(t), ChildTypes(t))
    requires Judged(t.rule, ChildRules(t), ChildTypes(t)).Some?
    ensures var v := Judged(t.rule, ChildRules(t), ChildTypes(t)).value;
      && (v.Rejected? <==> PostChecks(t) != [])
      && |PostChecks(t)| <= 1
      && (v.Typed? ==> InferType(t) == v.ty)
  {
    var rs := ChildRules(t);
    var ts := ChildTypes(t);
    assert forall i :: 0 <= i < |rs| ==> rs[i] == t.children[i].rule;
    if |rs| >= 3 && IsValueRule(rs[2]) {
      assert ts[2] != Unset;
    }
    if |rs| >= 4 && IsValueRule(rs[3]) {
      assert ts[3] != Unset;
    }
  }

  /** A type-rule node keeps its own type when nothing in its children
      changed: the chain only reads the node's type for argument lists. */
  lemma InferTypeSettles(t: Tree)
    requires t.children != [] && CheckShaped(t)
    ensures InferType(t.(ty := InferType(t))) == InferType(t)
  {
  }

  /** A node and its one child both take the type `ty`. */
  function SetBoth(t: Tree, ty: Ty): (r: Tree)
    requires |t.children| == 1
    ensures r.rule == t.rule && r.lexeme == t.lexeme && r.ty == ty
    ensures |r.children| == 1
    ensures r.children[0] == t.children[0].(ty := ty)
  {
    t.(ty := ty, children := [t.children[0].(ty := ty)])
  }

  /** Typing a node and its one child keeps the tree's shape. */
  lemma SetBothSameShape(t: Tree, ty: Ty)
    requires |t.children| == 1
    ensures SameShape(t, SetBoth(t, ty))
  {
    RetypeSameShape(t.children[0], ty);
    ReplaceChildSameShape(t, 0, t.children[0].(ty := ty));
    RetypeSameShape(t.(children := [t.children[0].(ty := ty)]), ty);
  }

  /** The single-child factor: a NUM is `int`, a NULL is `int*`, and an
      identifier takes its binding in the innermost scope. The identifier
      is looked up once per branch the source tests: a name bound to
      `int` costs one lookup, one bound to `int*` two; an unbound name is
      looked up three times (each lookup reports it) and then reported as
      undeclared, because the last test in the source is always true. */
  function FactorBase(t: Tree, scope: Scope, sink: Sink): (r: (Tree, Sink))
    requires t.rule == "factor" && |t.children| == 1
    ensures var c := t.children[0];
      var name := c.lexeme;
      && SameShape(t, r.0)
      && Extends(sink, r.1)
      && (c.rule == "NUM" ==> r == (SetBoth(t, Int), sink))
      && (c.rule == "NULL" ==> r == (SetBoth(t, IntPtr), sink))
      && (c.rule != "NUM" && c.rule != "NULL" ==>
          && (name in scope && scope[name] != Unset ==> r == (SetBoth(t, scope[name]), sink))
          && (name in scope && scope[name] == Unset ==>
              r.0 == t && Added(sink, r.1) == [Diagnostic(UndeclaredMessage, None)])
          && (name !in scope ==>
              && r.0 == t
              && Added(sink, r.1) == [Diagnostic(NotDeclared(name), None), Diagnostic(NotDeclared(name), None),
                                      Diagnostic(NotDeclared(name), None), Diagnostic(UndeclaredMessage, None)]))
  {
    var c := t.children[0];
    SetBothSameShape(t, Int);
    SetBothSameShape(t, IntPtr);
    if c.rule == "NUM" then (SetBoth(t, Int), sink)
    else if c.rule == "NULL" then (SetBoth(t, IntPtr), sink)
    else FactorLookup(t, scope, sink)
  }

  /** The identifier branch of the single-child factor. */
  function FactorLookup(t: Tree, scope: Scope, sink: Sink): (r: (Tree, Sink))
    requires |t.children| == 1
    ensures var name := t.children[0].lexeme;
      && SameShape(t, r.0)
      && Extends(sink, r.1)
      && (name in scope && scope[name] != Unset ==> r == (SetBoth(t, scope[name]), sink))
      && (name in scope && scope[name] == Unset ==>
          r.0 == t && Added(sink, r.1) == [Diagnostic(UndeclaredMessage, None)])
      && (name !in scope ==>
          && r.0 == t
          && Added(sink, r.1) == [Diagnostic(NotDeclared(name), None), Diagnostic(NotDeclared(name), None),
                                  Diagnostic(NotDeclared(name), None), Diagnostic(UndeclaredMessage, None)])
  {
    var name := t.children[0].lexeme;
    SetBothSameShape(t, Int);
    SetBothSameShape(t, IntPtr);
    var (ty1, s1) := GetType(scope, name, sink);
    if ty1 == Int then (SetBoth(t, Int), s1)
    else
      var (ty2, s2) := GetType(scope, name, s1);
      if ty2 == IntPtr then (SetBoth(t, IntPtr), s2)
      else
        var (_, s3) := GetType(scope, name, s2);
        var s4 := Report(s3, UndeclaredMessage);
        ExtendsTrans(sink, s1, s2);
        ExtendsTrans(sink, s2, s3);
        ReportExtends(s3, UndeclaredMessage, None);
        ExtendsTrans(sink, s3, s4);
        (t, s4)
  }

  /** The single-child lvalue: an identifier takes its binding in the
      innermost scope; an unbound one is looked up twice (each lookup
      reports it) and then reported as undeclared. */
  function LvalueBase(t: Tree, scope: Scope, sink: Sink): (r: (Tree, Sink))
    requires t.rule == "lvalue" && |t.children| == 1
    ensures var name := t.children[0].lexeme;
      && SameShape(t, r.0)
      && Extends(sink, r.1)
      && (name in scope && scope[name] != Unset ==> r == (SetBoth(t, scope[name]), sink))
      && (name in scope && scope[name] == Unset ==>
          r.0 == t && Added(sink, r.1) == [Diagnostic(UndeclaredMessage, None)])
      && (name !in scope ==>
          && r.0 == t
          && Added(sink, r.1) == [Diagnostic(NotDeclared(name), None), Diagnostic(NotDeclared(name), None),
                                  Diagnostic(UndeclaredMessage, None)])
  {
    var name := t.children[0].lexeme;
    SetBothSameShape(t, Int);
    SetBothSameShape(t, IntPtr);
    var (ty1, s1) := GetType(scope, name, sink);
    if ty1 == Int then (SetBoth(t, Int), s1)
    else
      var (ty2, s2) := GetType(scope, name, s1);
      if ty2 == IntPtr then (SetBoth(t, IntPtr), s2)
      else
        var s3 := Report(s2, UndeclaredMessage);
        ExtendsTrans(sink, s1, s2);
        ReportExtends(s2, UndeclaredMessage, None);
        ExtendsTrans(sink, s2, s3);
        (t, s3)
  }
}
