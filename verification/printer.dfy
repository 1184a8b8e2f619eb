/** Re-emission of the annotated tree (typeCheck.cc, printTree): one line
    per node in pre-order. A nonterminal line lists its children's rules
    (or the empty-production marker), a terminal line its lexeme, and a
    node with a known type ends in " : " and the type. */
module Printer {
  import opened Diagnostics
  import opened Trees
  import Builder

  /** Each token preceded by one space. */
  function SpaceJoin(ts: seq<string>): string {
    if ts == [] then "" else " " + ts[0] + SpaceJoin(ts[1..])
  }

  /** A token list written out with single spaces between tokens. */
  function Join(line: seq<string>): string {
    if line == [] then "" else line[0] + SpaceJoin(line[1..])
  }

  const IntSuffix := " : int"
  const PtrSuffix := " : int*"

  /** A node's line without its type suffix. */
  function Body(t: Tree): string {
    if !IsNonTerminal(t.rule) then t.rule + " " + t.lexeme
    else if t.children == [] then t.rule + " " + Builder.EmptyMarker
    else t.rule + SpaceJoin(ChildRules(t))
  }

  /** The type suffix of a printed line: " : " and the type's spelling,
      or nothing for a node without a type. */
  function Suffix(ty: Ty): (s: string)
    ensures s == "" <==> ty == Unset
  {
    match ty
    case Unset => ""
    case Int => IntSuffix
    case IntPtr => PtrSuffix
  }

  /** The printed line of one node. */
  function LineOf(t: Tree): string {
    Body(t) + Suffix(t.ty)
  }

  /** The nodes of a tree, each before its children, children left to right. */
  function PreOrder(t: Tree): (ns: seq<Tree>)
    ensures |ns| == Size(t) && ns[0] == t
  {
    [t] + PreOrderAll(t.children)
  }

  function PreOrderAll(ts: seq<Tree>): (ns: seq<Tree>)
    ensures |ns| == SizeOf(ts)
  {
    if ts == [] then [] else PreOrder(ts[0]) + PreOrderAll(ts[1..])
  }

  /** The printer: the node's own line, then each child's subtree in turn. */
  function PrintTree(t: Tree): (out: seq<string>)
    ensures |out| == Size(t)
    ensures out[0] == LineOf(t)
  {
    [LineOf(t)] + PrintAll(t.children)
  }

  function PrintAll(ts: seq<Tree>): (out: seq<string>)
    ensures |out| == SizeOf(ts)
  {
    if ts == [] then [] else PrintTree(ts[0]) + PrintAll(ts[1..])
  }

  /** The lines of a node sequence without type suffixes. */
  function BodiesOf(ns: seq<Tree>): (out: seq<string>)
    ensures |out| == |ns|
    ensures forall i :: 0 <= i < |ns| ==> out[i] == Body(ns[i])
  {
    seq(|ns|, i requires 0 <= i < |ns| => Body(ns[i]))
  }

  /** What the printer writes once the type suffixes are taken off. */
  function Bodies(t: Tree): seq<string> {
    BodiesOf(PreOrder(t))
  }


  /** Remove a trailing type suffix, if the line has one. */
  function Strip(line: string): string {
    if |line| >= |PtrSuffix| && line[|line| - |PtrSuffix|..] == PtrSuffix then line[..|line| - |PtrSuffix|]
    else if |line| >= |IntSuffix| && line[|line| - |IntSuffix|..] == IntSuffix then line[..|line| - |IntSuffix|]
    else line
  }

  function Unannotate(lines: seq<string>): (out: seq<string>)
    ensures |out| == |lines|
    ensures forall i :: 0 <= i < |lines| ==> out[i] == Strip(lines[i])
  {
    seq(|lines|, i requires 0 <= i < |lines| => Strip(lines[i]))
  }

  /** The printer visits the nodes in pre-order and writes each one's line. */
  lemma {:induction false} PrintIsPreOrder(t: Tree)
    ensures forall i :: 0 <= i < Size(t) ==> PrintTree(t)[i] == LineOf(PreOrder(t)[i])
    decreases t
  {
    PrintAllIsPreOrder(t.children);
  }

  lemma {:induction false} PrintAllIsPreOrder(ts: seq<Tree>)
    ensures forall i :: 0 <= i < SizeOf(ts) ==> PrintAll(ts)[i] == LineOf(PreOrderAll(ts)[i])
    decreases ts
  {
    if ts != [] {
      PrintIsPreOrder(ts[0]);
      PrintAllIsPreOrder(ts[1..]);
    }
  }

  /** A suffix is recognised and removed exactly, provided the line itself
      holds no colon. */
  lemma StripSuffix(body: string, ty: Ty)
    requires ':' !in body
    ensures Strip(body + Suffix(ty)) == body
  {
    match ty
    case IntPtr => StripPtr(body);
    case Int => StripInt(body);
    case Unset => StripNone(body);
  }

  lemma StripPtr(body: string)
    ensures Strip(body + PtrSuffix) == body
  {
    var line := body + PtrSuffix;
    assert line[|line| - |PtrSuffix|..] == PtrSuffix;
    assert line[..|line| - |PtrSuffix|] == body;
  }

  lemma StripInt(body: string)
    ensures Strip(body + IntSuffix) == body
  {
    var line := body + IntSuffix;
    assert line[|line| - 1] == 't';
    assert line[|line| - |IntSuffix|..] == IntSuffix;
    assert line[..|line| - |IntSuffix|] == body;
  }

  lemma StripNone(body: string)
    requires ':' !in body
    ensures Strip(body) == body
  {
    if |body| >= |PtrSuffix| {
      assert body[|body| - 6] != ':';
      assert body[|body| - |PtrSuffix|..][1] == body[|body| - 6];
    }
    if |body| >= |IntSuffix| {
      assert body[|body| - 5] != ':';
      assert body[|body| - |IntSuffix|..][1] == body[|body| - 5];
    }
  }

  /** Taking the type suffixes off the printed lines leaves the bodies,
      whenever no body contains a colon. */
  lemma UnannotatePrint(t: Tree)
    requires forall i :: 0 <= i < |Bodies(t)| ==> ':' !in Bodies(t)[i]
    ensures Unannotate(PrintTree(t)) == Bodies(t)
  {
    PrintIsPreOrder(t);
    forall i | 0 <= i < Size(t)
      ensures Strip(PrintTree(t)[i]) == Bodies(t)[i]
    {
      assert Bodies(t)[i] == Body(PreOrder(t)[i]);
      StripSuffix(Body(PreOrder(t)[i]), PreOrder(t)[i].ty);
    }
  }

  lemma BodiesOfConcat(a: seq<Tree>, b: seq<Tree>)
    ensures BodiesOf(a + b) == BodiesOf(a) + BodiesOf(b)
  {
  }

  /** A node's printed lines split into its own line and its subtrees'. */
  lemma BodiesUnfold(t: Tree)
    ensures Bodies(t) == [Body(t)] + BodiesOf(PreOrderAll(t.children))
  {
    BodiesOfConcat([t], PreOrderAll(t.children));
  }

  /** A node's type is not part of its body: nodes that agree on rule,
      children and lexeme print the same bodies. */
  lemma BodiesIgnoreOwnType(a: Tree, b: Tree)
    requires a.rule == b.rule && a.children == b.children && a.lexeme == b.lexeme
    ensures Bodies(a) == Bodies(b)
  {
    BodiesUnfold(a);
    BodiesUnfold(b);
  }

  /** Once the suffixes are taken off, the printout depends only on the
      tree's shape: inferred types never change it. */
  lemma {:induction false} SameShapeBodies(a: Tree, b: Tree)
    requires SameShape(a, b)
    ensures Bodies(a) == Bodies(b)
    decreases a
  {
    SameShapeUnfold(a, b);
    BodiesUnfold(a);
    BodiesUnfold(b);
    SameShapeBodiesAll(a.children, b.children);
  }

  lemma {:induction false} SameShapeBodiesAll(xs: seq<Tree>, ys: seq<Tree>)
    requires |xs| == |ys| && forall i :: 0 <= i < |xs| ==> SameShape(xs[i], ys[i])
    ensures BodiesOf(PreOrderAll(xs)) == BodiesOf(PreOrderAll(ys))
    decreases xs
  {
    if xs != [] {
      SameShapeBodies(xs[0], ys[0]);
      SameShapeBodiesAll(xs[1..], ys[1..]);
      BodiesOfConcat(PreOrder(xs[0]), PreOrderAll(xs[1..]));
      BodiesOfConcat(PreOrder(ys[0]), PreOrderAll(ys[1..]));
    }
  }

  /** Attaching one more child appends that child's subtree to the
      pre-order of the children. */
  lemma {:induction false} PreOrderAllAppend(cs: seq<Tree>, c: Tree)
    ensures PreOrderAll(cs + [c]) == PreOrderAll(cs) + PreOrder(c)
    decreases cs
  {
    if cs == [] {
      assert [c][1..] == [];
    } else {
      assert (cs + [c])[1..] == cs[1..] + [c];
      PreOrderAllAppend(cs[1..], c);
    }
  }
}
