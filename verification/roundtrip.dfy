/** What the builder and the printer promise together: a well-formed
    serialization, rebuilt and printed again, comes back line for line once
    the type suffixes are taken off (typeCheck.cc, buildTree and printTree). */
module RoundTrip {
  import opened Diagnostics
  import opened Trees
  import opened Builder
  import opened Printer

  /** Reference grammar of a well-formed serialization, independent of the
      builder: the subtree named `rule` starting at `lines[idx]` is well
      formed, and ends at the returned line index. Its line starts with
      `rule`; a nonterminal line lists one or more child rules (no empty
      marker among them) or exactly the empty marker; a terminal line has
      exactly a lexeme after the rule. */
  function Extent(lines: seq<Line>, idx: nat, rule: string): (r: Option<nat>)
    requires idx < |lines|
    decreases |lines| - idx, 1
    ensures r.Some? ==> idx <= r.value < |lines|
  {
    var line := lines[idx];
    if line == [] || line[0] != rule then None
    else if !IsNonTerminal(rule) then (if |line| == 2 then Some(idx) else None)
    else if line[1..] == [EmptyMarker] then Some(idx)
    else if |line| < 2 || EmptyMarker in line[1..] then None
    else ExtentOfChildren(lines, idx, line[1..])
  }

  /** The subtrees named `rules` follow line `last` one after another. */
  function ExtentOfChildren(lines: seq<Line>, last: nat, rules: seq<string>): (r: Option<nat>)
    requires last < |lines|
    decreases |lines| - last, 0, |rules|
    ensures r.Some? ==> last <= r.value < |lines|
  {
    if rules == [] then Some(last)
    else if last + 1 >= |lines| then None
    else match Extent(lines, last + 1, rules[0])
      case None => None
      case Some(e) => ExtentOfChildren(lines, e, rules[1..])
  }

  /** The input lines as text, tokens separated by single spaces. */
  function Rendered(lines: seq<Line>): (out: seq<string>)
    ensures |out| == |lines|
  {
    seq(|lines|, i requires 0 <= i < |lines| => Join(lines[i]))
  }

  /** No token contains the colon that introduces a type suffix. */
  predicate NoColons(lines: seq<Line>) {
    forall k, j :: 0 <= k < |lines| && 0 <= j < |lines[k]| ==> ':' !in lines[k][j]
  }

  lemma {:induction false} SpaceJoinNoColon(ts: seq<string>)
    requires forall j :: 0 <= j < |ts| ==> ':' !in ts[j]
    ensures ':' !in SpaceJoin(ts)
    decreases ts
  {
    if ts != [] {
      SpaceJoinNoColon(ts[1..]);
      assert SpaceJoin(ts) == " " + ts[0] + SpaceJoin(ts[1..]);
    }
  }

  lemma JoinNoColon(line: seq<string>)
    requires forall j :: 0 <= j < |line| ==> ':' !in line[j]
    ensures ':' !in Join(line)
  {
    if line != [] {
      SpaceJoinNoColon(line[1..]);
    }
  }

  /** Rebuilding a well-formed subtree consumes exactly its lines, reports
      nothing, and the subtree's bodies are those lines. */
  lemma {:induction false} BuildRoundTrip(rule: string, lines: seq<Line>, idx: nat, sink: Sink, e: nat)
    requires idx < |lines| && !sink.hasError
    requires Extent(lines, idx, rule) == Some(e)
    ensures var b := Build(rule, lines, idx, sink);
      && b.sink == sink
      && b.next == e
      && Bodies(b.tree) == Rendered(lines[idx..e + 1])
    decreases |lines| - idx, 1
  {
    var line := lines[idx];
    var b := Build(rule, lines, idx, sink);
    assert Head(line) == rule && Tail(line) == line[1..];
    if !IsNonTerminal(rule) {
      assert b == Built(Fresh(rule).(lexeme := line[1]), idx, sink);
      assert line[1..][1..] == [];
      assert SpaceJoin(line[1..]) == " " + line[1] + SpaceJoin(line[1..][1..]);
      LeafBodies(b.tree, line, lines, idx);
    } else if line[1..] == [EmptyMarker] {
      assert b == BuildChildren(Fresh(rule), [EmptyMarker], lines, idx, sink);
      assert b == Built(Fresh(rule), idx, sink);
      assert line[1..][1..] == [];
      assert SpaceJoin(line[1..]) == " " + EmptyMarker + SpaceJoin(line[1..][1..]);
      LeafBodies(b.tree, line, lines, idx);
    } else {
      assert b == BuildChildren(Fresh(rule), line[1..], lines, idx, sink);
      BuildChildrenRoundTrip(Fresh(rule), line[1..], lines, idx, sink, e);
      assert ChildRules(b.tree) == line[1..];
      assert Body(b.tree) == Join(line);
      assert PreOrderAll(Fresh(rule).children) == [];
      NodeBodies(b.tree, line, lines, idx, e);
    }
  }

  /** The bodies of a node read from `lines[idx]` with no children. */
  lemma LeafBodies(t: Tree, line: Line, lines: seq<Line>, idx: nat)
    requires idx < |lines| && line == lines[idx]
    requires t.children == [] && Body(t) == Join(line)
    ensures Bodies(t) == Rendered(lines[idx..idx + 1])
  {
    BodiesUnfold(t);
  }

  /** The bodies of a node read from `lines[idx]` whose subtrees' bodies are
      the lines after it. */
  lemma NodeBodies(t: Tree, line: Line, lines: seq<Line>, idx: nat, e: nat)
    requires idx <= e < |lines| && line == lines[idx]
    requires Body(t) == Join(line)
    requires BodiesOf(PreOrderAll(t.children)) == Rendered(lines[idx + 1..e + 1])
    ensures Bodies(t) == Rendered(lines[idx..e + 1])
  {
    BodiesUnfold(t);
    RenderedSplit(lines, idx, idx + 1, e + 1);
  }

  /** The child loop over a well-formed child list attaches every listed
      child in order and consumes exactly the children's lines. */
  lemma {:induction false} BuildChildrenRoundTrip(node: Tree, pending: seq<string>, lines: seq<Line>, last: nat, sink: Sink, e: nat)
    requires last < |lines| && !sink.hasError
    requires EmptyMarker !in pending
    requires ExtentOfChildren(lines, last, pending) == Some(e)
    ensures var b := BuildChildren(node, pending, lines, last, sink);
      && b.sink == sink
      && b.next == e
      && ChildRules(b.tree) == ChildRules(node) + pending
      && BodiesOf(PreOrderAll(b.tree.children))
         == BodiesOf(PreOrderAll(node.children)) + Rendered(lines[last + 1..e + 1])
    decreases |lines| - last, 0, |pending|
  {
    if pending == [] {
      assert BuildChildren(node, pending, lines, last, sink) == Built(node, last, sink);
      assert ChildRules(node) + pending == ChildRules(node);
      assert Rendered(lines[last + 1..last + 1]) == [];
    } else {
      var e0 := Extent(lines, last + 1, pending[0]).value;
      BuildRoundTrip(pending[0], lines, last + 1, sink, e0);
      var grown := AddChild(node, Build(pending[0], lines, last + 1, sink).tree);
      BuildChildrenRoundTrip(grown, pending[1..], lines, e0, sink, e);
      BuildChildrenStep(node, pending, lines, last, sink);
      ChildrenStep(node, pending, lines, last, sink, Build(pending[0], lines, last + 1, sink),
                   BuildChildren(grown, pending[1..], lines, e0, sink), e0, e);
    }
  }

  /** One turn of the child loop over a well-formed list, given what the
      rest of the loop does. */
  lemma ChildrenStep(node: Tree, pending: seq<string>, lines: seq<Line>, last: nat, sink: Sink,
                     child: Built, rest: Built, e0: nat, e: nat)
    requires last + 1 <= e0 < e + 1 <= |lines|
    requires pending != [] && child.tree.rule == pending[0]
    requires Bodies(child.tree) == Rendered(lines[last + 1..e0 + 1])
    requires ChildRules(rest.tree) == ChildRules(AddChild(node, child.tree)) + pending[1..]
    requires BodiesOf(PreOrderAll(rest.tree.children))
         == BodiesOf(PreOrderAll(AddChild(node, child.tree).children)) + Rendered(lines[e0 + 1..e + 1])
    ensures ChildRules(rest.tree) == ChildRules(node) + pending
    ensures BodiesOf(PreOrderAll(rest.tree.children))
         == BodiesOf(PreOrderAll(node.children)) + Rendered(lines[last + 1..e + 1])
  {
    AttachStep(node, child.tree, AddChild(node, child.tree), rest.tree, pending, lines, last + 1, e0 + 1, e + 1);
  }

  /** One turn of the child loop, in terms of rules and bodies only. */
  lemma AttachStep(node: Tree, child: Tree, grown: Tree, done: Tree, pending: seq<string>,
                   lines: seq<Line>, a: nat, m: nat, b: nat)
    requires pending != [] && child.rule == pending[0]
    requires grown == AddChild(node, child)
    requires a <= m <= b <= |lines|
    requires Bodies(child) == Rendered(lines[a..m])
    requires ChildRules(done) == ChildRules(grown) + pending[1..]
    requires BodiesOf(PreOrderAll(done.children)) == BodiesOf(PreOrderAll(grown.children)) + Rendered(lines[m..b])
    ensures ChildRules(done) == ChildRules(node) + pending
    ensures BodiesOf(PreOrderAll(done.children)) == BodiesOf(PreOrderAll(node.children)) + Rendered(lines[a..b])
  {
    var typed := grown.children[|node.children|];
    assert grown.children == node.children + [typed];
    AttachRules(node, typed, grown, done, pending);
    PreOrderAllAppend(node.children, typed);
    BodiesOfConcat(PreOrderAll(node.children), PreOrder(typed));
    BodiesIgnoreOwnType(typed, child);
    RenderedSplit(lines, a, m, b);
    calc {
      BodiesOf(PreOrderAll(done.children));
      BodiesOf(PreOrderAll(grown.children)) + Rendered(lines[m..b]);
      BodiesOf(PreOrderAll(node.children) + PreOrder(typed)) + Rendered(lines[m..b]);
      BodiesOf(PreOrderAll(node.children)) + Bodies(typed) + Rendered(lines[m..b]);
      BodiesOf(PreOrderAll(node.children)) + Rendered(lines[a..m]) + Rendered(lines[m..b]);
      { Regroup(BodiesOf(PreOrderAll(node.children)), Rendered(lines[a..m]), Rendered(lines[m..b]), Rendered(lines[a..b])); }
      BodiesOf(PreOrderAll(node.children)) + Rendered(lines[a..b]);
    }
  }

  lemma Regroup(x: seq<string>, y: seq<string>, z: seq<string>, yz: seq<string>)
    requires yz == y + z
    ensures x + y + z == x + yz
  {
  }

  /** The child rules after one more attached child. */
  lemma AttachRules(node: Tree, typed: Tree, grown: Tree, done: Tree, pending: seq<string>)
    requires pending != [] && typed.rule == pending[0]
    requires grown.children == node.children + [typed]
    requires ChildRules(done) == ChildRules(grown) + pending[1..]
    ensures ChildRules(done) == ChildRules(node) + pending
  {
    assert ChildRules(grown) == ChildRules(node) + [pending[0]];
    assert [pending[0]] + pending[1..] == pending;
  }

  lemma RenderedSplit(lines: seq<Line>, a: nat, m: nat, b: nat)
    requires a <= m <= b <= |lines|
    ensures Rendered(lines[a..b]) == Rendered(lines[a..m]) + Rendered(lines[m..b])
  {
    assert lines[a..b] == lines[a..m] + lines[m..b];
  }

  lemma RenderedNoColon(lines: seq<Line>)
    requires NoColons(lines)
    ensures forall i :: 0 <= i < |lines| ==> ':' !in Rendered(lines)[i]
  {
    forall i | 0 <= i < |lines|
      ensures ':' !in Rendered(lines)[i]
    {
      JoinNoColon(lines[i]);
    }
  }

  /** Round trip: for a well-formed serialization that the root consumes
      entirely, printing the rebuilt tree and taking the type suffixes off
      gives back the input lines. */
  lemma BuildPrintRoundTrip(lines: seq<Line>)
    requires |lines| > 0 && NoColons(lines)
    requires Extent(lines, 0, Head(lines[0])) == Some(|lines| - 1)
    ensures Unannotate(PrintTree(Build(Head(lines[0]), lines, 0, EmptySink).tree)) == Rendered(lines)
  {
    var t := Build(Head(lines[0]), lines, 0, EmptySink).tree;
    BuiltBodies(lines, EmptySink);
    PrintedBodies(lines, t);
  }

  /** The same holds for any tree of the same shape as the rebuilt one, in
      particular for the tree after type checking. */
  lemma RoundTripAnyTypes(lines: seq<Line>, annotated: Tree)
    requires |lines| > 0 && NoColons(lines)
    requires Extent(lines, 0, Head(lines[0])) == Some(|lines| - 1)
    requires SameShape(Build(Head(lines[0]), lines, 0, EmptySink).tree, annotated)
    ensures Unannotate(PrintTree(annotated)) == Rendered(lines)
  {
    var t := Build(Head(lines[0]), lines, 0, EmptySink).tree;
    BuiltBodies(lines, EmptySink);
    SameShapeBodies(t, annotated);
    PrintedBodies(lines, annotated);
  }

  lemma BuiltBodies(lines: seq<Line>, sink: Sink)
    requires |lines| > 0 && !sink.hasError
    requires Extent(lines, 0, Head(lines[0])) == Some(|lines| - 1)
    ensures Bodies(Build(Head(lines[0]), lines, 0, sink).tree) == Rendered(lines)
  {
    BuildRoundTrip(Head(lines[0]), lines, 0, sink, |lines| - 1);
    assert lines[0..|lines|] == lines;
  }

  lemma PrintedBodies(lines: seq<Line>, t: Tree)
    requires NoColons(lines) && Bodies(t) == Rendered(lines)
    ensures Unannotate(PrintTree(t)) == Rendered(lines)
  {
    RenderedNoColon(lines);
    UnannotatePrint(t);
  }
}
