/** Reconstruction of the derivation tree from its line serialization
    (typeCheck.cc, buildTree). Lines arrive already split into their
    whitespace-separated tokens. The read cursor is threaded explicitly:
    each call returns the index of the last line it consumed. */
module Builder {
  import opened Diagnostics
  import opened Trees

  type Line = seq<string>

  datatype Built = Built(tree: Tree, next: nat, sink: Sink)

  const EmptyMarker := ".EMPTY"
  const EndOfFileMessage := "Unexpected end of file"
  const MissingLexemeMessage := "Missing lexeme for terminal symbol"

  /** The first token of a line; reading it from a blank line yields "". */
  function Head(line: Line): string {
    if line == [] then "" else line[0]
  }

  /** The tokens after the head. */
  function Tail(line: Line): seq<string> {
    if line == [] then [] else line[1..]
  }

  /** The child rules a nonterminal line lists: its tokens up to, and not
      including, the first empty-production marker. */
  function UpToEmpty(ts: seq<string>): (r: seq<string>)
    ensures r <= ts
    ensures EmptyMarker !in r
    ensures |r| < |ts| ==> ts[|r|] == EmptyMarker
  {
    if ts == [] || ts[0] == EmptyMarker then []
    else [ts[0]] + UpToEmpty(ts[1..])
  }

  /** Build the subtree named `rule` whose line is `lines[idx]`. A
      nonterminal head (all lower case) makes the rest of the line its
      child list; any other head takes the second token as its lexeme.
      The shape of the result is stated by BuildShape below. */
  function Build(rule: string, lines: seq<Line>, idx: nat, sink: Sink): (b: Built)
    requires idx < |lines|
    decreases |lines| - idx, 1
    ensures b.tree.rule == rule
    ensures idx <= b.next <= |lines|
    ensures b.next == |lines| ==> b.sink.hasError
    ensures Extends(sink, b.sink)
  {
    var line := lines[idx];
    var node := Fresh(rule);
    if IsNonTerminal(Head(line)) then
      BuildChildren(node, Tail(line), lines, idx, sink)
    else if |line| >= 2 then
      Built(node.(lexeme := line[1]), idx, sink)
    else
      Built(node, idx, Report(sink, MissingLexemeMessage, Some(idx)))
  }

  /** The child loop of a nonterminal: `pending` are the child rules not
      yet read and `last` the last line consumed so far. The loop stops at
      the end of the list, at the empty-production marker, or as soon as
      anything has been reported; running out of lines reports an error and
      leaves the pending child unattached. */
  function BuildChildren(node: Tree, pending: seq<string>, lines: seq<Line>, last: nat, sink: Sink): (b: Built)
    requires last < |lines| || (last == |lines| && sink.hasError)
    decreases |lines| - last, 0, |pending|
    ensures b.tree.rule == node.rule
    ensures last <= b.next <= |lines|
    ensures b.next == |lines| ==> b.sink.hasError
    ensures Extends(sink, b.sink)
  {
    if pending == [] || sink.hasError || pending[0] == EmptyMarker then
      Built(node, last, sink)
    else if last + 1 >= |lines| then
      Built(node, last + 1, Report(sink, EndOfFileMessage, Some(last + 1)))
    else
      var child := Build(pending[0], lines, last + 1, sink);
      var rest := BuildChildren(AddChild(node, child.tree), pending[1..], lines, child.next, child.sink);
      ExtendsTrans(sink, child.sink, rest.sink);
      rest
  }

  /** What the builder makes of one line. The node carries the rule its
      parent listed and no type. A terminal line gives a leaf holding the
      second token, or reports the missing lexeme. A nonterminal line gives
      the listed children in order, up to the empty-production marker; the
      list is cut short only when something was reported. */
  lemma {:induction false} BuildShape(rule: string, lines: seq<Line>, idx: nat, sink: Sink)
    requires idx < |lines|
    decreases |lines| - idx, 1
    ensures var b := Build(rule, lines, idx, sink);
      && b.tree.rule == rule && b.tree.ty == Unset
      && (!IsNonTerminal(Head(lines[idx])) ==>
          && b.tree.children == [] && b.next == idx
          && (|lines[idx]| >= 2 ==> b.tree.lexeme == lines[idx][1] && b.sink == sink)
          && (|lines[idx]| < 2 ==> Added(sink, b.sink) == [Diagnostic(MissingLexemeMessage, Some(idx))]))
      && (IsNonTerminal(Head(lines[idx])) ==>
          && b.tree.lexeme == ""
          && ChildRules(b.tree) <= UpToEmpty(Tail(lines[idx]))
          && (!b.sink.hasError ==> ChildRules(b.tree) == UpToEmpty(Tail(lines[idx]))))
  {
    if IsNonTerminal(Head(lines[idx])) {
      BuildChildrenShape(Fresh(rule), Tail(lines[idx]), lines, idx, sink);
    }
  }

  /** The child loop appends children and nothing else: it keeps the
      children already there, adds the pending rules in order up to the
      empty-production marker, stops at once when the sink already holds
      an error, and reports running out of lines without attaching the
      child it was about to read. */
  lemma {:induction false} BuildChildrenShape(node: Tree, pending: seq<string>, lines: seq<Line>, last: nat, sink: Sink)
    requires last < |lines| || (last == |lines| && sink.hasError)
    decreases |lines| - last, 0, |pending|
    ensures var b := BuildChildren(node, pending, lines, last, sink);
      && b.tree.rule == node.rule && b.tree.ty == node.ty && b.tree.lexeme == node.lexeme
      && |node.children| <= |b.tree.children|
      && b.tree.children[..|node.children|] == node.children
      && ChildRules(b.tree)[..|node.children|] == ChildRules(node)
      && ChildRules(b.tree)[|node.children|..] <= UpToEmpty(pending)
      && (!b.sink.hasError ==> ChildRules(b.tree)[|node.children|..] == UpToEmpty(pending))
      && (sink.hasError ==> b == Built(node, last, sink))
      && (!sink.hasError && pending != [] && pending[0] != EmptyMarker && last + 1 == |lines| ==>
          b.tree == node && Added(sink, b.sink) == [Diagnostic(EndOfFileMessage, Some(last + 1))])
  {
    if pending == [] || sink.hasError || pending[0] == EmptyMarker {
    } else if last + 1 >= |lines| {
    } else {
      var child := Build(pending[0], lines, last + 1, sink);
      BuildShape(pending[0], lines, last + 1, sink);
      var grown := AddChild(node, child.tree);
      var rest := BuildChildren(grown, pending[1..], lines, child.next, child.sink);
      BuildChildrenShape(grown, pending[1..], lines, child.next, child.sink);
      AttachedRules(node, grown, rest.tree, pending);
    }
  }

  /** One turn of the child loop: read the subtree of the first pending
      rule, attach it, and go on from the line after it. */
  lemma BuildChildrenStep(node: Tree, pending: seq<string>, lines: seq<Line>, last: nat, sink: Sink)
    requires last + 1 < |lines| && !sink.hasError
    requires pending != [] && pending[0] != EmptyMarker
    ensures var child := Build(pending[0], lines, last + 1, sink);
      BuildChildren(node, pending, lines, last, sink)
      == BuildChildren(AddChild(node, child.tree), pending[1..], lines, child.next, child.sink)
  {
  }

  /** Bookkeeping for one turn of the child loop: the rules gathered after
      attaching `pending[0]` extend those gathered before. */
  lemma AttachedRules(node: Tree, grown: Tree, done: Tree, pending: seq<string>)
    requires pending != [] && pending[0] != EmptyMarker
    requires |grown.children| == |node.children| + 1
    requires grown.children[..|node.children|] == node.children
    requires grown.children[|node.children|].rule == pending[0]
    requires |grown.children| <= |done.children|
    requires done.children[..|grown.children|] == grown.children
    requires ChildRules(done)[|grown.children|..] <= UpToEmpty(pending[1..])
    ensures done.children[..|node.children|] == node.children
    ensures ChildRules(done)[..|node.children|] == ChildRules(node)
    ensures ChildRules(done)[|node.children|..] <= UpToEmpty(pending)
    ensures ChildRules(done)[|grown.children|..] == UpToEmpty(pending[1..]) ==>
      ChildRules(done)[|node.children|..] == UpToEmpty(pending)
  {
    var n := |node.children|;
    assert done.children[..n] == grown.children[..n];
    assert ChildRules(done)[n..] == [pending[0]] + ChildRules(done)[n + 1..];
  }
}
