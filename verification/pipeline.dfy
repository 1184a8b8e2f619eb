/** The whole program (typeCheck.cc, main): check that the first line
    names the start rule, rebuild the derivation tree from the lines, walk
    it once with an empty scope stack and procedure table, and print the
    annotated tree. Reading the input and writing the output streams are
    not modelled: the lines arrive tokenised, and the result is the
    printed lines together with the diagnostics in report order. */
module Pipeline {
  import opened Diagnostics
  import opened Trees
  import opened Builder
  import opened Printer
  import opened Traversal
  import opened RoundTrip

  const FirstLineMessage := "invalid first expression "
  const StartRule := "start"

  /** The sink once the first line has been checked. A wrong first rule is
      reported, and the run goes on. */
  function StartSink(lines: seq<Line>): (s: Sink)
    requires |lines| > 0
    ensures Consistent(s)
    ensures s.hasError <==> Head(lines[0]) != StartRule
    ensures s.hasError ==> s.messages == [Diagnostic(FirstLineMessage, None)]
  {
    if Head(lines[0]) == StartRule then EmptySink else Report(EmptySink, FirstLineMessage)
  }

  /** The tree the builder makes, rooted at the first line's rule. */
  function Parsed(lines: seq<Line>): Built
    requires |lines| > 0
  {
    Build(Head(lines[0]), lines, 0, StartSink(lines))
  }

  /** What a run produces: the printed lines and every diagnostic. */
  datatype Outcome = Outcome(printed: seq<string>, diagnostics: seq<Diagnostic>)

  /** One run over the given lines. The output has one line per node of
      the rebuilt tree; the diagnostics begin with those of the first-line
      check and of the builder; and a wrong first rule is the first
      diagnostic and, its line being a nonterminal one, leaves the root
      without children, because the builder stops at the first error. */
  function Run(lines: seq<Line>): (o: Outcome)
    requires |lines| > 0
    requires Shaped(Parsed(lines).tree) && FirstScopeEvent(Parsed(lines).tree) != Uses
    ensures |o.printed| == Size(Parsed(lines).tree)
    ensures Parsed(lines).sink.messages <= o.diagnostics
    ensures StartSink(lines).messages <= o.diagnostics
    ensures Head(lines[0]) != StartRule ==>
      |o.diagnostics| > 0 && o.diagnostics[0] == Diagnostic(FirstLineMessage, None)
    ensures Head(lines[0]) != StartRule && IsNonTerminal(Head(lines[0])) ==> |o.printed| == 1
  {
    var b := Parsed(lines);
    var v := Traverse(b.tree, Initial.(sink := b.sink));
    SameShapeSize(b.tree, v.tree);
    assert Head(lines[0]) != StartRule && IsNonTerminal(Head(lines[0])) ==> Size(b.tree) == 1 by {
      if Head(lines[0]) != StartRule && IsNonTerminal(Head(lines[0])) {
        BadStartChildless(lines);
      }
    }
    ExtendsTrans(StartSink(lines), b.sink, v.st.sink);
    Outcome(PrintTree(v.tree), v.st.sink.messages)
  }

  /** A first line naming a nonterminal other than the start rule leaves
      the root childless: the builder reads no child once the sink holds an
      error. */
  lemma BadStartChildless(lines: seq<Line>)
    requires |lines| > 0 && Head(lines[0]) != StartRule && IsNonTerminal(Head(lines[0]))
    ensures Parsed(lines).tree == Fresh(Head(lines[0]))
    ensures Parsed(lines).sink == StartSink(lines)
  {
    BuildChildrenShape(Fresh(Head(lines[0])), Tail(lines[0]), lines, 0, StartSink(lines));
  }

  /** For well-formed input (one subtree covering every line, no colon in
      any token) that starts with the start rule, taking the type suffixes
      off the output gives back the input lines, whatever types the walk
      inferred. */
  lemma RunRoundTrip(lines: seq<Line>)
    requires |lines| > 0 && Head(lines[0]) == StartRule && NoColons(lines)
    requires Extent(lines, 0, Head(lines[0])) == Some(|lines| - 1)
    requires Shaped(Parsed(lines).tree) && FirstScopeEvent(Parsed(lines).tree) != Uses
    ensures Unannotate(Run(lines).printed) == Rendered(lines)
  {
    var b := Parsed(lines);
    var v := Traverse(b.tree, Initial.(sink := b.sink));
    RoundTripAnyTypes(lines, v.tree);
  }
}
