/** The checker's two-valued type system and its diagnostics sink.

    The checked language has exactly two value types, `int` and `int*`; a
    node whose type has not been inferred carries the empty type string,
    modelled here as `Unset`.
 */
module Diagnostics {

  datatype Option<T> = None | Some(value: T)

  /** A node or variable type: the empty string, "int" or "int*". */
  datatype Ty = Unset | Int | IntPtr

  /** The type a type clause (`type INT` or `type INT STAR`) denotes: one
      child means `int`, anything else `int*`. */
  function ClauseType(childCount: nat): (t: Ty)
    ensures t != Unset
    ensures t == Int <==> childCount == 1
  {
    if childCount == 1 then Int else IntPtr
  }

  /** One reported error: its message and, when the reporter supplied one,
      the line index it refers to. */
  datatype Diagnostic = Diagnostic(message: string, index: Option<nat>)

  /** The process-wide error sink: every diagnostic in report order, and the
      sticky flag that the tree builder consults. */
  datatype Sink = Sink(messages: seq<Diagnostic>, hasError: bool)

  const EmptySink := Sink([], false)

  /** The flag is set exactly when something has been reported. */
  predicate Consistent(s: Sink) {
    s.hasError <==> |s.messages| > 0
  }

  /** Report one diagnostic: append it and raise the sticky flag. */
  function Report(s: Sink, message: string, index: Option<nat> := None): (r: Sink)
    ensures r.hasError
    ensures |r.messages| == |s.messages| + 1
    ensures r.messages[..|s.messages|] == s.messages
    ensures r.messages[|s.messages|] == Diagnostic(message, index)
    ensures Consistent(s) ==> Consistent(r)
  {
    Sink(s.messages + [Diagnostic(message, index)], true)
  }

  /** Report each message in turn, none with a line index. */
  function ReportAll(s: Sink, messages: seq<string>): (r: Sink)
    ensures Extends(s, r)
    ensures |Added(s, r)| == |messages|
    ensures forall k :: 0 <= k < |messages| ==> Added(s, r)[k] == Diagnostic(messages[k], None)
    decreases |messages|
  {
    if messages == [] then s
    else
      var s1 := Report(s, messages[0]);
      var r := ReportAll(s1, messages[1..]);
      ReportExtends(s, messages[0], None);
      ExtendsTrans(s, s1, r);
      r
  }

  /** `later` is `earlier` with zero or more diagnostics appended; the flag
      never goes back down, and goes up exactly when something was appended. */
  predicate Extends(earlier: Sink, later: Sink) {
    && |earlier.messages| <= |later.messages|
    && later.messages[..|earlier.messages|] == earlier.messages
    && (later.hasError <==> earlier.hasError || |later.messages| > |earlier.messages|)
  }

  /** The diagnostics `later` holds beyond those of `earlier`. */
  function Added(earlier: Sink, later: Sink): (d: seq<Diagnostic>)
    requires Extends(earlier, later)
    ensures later.messages == earlier.messages + d
  {
    later.messages[|earlier.messages|..]
  }

  /** Appending is transitive, and what is added composes in order. */
  lemma ExtendsTrans(a: Sink, b: Sink, c: Sink)
    requires Extends(a, b) && Extends(b, c)
    ensures Extends(a, c)
    ensures Added(a, c) == Added(a, b) + Added(b, c)
  {
    assert c.messages[..|b.messages|][..|a.messages|] == c.messages[..|a.messages|];
  }

  /** Every report extends the sink by exactly that one diagnostic. */
  lemma ReportExtends(s: Sink, message: string, index: Option<nat>)
    ensures Extends(s, Report(s, message, index))
    ensures Added(s, Report(s, message, index)) == [Diagnostic(message, index)]
  {
  }
}
