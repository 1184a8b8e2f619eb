/** The derivation tree: a node per grammar production or token, owning its
    children in order, with an inferred type and, on leaves, a lexeme. */
module Trees {
  import opened Diagnostics

  datatype Tree = Tree(rule: string, children: seq<Tree>, ty: Ty, lexeme: string)

  /** A node as the builder first creates it: a rule name and nothing else. */
  function Fresh(rule: string): Tree {
    Tree(rule, [], Unset, "")
  }

  predicate IsLower(c: char) {
    'a' <= c <= 'z'
  }

  /** A grammar symbol is a nonterminal when every character of it is a
      lower-case letter (so the empty word counts as one). */
  function IsNonTerminal(word: string): (b: bool)
    ensures b <==> forall i :: 0 <= i < |word| ==> IsLower(word[i])
  {
    if word == [] then true
    else if !IsLower(word[0]) then false
    else
      var rest := IsNonTerminal(word[1..]);
      assert forall i :: 1 <= i < |word| ==> word[i] == word[1..][i - 1];
      rest
  }

  /** Attach `child` as the last child of `parent`. Literal tokens receive
      their fixed types as they are attached: NUM is `int`, NULL is `int*`. */
  function AddChild(parent: Tree, child: Tree): (r: Tree)
    ensures r.rule == parent.rule && r.lexeme == parent.lexeme && r.ty == parent.ty
    ensures |r.children| == |parent.children| + 1
    ensures r.children[..|parent.children|] == parent.children
    ensures var c := r.children[|parent.children|];
      && c.rule == child.rule && c.children == child.children && c.lexeme == child.lexeme
      && c.ty == (if child.rule == "NUM" then Int else if child.rule == "NULL" then IntPtr else child.ty)
  {
    var typed :=
      if child.rule == "NUM" then child.(ty := Int)
      else if child.rule == "NULL" then child.(ty := IntPtr)
      else child;
    parent.(children := parent.children + [typed])
  }

  /** The rule names of a node's children, left to right. */
  function ChildRules(t: Tree): (rs: seq<string>)
    ensures |rs| == |t.children|
    ensures forall i :: 0 <= i < |rs| ==> rs[i] == t.children[i].rule
  {
    seq(|t.children|, i requires 0 <= i < |t.children| => t.children[i].rule)
  }

  /** The tree with every inferred type cleared: what the builder fixed
      (rules, lexemes, child order) and nothing the checker decided. */
  function Erase(t: Tree): Tree {
    Tree(t.rule, seq(|t.children|, i requires 0 <= i < |t.children| => Erase(t.children[i])), Unset, t.lexeme)
  }

  /** `a` and `b` differ at most in their inferred types. */
  predicate SameShape(a: Tree, b: Tree) {
    Erase(a) == Erase(b)
  }

  /** Number of nodes. */
  function Size(t: Tree): nat {
    1 + SizeOf(t.children)
  }

  function SizeOf(ts: seq<Tree>): nat {
    if ts == [] then 0 else Size(ts[0]) + SizeOf(ts[1..])
  }

  /** A list of trees weighs its first tree plus the rest. */
  lemma SizeOfSuffix(ts: seq<Tree>, i: nat)
    requires i < |ts|
    ensures SizeOf(ts[i..]) == Size(ts[i]) + SizeOf(ts[i + 1..])
  {
    assert ts[i..][0] == ts[i];
    assert ts[i..][1..] == ts[i + 1..];
  }

  /** Two trees of the same shape agree on every part of a node except its
      type, child by child. */
  lemma SameShapeUnfold(a: Tree, b: Tree)
    requires SameShape(a, b)
    ensures a.rule == b.rule && a.lexeme == b.lexeme && |a.children| == |b.children|
    ensures ChildRules(a) == ChildRules(b)
    ensures forall i :: 0 <= i < |a.children| ==> SameShape(a.children[i], b.children[i])
  {
    assert Erase(a).children == Erase(b).children;
    forall i | 0 <= i < |a.children|
      ensures SameShape(a.children[i], b.children[i])
    {
      assert Erase(a).children[i] == Erase(b).children[i];
    }
    forall i | 0 <= i < |a.children|
      ensures a.children[i].rule == b.children[i].rule
    {
      assert Erase(a.children[i]).rule == Erase(b.children[i]).rule;
    }
  }

  /** Replacing one child by a child of the same shape keeps the shape. */
  lemma ReplaceChildSameShape(t: Tree, i: nat, c: Tree)
    requires i < |t.children| && SameShape(t.children[i], c)
    ensures SameShape(t, t.(children := t.children[i := c]))
  {
    var u := t.(children := t.children[i := c]);
    assert Erase(u).children == Erase(t).children;
  }

  /** Changing only the type of a node keeps its shape. */
  lemma RetypeSameShape(t: Tree, ty: Ty)
    ensures SameShape(t, t.(ty := ty))
  {
    assert Erase(t.(ty := ty)).children == Erase(t).children;
  }

  /** Nodes of the same shape have the same size. */
  lemma {:induction false} SameShapeSize(a: Tree, b: Tree)
    requires SameShape(a, b)
    ensures Size(a) == Size(b)
    decreases a
  {
    SameShapeUnfold(a, b);
    SameShapeSizeOf(a.children, b.children);
  }

  lemma {:induction false} SameShapeSizeOf(xs: seq<Tree>, ys: seq<Tree>)
    requires |xs| == |ys| && forall i :: 0 <= i < |xs| ==> SameShape(xs[i], ys[i])
    ensures SizeOf(xs) == SizeOf(ys)
    decreases xs
  {
    if xs != [] {
      SameShapeSize(xs[0], ys[0]);
      SameShapeSizeOf(xs[1..], ys[1..]);
    }
  }
}
