# A verified model of the typeCheck.cc checker

The checker reads a derivation tree of a small C-like language. The
language has two value types, `int` and `int*`. The tree arrives one
node per line in pre-order:

- A nonterminal line lists its child rules, or `.EMPTY` when it has none.
- A terminal line gives the token kind and its lexeme.

The checker then:

1. checks that the first line names `start`;
2. rebuilds the tree;
3. walks it once, keeping a scope stack, a procedure table, the parameter
   types gathered so far and a count of `procedures` nodes;
4. reports type errors to a sticky error sink;
5. prints the tree again, with ` : int` or ` : int*` after every node
   that received a type.

The Dafny modules follow the program's stages:

| module | file | what it holds |
|---|---|---|
| `Diagnostics` | diagnostics.dfy | the type domain (`Unset`, `Int`, `IntPtr`) and the error sink. The sink is the list of reported diagnostics plus the sticky flag that the builder consults |
| `Trees` | tree.dfy | the tree datatype, `addChild`, `isNonTerminal`, and "same shape" (equal up to inferred types) |
| `Registries` | registries.dfy | the symbol table (a map from names to types) and the procedure table (a map from names to parameter types) |
| `Builder` | builder.dfy | `buildTree`, with the read cursor threaded explicitly |
| `Printer` | printer.dfy | `printTree` as a list of lines, and suffix stripping |
| `RoundTrip` | roundtrip.dfy | an independent grammar of well-formed input, plus the build/print round trip |
| `Rules` | rules.dfy | the type overrides and checks that run after each child, the single-child factor and lvalue cases, and an independent table of type rules |
| `Traversal` | traversal.dfy | `treeTraversal`: the entry actions, the walk, and what the walk preserves |
| `Pipeline` | pipeline.dfy | `main`: the first-line check, then build, walk and print |

All operations are pure functions. The walk threads a `Checker` value
that holds the scope stack, the procedure table, the current procedure
name, the parameter list, the procedure count and the sink. `treeTraversal`
interleaves type updates and checks after each child. The model splits
this into `InferType`, the type the overrides leave on the node, and
`PostChecks`, the messages the checks report. The split is exact: the
overrides write only the node's own type, and the checks read only the
children's types.

Some behaviour of the code is kept as written:

- The post-child checks run after every child, so one message can be
  reported several times.
- A duplicate procedure is reported and its entry is overwritten anyway.
- The parameter list is never cleared between procedures.
- An unknown identifier in a factor is looked up three times. Each lookup
  reports it, and then "Variable not declared! " is reported. An unknown
  lvalue is looked up twice.
- The `dcls` cast check reads the initialiser's type as `addChild` preset
  it (for NUM and NULL).
- An argument list keeps its own type.

Three behaviours worth knowing, kept as the code has them:

- **Duplicate procedures.** Registering a procedure name a second time is
  reported, and the second parameter list replaces the first
  (typeCheck.cc:109-110).
- **The `wain` check.** A `wain` whose second parameter is `int*` is
  reported with "The second parameter of wain is not int type"
  (typeCheck.cc:283-289).
- **A wrong first line.** A first rule other than `start` is reported,
  and the run goes on (typeCheck.cc:449-456). Because the error flag is
  now set, the builder attaches no child to the root (typeCheck.cc:170),
  so the output is the root line alone.

## Model

| member | source | states |
|---|---|---|
| Diagnostics.Report | typeCheck.cc:13-20 | reporting appends exactly the given diagnostic (message and optional line index), keeps earlier ones, raises the sticky flag, and keeps the flag faithful to the list |
| Diagnostics.ReportAll | typeCheck.cc:13-20 | reporting several messages in turn appends exactly those messages, in order, without indices |
| Trees.AddChild | typeCheck.cc:29-33 | the child is appended last and earlier children are kept; a NUM child becomes `int`, a NULL child `int*`, any other child keeps its type |
| Trees.IsNonTerminal | typeCheck.cc:143-152 | a word is a nonterminal exactly when all its characters are lower-case letters, so the empty word is one |
| Registries.DeclareVariable | typeCheck.cc:60-66 | a fresh name is bound to the given type; a bound name keeps its binding and exactly one "already declared" error is reported; other names are untouched |
| Registries.GetType | typeCheck.cc:69-77 | a bound name yields its type silently; an unbound one yields no type and exactly one "was not declared" error |
| Registries.DeclaredIffSilentLookup | typeCheck.cc:69-82 | a lookup is silent exactly when the name is declared |
| Registries.CheckTypeIsLookup | typeCheck.cc:85-93 | the check reports what a lookup reports, and holds exactly when the name is declared with the expected type |
| Registries.DeclareThenLookup | typeCheck.cc:60-77 | after a declaration, a lookup of the name yields the declared type, or the earlier binding if there was one |
| Registries.AddProcedure | typeCheck.cc:108-118 | afterwards the entry is the given list and the other entries are unchanged; an error is reported exactly when the name was already registered |
| Registries.AddProcedureTwice | typeCheck.cc:108-111 | registering a name twice leaves the second list in place and reports only the second registration |
| Builder.UpToEmpty | typeCheck.cc:169-173 | the listed child rules are a prefix of the tokens that stops just before the first `.EMPTY` marker and holds none |
| Builder.Build | typeCheck.cc:155-192 | the node carries the rule its parent listed; the cursor only advances and stays within the input; reaching the end of the input goes with an error; diagnostics only accumulate |
| Builder.BuildChildren | typeCheck.cc:165-182 | the child loop keeps the node's rule, advances the cursor within the input, and only appends diagnostics |
| Builder.BuildShape | typeCheck.cc:155-192 | a terminal line gives a leaf holding the second token, or reports the missing lexeme at that line; a nonterminal line gives its listed children in order up to `.EMPTY`, and the list is cut short only when an error was reported |
| Builder.BuildChildrenShape | typeCheck.cc:165-182 | the loop keeps existing children and appends a prefix of the listed rules; once the flag is set it reads nothing; running out of lines reports "Unexpected end of file" at the next index and leaves the pending child unattached |
| Printer.PrintTree | typeCheck.cc:416-434 | one printed line per node, the node's own line first |
| Printer.PrintIsPreOrder | typeCheck.cc:416-434 | the i-th printed line is the line of the i-th node in pre-order |
| Printer.Suffix | typeCheck.cc:429 | a type suffix is printed exactly when the node has a type |
| Printer.StripSuffix | typeCheck.cc:429 | removing the type suffix from a line without colons restores the line exactly, for each of the three types |
| Printer.UnannotatePrint | typeCheck.cc:416-434 | stripping the suffixes from the printout gives the nodes' bodies (rule plus children or lexeme) in pre-order |
| Printer.SameShapeBodies | typeCheck.cc:416-434 | the printout without suffixes depends only on the tree's shape, not on inferred types |
| RoundTrip.BuildRoundTrip | typeCheck.cc:155-192 | on well-formed input the builder reports nothing, stops at the line the grammar predicts, and the rebuilt subtree's bodies are exactly the input lines it covered |
| RoundTrip.BuildChildrenRoundTrip | typeCheck.cc:165-182 | the same for the child loop over a well-formed child list: the children's rules are the listed ones, and their bodies are the lines they cover |
| RoundTrip.BuildPrintRoundTrip | typeCheck.cc:416-434 | for well-formed, fully consumed input without colons, the printout of the rebuilt tree with suffixes removed equals the input lines |
| RoundTrip.RoundTripAnyTypes | typeCheck.cc:416-434 | the round trip holds for every tree of the rebuilt tree's shape, whatever types were inferred |
| Rules.InferType | typeCheck.cc:320-381 | statement and test nodes end untyped; an argument list keeps its own type |
| Rules.PostChecks | typeCheck.cc:328-401 | each check stays silent while an operand it reads is untyped: assignment, println, delete, comparison, dereference and address-of; nodes other than expressions, statements and tests are never reported |
| Rules.TypeRules | typeCheck.cc:318-401 | against an independent table of the language's type rules, with operand types known: the checks report nothing exactly when the rule accepts, report at most one message, and the overrides give the type the rule gives |
| Rules.FactorRules | typeCheck.cc:325-381 | with the operand types known: dereference gives `int` and needs an `int*` operand; address-of gives `int*` and needs `int`; parentheses pass the inner type; `new` gives `int*`; a call gives `int` |
| Rules.FactorAnyOperands | typeCheck.cc:325-381 | whatever the operands' types: `new` gives `int*` and a call gives `int`, silently; a dereference or address-of of an untyped operand keeps the first child's type and reports nothing |
| Rules.ExprRules | typeCheck.cc:344-356 | with both operand types known: a sum is `int*` when either operand is; a difference is rejected for `int` minus `int*` and takes the left operand's type otherwise |
| Rules.TermRules | typeCheck.cc:359-376 | with both operand types known: a product, quotient or remainder needs two `int` operands and is `int` |
| Rules.PointerArithmetic | typeCheck.cc:344-376 | with an operand possibly untyped, a pointer operand alone decides: a sum with a pointer operand, and a difference with a pointer on the left, are `int*` and silent; `int` minus `int*` is reported; a product, quotient or remainder keeps its left operand's type and is reported exactly when an operand is a pointer |
| Rules.AssignRules | typeCheck.cc:383-385 | an assignment needs equal types on both sides |
| Rules.OutputRules | typeCheck.cc:388-395 | println needs `int`; delete needs `int*` |
| Rules.TestRules | typeCheck.cc:398-401 | a comparison needs equal operand types |
| Rules.InferTypeSettles | typeCheck.cc:318-380 | running the overrides again on the updated node changes nothing |
| Rules.FactorBase | typeCheck.cc:228-252 | NUM and NULL type the factor and its child silently; a bound identifier types both with its binding; an unbound one leaves the tree unchanged and reports three "was not declared" errors, then "Variable not declared! " |
| Rules.FactorLookup | typeCheck.cc:241-250 | the identifier branch on its own: one lookup for `int`, two for `int*`, and for an unbound name three reports and then the undeclared message, because the last test is always true |
| Rules.LvalueBase | typeCheck.cc:211-226 | a bound identifier types the lvalue and its child; an unbound one leaves the tree unchanged and reports two "was not declared" errors, then "Variable not declared! " |
| Traversal.EnterProcedures | typeCheck.cc:256-262 | after the first procedure the previous table is dropped; a fresh empty table is pushed; the procedure count goes up by one |
| Traversal.EnterProcedure | typeCheck.cc:264-270 | the procedure name is remembered; with no parameters the name is registered with an empty list, reported if already present |
| Traversal.EnterParamlist | typeCheck.cc:272-282 | the parameter's type is appended to a list that is never cleared; the last parameter registers the procedure with the whole list |
| Traversal.EnterMain | typeCheck.cc:283-289 | exactly one error when `main`'s second parameter is not `int`, none otherwise |
| Traversal.EnterDcl | typeCheck.cc:290-296 | the name is declared in the innermost table only, and the identifier node gets the declared type |
| Traversal.EnterDcls | typeCheck.cc:297-307 | an initialised declaration gives the declaration node its declared type, and reports a cast error exactly when the initialiser's preset type differs |
| Traversal.Enter | typeCheck.cc:256-314 | the entry actions keep the shape, only append diagnostics, grow the parameters and procedure table, count `procedures` nodes, and push a table only at `procedures` |
| Traversal.Traverse | typeCheck.cc:254-404 | the walk keeps the tree's shape; diagnostics, parameters, procedure names and the count only accumulate; a single table is kept once a procedure was entered; the stack is non-empty from the first `procedures` node on |
| Traversal.TraverseChildren | typeCheck.cc:316-403 | the child loop preserves the same invariants over the remaining children |
| Traversal.VisitChild | typeCheck.cc:316-402 | one turn of the loop replaces child `i` by its walked version and leaves every other child untouched; the node's type is what the overrides give for the new children (an argument list keeps its own); the checker state is the one the child's walk left, except that exactly the checks' messages are appended to its diagnostics |
| Traversal.AfterChild | typeCheck.cc:318-401 | after a child, the child is replaced by its walked version and nothing else changes among the children; the node's type is what the overrides give for the node with the new children, so an argument list keeps its type; the rest of the checker state is unchanged; exactly the checks' messages are appended, in order and without index |
| Traversal.AfterChildFollowsRules | typeCheck.cc:318-401 | where the node's production has a type rule and its operands are typed, the step after a child appends a diagnostic exactly when the rule rejects, at most one, and gives the node the rule's type |
| Traversal.TraverseSettles | typeCheck.cc:316-403 | after the walk, a node with children carries the type the overrides give for its final children |
| Pipeline.StartSink | typeCheck.cc:449-453 | a first rule other than `start` is reported as the only diagnostic so far; otherwise the sink is empty |
| Pipeline.Run | typeCheck.cc:436-463 | one printed line per node of the rebuilt tree; the first-line and builder diagnostics come first; a wrong first rule is the first diagnostic, and for a nonterminal first rule the printout is the root line alone |
| Pipeline.BadStartChildless | typeCheck.cc:453-456 | after a wrong first rule on a nonterminal line, the root is built with no children and no further diagnostic |
| Pipeline.RunRoundTrip | typeCheck.cc:454-461 | for well-formed input starting with `start`, the output with suffixes removed is the input |

## Left out

- Reading standard input and writing to standard output and standard
  error. The input arrives as lines already split on whitespace. The
  output is a list of lines and a list of diagnostics. The "ERROR: " and
  " Index: " formatting is not modelled; the index is kept as a value.
- `printTreeTest`, `SymbolTable::printContents` and
  `ProcedureTable::printTable`. These are debug printers, and they iterate
  hash maps in unspecified order.
- `returnTypeCheck` and the `exprCount` counter. Their only call is
  commented out.
- `buildTree`'s error for a cursor past the end (typeCheck.cc:157-158).
  Right after it, the code reads that line anyway, which is undefined
  behaviour. `Builder.Build` requires the cursor to be inside the input,
  so this branch is not modelled. The loop's own end-of-file check is
  modelled.
- Empty input (typeCheck.cc:449-450). The code reports it and then reads
  the first line anyway, which is undefined behaviour. `Pipeline.Run`
  requires at least one line.
- Out-of-range child accesses. The walk reads fixed child positions
  (typeCheck.cc:266, 274, 284, 291, 301 and the post-child checks). The
  base cases read the innermost table of the scope stack. These become
  preconditions instead of invented behaviour:
  - `Traversal.Shaped` requires the positions read to exist;
  - `Traversal.ScopeReady` requires that a table has been pushed before
    one is read.
- The "Invalid return type " report (typeCheck.cc:250). It is
  unreachable, because the condition on line 249 is always true; the
  model has no such branch.
- Traversal.Traverse: the walk never reports a message as "exactly one"
  time. The checks run after every child, so repeats are real. The exact
  messages of each step after a child are stated by
  `Traversal.VisitChild` and `Traversal.AfterChild` (through
  `Rules.PostChecks`); for the whole walk they are stated only as growth
  of the sink.
- Traversal.Traverse: the procedure count is an unbounded natural. The
  source's `int` would overflow only after more than 2^31 `procedures`
  nodes.
- Pipeline.RunRoundTrip: covers input without colons. A lexeme ending
  in " : int" could not be told apart from a type suffix.
