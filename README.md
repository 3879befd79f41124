# data-flow-graph, modelled in Dafny

The repository turns the syntax tree of every Python function into a data-flow graph. Each
evaluated construct becomes a graph node, and each node lists the nodes whose values it
needs. `FunctionLevelAnalyzer` does this for one function in three passes:

1. An `ExpressionVisitor` walks the function once. It appends *candidate* graph nodes to a
   multimap keyed by syntax node. On the way it records each candidate's dependencies: what
   the visits of its children returned.
2. `merge_nodes` turns every list of candidates into one canonical node, the first candidate,
   which gets the dependencies of all candidates. A list that mixes classes is refused.
   `simplify_dependencies` then removes duplicates from each dependency list.
3. For every canonical `ReferenceNode`, a fresh `ReferenceResolver` walks the function again
   from the top. It keeps a flat table from names to the parameter or Store name that last
   bound them, and stops at the reference's own Load. The reference then points at the
   canonical node of that writer, or at nothing.

`Scope.py` holds a separate scope chain that `analyze.py` does not use. Each scope has a name
table and a parent link. A lookup walks up to the nearest table that has the name, and a new
name is written into one scope only.

## Modules

| file | module | contents |
|---|---|---|
| wrappers.dfy | Wrappers | `Option` and `Result` |
| syntax.dfy | Syntax | the Python syntax tree as a datatype; the child order of `ast.iter_child_nodes` |
| graph.dfy | Graph | graph nodes, candidate references `Ref(key, index)`, the multimap, the exceptions |
| traverser.dfy | Traverser | what every `visit_*` method of ExpressionVisitor does, as functions of the visitor's fields; the lemmas that the multimap stays well-formed |
| visit_facts.dfy | VisitFacts | what each visit leaves for its own node: class and dependencies, in order |
| visitor.dfy | Visitor | the class `ExpressionVisitor`, whose methods update its fields in place and are proved to agree with the functions of Traverser |
| merger.dfy | Merger | `merge_nodes` and `simplify_dependencies` |
| resolver.dfy | Resolver | `ReferenceResolver` as a class, and its walk as a list of bind and read events |
| linker.dfy | Linker | `resolve_reference` and the loop over all references |
| analyzer.dfy | Analyzer | `FunctionLevelAnalyzer.visit_FunctionDef`, and the analyzer's visit of a whole module |
| scope.dfy | Scopes | `Scope` and its `Node` record, with the scopes held in an arena |

Syntax nodes are told apart by a unique `id`, which stands for Python's object identity: the
multimap and the resolver's target comparison both use it. A graph edge is an
`Option<Ref>`. `None` is a visit that returned nothing, for example the visit of a comparison
operator. `Ref(key, i)` is the `i`-th candidate of the syntax node `key`. After the merge, a
`Ref(key, 0)` names the canonical node of `key`. An edge to a later candidate names an object
that is no longer in the merged graph, as in the source. `visit_AugAssign` makes such an edge:
it stores its target and then visits it, so its second edge names the target's later candidate
(`VisitFacts.AugAssignTargetEdge`). `visit_While`, `visit_If` and `visit_For` visit their test twice,
so the test's key gets a second candidate (`VisitFacts.TestedVisitsHeaderTwice`).

The code as written differs from what one might expect in three ways:
- The resolver uses one flat table for the whole function, not one table per scope.
- The resolver walks in field order, not text order. An assignment lists its targets before
  its value, so in `x = x + 1` the read of `x` resolves to the assignment's own target
  (`Resolver.SelfAssignmentReadsItsTarget`).
- Resolution can abort the analysis. A callee that is not a plain name raises an error. So
  does a writer that has no graph node: a `*args` parameter, or a Store in a nested function.

## Model

| member | source | states |
|---|---|---|
| Syntax.Children | analyze.py:143-148 | the children `generic_visit` walks, in field order, each smaller than the node |
| Traverser.Push | analyze.py:21-24 | appending a candidate puts it at the end of its node's list (the index is the old length); every other list and every earlier candidate is unchanged |
| Traverser.AddDeps | analyze.py:29-30 | `depends_on` of one candidate grows by the given edges; no other candidate changes and no list changes length |
| Traverser.Collect | analyze.py:15-148 | every visit only appends to the multimap and never resets the function flag; it returns a candidate under the visited node's own key exactly when the node's class makes one |
| Traverser.CollectAll | analyze.py:59 | visiting a list grows the state and answers each element, in order |
| Traverser.CollectGeneric | analyze.py:143-148 | `generic_visit` of a node without a method grows the state and returns None |
| Traverser.CollectFunctionDef | analyze.py:137-141 | the visit of a function definition only grows the state and returns None |
| Traverser.CollectArguments | analyze.py:69-72 | the visit of the parameter list only grows the state and returns None |
| Traverser.CollectArg | analyze.py:74-77 | a parameter's visit only grows the state and returns a candidate under the parameter's own key (its class is stated by `VisitFacts.VisitShape`) |
| Traverser.AssignValue | analyze.py:26-31 | a non-tuple target gets a new candidate under its own key and nothing outside that key changes |
| Traverser.AssignTargets | analyze.py:37-38 | storing all targets changes only the targets' keys |
| Traverser.Head | analyze.py:34-36 | the shared opening: a new Node for the statement, then the child's visit, whose answer is recorded |
| Traverser.CollectAssign | analyze.py:33-39 | an assignment returns a candidate of its own and only grows the state |
| Traverser.CollectAugAssign | analyze.py:41-48 | an augmented assignment returns a candidate of its own and only grows the state |
| Traverser.AugAssignTail | analyze.py:45-48 | after the target is stored and visited, the statement's own node is returned and the state has only grown |
| Traverser.AugAssignTarget | analyze.py:46-48 | after the target's visit, the statement's own node is returned and the state has only grown |
| Traverser.CollectBinOp | analyze.py:50-55 | a binary operation returns a candidate of its own |
| Traverser.CollectBoolOp | analyze.py:57-61 | a boolean operation returns a candidate of its own |
| Traverser.CollectCompare | analyze.py:63-67 | a comparison returns a candidate of its own |
| Traverser.CollectCall | analyze.py:79-88 | a call's visit only grows the state and returns a candidate under the call's own key (its class and edges are stated by `VisitFacts.CallShape` and `VisitFacts.CallCallee`) |
| Traverser.CollectReturn | analyze.py:90-94 | a `return` with a value returns a candidate of its own |
| Traverser.CollectName | analyze.py:96-104 | a Load or Store name returns a candidate of its own |
| Traverser.CollectConstant | analyze.py:106-109 | a constant's visit only grows the state and returns a candidate under the constant's own key (its class and literal are stated by `VisitFacts.VisitShape`) |
| Traverser.CollectNum | analyze.py:111-114 | a number's visit only grows the state and returns a candidate under the number's own key (its class and value are stated by `VisitFacts.VisitShape`) |
| Traverser.CollectTested | analyze.py:116-135 | `while`, `if` and `for` return a candidate of their own and only grow the state |
| Traverser.CollectKeeps | analyze.py:15-148 | every successful visit keeps the multimap well-formed: no empty list, every candidate under its own node's key, every edge and callee naming an existing candidate; every earlier candidate is left unchanged; once inside the function, only keys in the visited node's own part of the tree change |
| Traverser.FunctionDefKeeps | analyze.py:137-141 | entering the function keeps well-formedness and leaves earlier candidates unchanged |
| Traverser.ValidRefsKept | analyze.py:23 | appending keeps every reference to an existing candidate valid |
| VisitFacts.VisitShape | analyze.py:21-135 | the candidate a visit returns is new, belongs to the visited node, has its node's class (ArgumentNode, ReferenceNode for a Load, ConstantNode with the literal, CallNode, otherwise Node), and its dependencies are, in order, the visits of the children the method reads |
| VisitFacts.HeadShape | analyze.py:34-36 | after the shared opening, the statement's Node depends on its one child's visit alone |
| VisitFacts.AssignShape | analyze.py:33-39 | an assignment's node depends on the value's visit alone |
| VisitFacts.AugAssignShape | analyze.py:41-48 | an augmented assignment's node depends on the value's visit, then on the target's visit |
| VisitFacts.AugAssignTargetEdge | analyze.py:41-48 | for a Name target, the target's key gets the stored Node at the next index `k`, depending on the value, then the fresh candidate of the target's visit at `k + 1`; the statement's edges are the value's and exactly `Ref(target, k + 1)`, never the candidate the merge keeps |
| VisitFacts.BinOpShape | analyze.py:50-55 | a binary operation depends on the left operand's visit, then on the right operand's |
| VisitFacts.BoolOpShape | analyze.py:57-61 | a boolean operation depends on each operand's visit, in order |
| VisitFacts.CompareShape | analyze.py:63-67 | a comparison has one None dependency per operator |
| VisitFacts.CallShape | analyze.py:79-88 | a call depends on each positional argument's visit, then each keyword's |
| VisitFacts.CallArgumentsShape | analyze.py:85-86 | the arguments and keywords are visited in order, and the call depends on each result |
| VisitFacts.CallCallee | analyze.py:80-83 | the callee gets a ReferenceNode with no dependencies and is not visited; the CallNode points at exactly that candidate |
| VisitFacts.ReturnShape | analyze.py:90-94 | a `return` depends on its value's visit alone |
| VisitFacts.TestedShape | analyze.py:116-135 | the second walk of a loop's or branch's children leaves the loop's own candidate as it was |
| VisitFacts.TestedNode | analyze.py:116-135 | a `while`, `if` or `for` node depends on its test or iterable alone |
| VisitFacts.TestedVisitsHeaderTwice | analyze.py:116-135 | the test or iterable is visited twice: its key ends with a candidate after the one the statement depends on |
| VisitFacts.CollectAllRevisits | analyze.py:143-148 | visiting a list gives each element that makes a candidate one more candidate under its key |
| VisitFacts.AnswersRead | analyze.py:59 | a list visit's results are the reads of its elements, in order |
| VisitFacts.AssignTargetsFail | analyze.py:27-28 | storing the targets fails exactly when one of them is a tuple, naming the first tuple |
| VisitFacts.AssignValueStores | analyze.py:29-31 | a scalar target gets a Node for itself that depends on the value alone, and no earlier candidate changes |
| VisitFacts.AssignTargetsStore | analyze.py:37-38 | every target of a successful assignment has a Node that depends on the value alone |
| VisitFacts.AssignOutcome | analyze.py:33-39 | once the value's visit succeeds, an assignment fails exactly when a target is a tuple, naming the first one; otherwise every target is stored |
| VisitFacts.DeleteAborts | analyze.py:102-103 | a Name in a `del` statement aborts the analysis |
| VisitFacts.NestedFunctionSkipped | analyze.py:138-139 | a function definition met after the first is skipped: nothing is added and None is returned |
| VisitFacts.CompareTouchesItselfOnly | analyze.py:63-67 | a comparison always succeeds and changes only its own key; the operands get no candidates |
| VisitFacts.TraversalWellFormed | analyze.py:224-225 | a fresh visitor's walk of a function leaves a well-formed multimap and the flag set |
| Visitor.ExpressionVisitor.constructor | analyze.py:17-19 | the multimap is empty and the flag unset |
| Visitor.ExpressionVisitor.Register | analyze.py:76 | `self.nodes[n].append(c)` changes the fields as `Push` says |
| Visitor.ExpressionVisitor.MkNode | analyze.py:21-24 | `mk_node` adds a fresh Node for the given syntax node |
| Visitor.ExpressionVisitor.Link | analyze.py:36 | appending to a candidate's `depends_on` changes the fields as `AddDeps` says |
| Visitor.ExpressionVisitor.AssignValue | analyze.py:26-31 | `assign_value` in place agrees with `Traverser.AssignValue`, tuple error included |
| Visitor.ExpressionVisitor.Visit | analyze.py:15-148 | `visit` in place leaves the fields and returns the value that `Traverser.Collect` gives, or the same exception |
| Visitor.ExpressionVisitor.VisitStatement | analyze.py:33-141 | dispatch for statements, agreeing with `Collect` |
| Visitor.ExpressionVisitor.VisitExpression | analyze.py:50-114 | dispatch for expressions, agreeing with `Collect` |
| Visitor.ExpressionVisitor.VisitRest | analyze.py:69-77 | dispatch for parameters, tuples and other classes, agreeing with `Collect` |
| Visitor.ExpressionVisitor.VisitOther | analyze.py:143-148 | a node without a method is walked by `generic_visit`, agreeing with `CollectGeneric` |
| Visitor.ExpressionVisitor.GenericVisit | analyze.py:143-148 | `generic_visit` in place agrees with `CollectAll` over the children |
| Visitor.ExpressionVisitor.VisitAll | analyze.py:59 | the loop over a list agrees with `CollectAll`, results included |
| Visitor.ExpressionVisitor.VisitFunctionDef | analyze.py:137-141 | agrees with `CollectFunctionDef` |
| Visitor.ExpressionVisitor.VisitArguments | analyze.py:69-72 | agrees with `CollectArguments` |
| Visitor.ExpressionVisitor.VisitArg | analyze.py:74-77 | agrees with `CollectArg` |
| Visitor.ExpressionVisitor.VisitAssign | analyze.py:33-39 | the loop over the targets agrees with `CollectAssign` |
| Visitor.ExpressionVisitor.VisitAugAssign | analyze.py:41-48 | agrees with `CollectAugAssign` |
| Visitor.ExpressionVisitor.VisitBinOp | analyze.py:50-55 | agrees with `CollectBinOp` |
| Visitor.ExpressionVisitor.VisitBoolOp | analyze.py:57-61 | agrees with `CollectBoolOp` |
| Visitor.ExpressionVisitor.VisitCompare | analyze.py:63-67 | the loop over the operators agrees with `CollectCompare` |
| Visitor.ExpressionVisitor.VisitCall | analyze.py:79-88 | agrees with `CollectCall` |
| Visitor.ExpressionVisitor.VisitReturn | analyze.py:90-94 | agrees with `CollectReturn`; a bare `return` fails after the node is added |
| Visitor.ExpressionVisitor.VisitName | analyze.py:96-104 | agrees with `CollectName`, the `del` error included |
| Visitor.ExpressionVisitor.VisitConstant | analyze.py:106-109 | agrees with `CollectConstant` |
| Visitor.ExpressionVisitor.VisitNum | analyze.py:111-114 | agrees with `CollectNum` |
| Visitor.ExpressionVisitor.VisitTested | analyze.py:116-135 | agrees with `CollectTested` |
| Merger.ConcatDeps | analyze.py:203-204 | an edge is in the concatenation exactly when it is in some candidate's list |
| Merger.Dedup | analyze.py:220 | `list(set(deps))` has no duplicates, the same elements, and is no longer |
| Merger.Simplify | analyze.py:216-221 | simplifying keeps class and syntax node, removes every duplicate edge and keeps the same set of edges |
| Merger.MergeCandidates | analyze.py:197-207 | one key's merge succeeds exactly when its candidates agree in syntax node and class; it yields the first candidate holding every candidate's edges in order, and otherwise fails naming the key |
| Merger.MergedGraph | analyze.py:209-212 | the merged graph has exactly the keys of the multimap |
| Merger.MergeNodes | analyze.py:192-214 | the merge succeeds exactly when no key mixes classes, and then yields the simplified canonical node of every key; an error names a key that mixes them |
| Merger.SingleCandidate | analyze.py:197-198 | a key with one candidate keeps that candidate |
| Merger.CanonicalOfMany | analyze.py:200-205 | one more candidate appends its edges to the canonical node and changes nothing else |
| Merger.MergedDependencies | analyze.py:209-221 | a merged node's edges are exactly those of all its candidates, each once |
| Merger.DedupIdempotent | analyze.py:216-221 | removing duplicates a second time changes nothing |
| Merger.DedupKeepsDistinct | analyze.py:220 | a list without duplicates is kept as it is |
| Merger.SimplifyIdempotent | analyze.py:216-221 | simplifying twice is simplifying once |
| Merger.MergeIdempotent | analyze.py:192-221 | merging the merged graph again, one candidate per key, gives the same graph |
| Resolver.LastWriter | analyze.py:158-163 | there is a last writer of a name exactly when some event binds it |
| Resolver.RunConcat | analyze.py:170-173 | walking two stretches one after the other is walking both together |
| Resolver.RunHalted | analyze.py:170-172 | once the resolution has stopped, the rest of the walk changes nothing |
| Resolver.RunUnread | analyze.py:158-168 | until the target is read, the walk goes on, nothing is resolved, and the table holds the last writer of every name |
| Resolver.Resolves | analyze.py:164-168 | at the first read of the target, the walk stops with the last writer of the name before it, or None; whatever follows changes nothing |
| Resolver.NeverRead | analyze.py:165-167 | a walk that never meets the target resolves nothing and raises nothing |
| Resolver.SelfAssignmentReadsItsTarget | analyze.py:161-168 | in `def f(x): x = x + 1`, the read of `x` resolves to the assignment's target and not to the parameter |
| Resolver.ReferenceResolver.constructor | analyze.py:152-156 | empty table, nothing resolved, resolution on |
| Resolver.ReferenceResolver.Visit | analyze.py:170-173 | the walk of a subtree in place changes the fields as folding its events does; once stopped, nothing changes |
| Resolver.ReferenceResolver.VisitArg | analyze.py:158-159 | a parameter binds its name |
| Resolver.ReferenceResolver.VisitName | analyze.py:161-168 | a Store binds its name; the target Load takes the name's entry, or None, and stops the walk |
| Resolver.ReferenceResolver.GenericVisit | analyze.py:170-173 | the loop over the children folds their events in order |
| Linker.Referenced | analyze.py:233-241 | a successful resolution is of a Name reference, and its writer, if any, is a key of the graph |
| Linker.ResolveReference | analyze.py:233-241 | a non-Name reference raises; otherwise the reference points at the resolver's writer, and a writer without a graph node raises |
| Linker.Linked | analyze.py:227-229 | resolving all references keeps the keys of the graph |
| Linker.ResolveAll | analyze.py:227-229 | the loop succeeds exactly when every reference resolves, and yields the graph with all of them resolved; an error is that of some reference |
| Analyzer.CollectCandidates | analyze.py:224-225 | a fresh visitor's walk yields the candidates the traversal describes, with no empty list |
| Analyzer.AnalyzeFunction | analyze.py:223-231 | one function's analysis succeeds exactly when the walk succeeds, no key mixes classes and every reference resolves, and then yields the linked merged graph; each error has one of these causes |
| Analyzer.AnalyzeFunctionDef | analyze.py:223-231 | at a function definition, the analysis is that of the function alone |
| Analyzer.Functions | analyze.py:223-231 | every element of the list of functions met in a module is a function definition |
| Analyzer.Analyze | analyze.py:190-231 | a module's analysis yields, in walk order, the graph of every function it meets; a failure is that of a function met after only analysable ones, so the first failure ends the run |
| Scopes.Chain | Scope.py:15-17 | the chain starts at the scope and climbs to smaller indices |
| Scopes.Resolve | Scope.py:15-21 | a found entry carries the name looked up; the only error is "name not resolved" |
| Scopes.WithName | Scope.py:26-27 | adding a name keeps the arena well ordered and of the same size |
| Scopes.ScopeArena.constructor | Scope.py:10-13 | no scopes yet |
| Scopes.ScopeArena.NewScope | Scope.py:10-13 | a new scope has the given parent and an empty table; the others are unchanged |
| Scopes.ScopeArena.CreateScope | Scope.py:23-24 | the child has an empty table and the receiver as parent; the others are unchanged |
| Scopes.ScopeArena.AddName | Scope.py:26-27 | only the receiver's entry for the name changes, to a record with that name and syntax node |
| Scopes.ScopeArena.ResolveName | Scope.py:15-21 | the loop up the parent links returns what `Resolve` gives, error included |
| Scopes.ResolveNearest | Scope.py:15-21 | the lookup returns the entry of the first scope in the chain whose table has the name |
| Scopes.ResolveFails | Scope.py:18-20 | the lookup fails exactly when no scope in the chain has the name |
| Scopes.AddedIsFound | Scope.py:26-27 | after `add_name`, a lookup from that scope finds the new record |
| Scopes.AddedElsewhere | Scope.py:26-27 | adding a name changes no lookup from a scope whose chain does not pass the receiver |
| Scopes.AddedOtherName | Scope.py:26-27 | adding a name changes no lookup of any other name |
| Scopes.NewScopeKeeps | Scope.py:23-24 | creating a scope changes no lookup from the existing ones |
| Scopes.CreatedDefers | Scope.py:23-24 | a new child resolves every name as its parent does |
| Scopes.Shadowing | Scope.py:15-27 | after a child adds a name, the child's lookup finds the child's entry and the parent's lookup finds what it found before |

## Left out

- `visualize_graph` (analyze.py:176-187) draws with networkx. `visit_FunctionDef` calls it; the model returns the graph instead.
- `main` (analyze.py:244-250) lists a directory, reads files and parses them. The syntax tree is an input datatype, and `Analyzer.Analyze` stands for `analyzer.visit` of one parsed module.
- The `print` diagnostics (analyze.py:147, 166, 239) carry no semantics and are not modelled.
- Node.py is not part of this model. A candidate starts with no dependencies and gets only what analyze.py appends. A `depends_on` of None is not modelled; the model's lists start empty, and nothing distinguishes the two. The model also takes `CallNode` and `ArgumentNode` not to be subclasses of `ReferenceNode`, so `isinstance(it, ReferenceNode)` (analyze.py:227) selects only the ReferenceNode class.
- Scopes.NameNode: the `in_edges` and `out_edges` lists of the `Node` record are always empty, and nothing in Scope.py uses them.
- Merger.Dedup: Python fixes no order for the list a set yields. The model keeps first occurrences, and the contracts speak only of the elements and of no duplicates.
- Merger.MergeNodes: the order of the keys is left open, so the reported key is *a* key that mixes classes, not the first in dictionary order.
- Merger.MergeNodes: the branch for an empty candidate list (analyze.py:195-196) cannot be reached, since the multimap is only appended to. The method requires non-empty lists, and `VisitFacts.TraversalWellFormed` proves that its caller meets this.
- Linker.ResolveAll: the references are resolved in an order the model leaves open, in place of the order of `nodes.values()`, so the reported error is that of *some* failing reference.
- Visitor.ExpressionVisitor.Visit: after an exception, the state of the visitor is not specified. The exception ends the analysis, and nothing reads that state.
- `raise NotImplemented(...)` (analyze.py:28) actually raises a TypeError. Either way the analysis aborts, which is modelled as `UnsupportedTarget`.
- Syntax.Num: `n` is an integer. `visit_Num` (analyze.py:111-114) also gets float and complex numbers, which the model cannot represent; their node is a ConstantNode all the same.
- Syntax: operator and context objects are enumerations, not tree nodes. Neither visitor does anything with them, except the per-operator visit of `visit_Compare`, which returns None.
- Concurrency, I/O and the rest of the `ast` module are outside the model.
