/**
 * FunctionLevelAnalyzer (analyze.py:190-241): for every function definition it meets, build
 * the candidates with a fresh ExpressionVisitor, merge them, then resolve every canonical
 * ReferenceNode with a fresh ReferenceResolver walking the same function.
 */
module Analyzer {
  import opened Wrappers
  import opened Syntax
  import opened Graph
  import opened Traverser
  import opened Visitor
  import opened Merger
  import opened Resolver
  import opened Linker
  import VisitFacts

  /** The state of a new ExpressionVisitor. */
  const Start := VState(map[], false)

  /** The candidates a fresh ExpressionVisitor collects from `fn`, or the exception it stops with. */
  ghost function CandidatesOf(fn: Tree): Result<Candidates, Error> {
    match Collect(Start, fn)
    case Ok(v) => Ok(v.st.nodes)
    case Err(e) => Err(e)
  }

  /** The traversal of `fn` succeeds and no key mixes classes. */
  ghost predicate Mergeable(fn: Tree) {
    var c := CandidatesOf(fn);
    c.Ok? && forall k :: k in c.value ==> c.value[k] != [] && Homogeneous(c.value[k])
  }

  /** The merged graph of `fn`. */
  ghost function MergedOf(fn: Tree): Merged
    requires Mergeable(fn)
  {
    MergedGraph(CandidatesOf(fn).value)
  }

  /** The analysis of `fn` runs to the end. */
  ghost predicate Analysable(fn: Tree) {
    Mergeable(fn) && Resolvable(MergedOf(fn), fn)
  }

  /** The graph the analysis of `fn` builds when it runs to the end. */
  ghost function GraphOf(fn: Tree): Merged
    requires Analysable(fn)
  {
    Linked(MergedOf(fn), fn)
  }

  /** The exceptions the analysis of `fn` may stop with, each with its cause. */
  ghost predicate FailsWith(fn: Tree, e: Error) {
    var c := CandidatesOf(fn);
    (c.Err? && e == c.error) ||
    (c.Ok? && e.HeterogeneousMerge? && e.key in c.value && c.value[e.key] != [] && !Homogeneous(c.value[e.key])) ||
    (Mergeable(fn) && UnresolvedWith(MergedOf(fn), fn, e))
  }

  /** A fresh ExpressionVisitor visits `fn`; what it collects is well-formed, so no list is empty. */
  method CollectCandidates(fn: Tree) returns (r: Result<Candidates, Error>)
    requires fn.FunctionDef?
    ensures r == CandidatesOf(fn)
    ensures r.Ok? ==> forall k :: k in r.value ==> r.value[k] != []
  {
    var analyzer := new ExpressionVisitor();
    var visited := analyzer.Visit(fn);
    if visited.Err? {
      return Err(visited.error);
    }
    VisitFacts.TraversalWellFormed(fn);
    return Ok(analyzer.nodes);
  }

  /**
   * `visit_FunctionDef` of FunctionLevelAnalyzer for the function `fn`, returning the graph it
   * would draw: the candidates of a fresh ExpressionVisitor, merged, then every reference resolved.
   */
  method AnalyzeFunction(fn: Tree) returns (r: Result<Merged, Error>)
    requires fn.FunctionDef?
    ensures r.Ok? <==> Analysable(fn)
    ensures r.Ok? ==> r.value == GraphOf(fn)
    ensures r.Err? ==> FailsWith(fn, r.error)
  {
    var candidates := CollectCandidates(fn);
    if candidates.Err? {
      return Err(candidates.error);
    }
    var merged := MergeNodes(candidates.value);
    if merged.Err? {
      return Err(merged.error);
    }
    r := ResolveAll(fn, merged.value);
  }

  /**
   * The function definitions FunctionLevelAnalyzer meets when it visits `t`: it has no method
   * but `visit_FunctionDef`, so it walks everything else with `generic_visit` (modules, class
   * bodies, `if` blocks) and does not enter a function it analyses.
   */
  function Functions(t: Tree): (fs: seq<Tree>)
    ensures forall i :: 0 <= i < |fs| ==> fs[i].FunctionDef?
    decreases t, 1
  {
    if t.FunctionDef? then [t] else FunctionsAll(Children(t), t)
  }

  function FunctionsAll(ts: seq<Tree>, ghost parent: Tree): (fs: seq<Tree>)
    requires Below(ts, parent)
    ensures forall i :: 0 <= i < |fs| ==> fs[i].FunctionDef?
    decreases parent, 0, |ts|
  {
    if ts == [] then [] else FunctionsAll(ts[..|ts| - 1], parent) + Functions(ts[|ts| - 1])
  }

  /** `p` holds of the pairs of `xs` and `ys`, taken in order; the two have the same length. */
  ghost predicate Pairwise<A, B>(xs: seq<A>, ys: seq<B>, p: (A, B) -> bool) {
    |xs| == |ys| && forall i :: 0 <= i < |xs| ==> p(xs[i], ys[i])
  }

  /** `p` holds of some element of `xs`, and `ok` of every element before it. */
  ghost predicate FirstOf<A>(xs: seq<A>, ok: A -> bool, p: A -> bool) {
    exists i :: 0 <= i < |xs| && p(xs[i]) && forall j :: 0 <= j < i ==> ok(xs[j])
  }

  /** `fn` can be analysed and `g` is its graph. */
  ghost predicate AnalysedAs(fn: Tree, g: Merged) {
    Analysable(fn) && g == GraphOf(fn)
  }

  /** The test that the analysis of a function fails with `e`. */
  ghost function FailingWith(e: Error): Tree -> bool {
    fn => FailsWith(fn, e)
  }

  /**
   * FunctionLevelAnalyzer's visit of a whole tree (a module): every function definition met
   * is analysed in walk order, and `gs` holds their graphs; the first failure ends the run,
   * as the exception ends `main`: its exception is that of a function met after only
   * analysable ones.
   */
  method Analyze(t: Tree) returns (r: Result<seq<Merged>, Error>)
    ensures r.Ok? ==> Pairwise(Functions(t), r.value, AnalysedAs)
    ensures r.Err? ==> FirstOf(Functions(t), Analysable, FailingWith(r.error))
    decreases t, 1
  {
    if t.FunctionDef? {
      r := AnalyzeFunctionDef(t);
      return;
    }
    var children := Children(t);
    var graphs: seq<Merged> := [];
    var i := 0;
    while i < |children|
      invariant 0 <= i <= |children|
      invariant Pairwise(FunctionsAll(children[..i], t), graphs, AnalysedAs)
    {
      var gs := Analyze(children[i]);
      if gs.Err? {
        FailureSpreads(children, t, i, graphs, gs.error);
        return Err(gs.error);
      }
      GraphsGrow(children, t, i, graphs, gs.value);
      graphs := graphs + gs.value;
      i := i + 1;
    }
    assert children[..i] == children;
    return Ok(graphs);
  }

  /** The graphs of the functions in the first `i` children, extended by those of child `i`. */
  lemma GraphsGrow(ts: seq<Tree>, parent: Tree, i: nat, gs: seq<Merged>, more: seq<Merged>)
    requires Below(ts, parent) && i < |ts|
    requires Pairwise(FunctionsAll(ts[..i], parent), gs, AnalysedAs)
    requires Pairwise(Functions(ts[i]), more, AnalysedAs)
    ensures Pairwise(FunctionsAll(ts[..i + 1], parent), gs + more, AnalysedAs)
  {
    FunctionsPrefix(ts, parent, i);
    PairwiseAppend(FunctionsAll(ts[..i], parent), gs, Functions(ts[i]), more, AnalysedAs);
  }

  /**
   * A first failure in child `i`, after the children before it were analysed, is the first
   * failure among the functions of all children.
   */
  lemma FailureSpreads(ts: seq<Tree>, parent: Tree, i: nat, gs: seq<Merged>, e: Error)
    requires Below(ts, parent) && i < |ts|
    requires Pairwise(FunctionsAll(ts[..i], parent), gs, AnalysedAs)
    requires FirstOf(Functions(ts[i]), Analysable, FailingWith(e))
    ensures FirstOf(FunctionsAll(ts, parent), Analysable, FailingWith(e))
  {
    var before := FunctionsAll(ts[..i], parent);
    forall j | 0 <= j < |before| ensures Analysable(before[j]) {
      assert AnalysedAs(before[j], gs[j]);
    }
    FunctionsPrefix(ts, parent, i);
    FirstAppend(before, Functions(ts[i]), Analysable, FailingWith(e));
    FirstPrefix(FunctionsAll(ts[..i + 1], parent), FunctionsAll(ts, parent), Analysable, FailingWith(e));
  }

  /** Analyze at a function definition: its one function is analysed. */
  method AnalyzeFunctionDef(t: Tree) returns (r: Result<seq<Merged>, Error>)
    requires t.FunctionDef?
    ensures r.Ok? ==> Pairwise(Functions(t), r.value, AnalysedAs)
    ensures r.Err? ==> FirstOf(Functions(t), Analysable, FailingWith(r.error))
  {
    var g := AnalyzeFunction(t);
    if g.Err? {
      assert FailingWith(g.error)(Functions(t)[0]);
      return Err(g.error);
    }
    assert AnalysedAs(Functions(t)[0], [g.value][0]);
    return Ok([g.value]);
  }

  lemma PairwiseAppend<A, B>(xs: seq<A>, ys: seq<B>, more: seq<A>, zs: seq<B>, p: (A, B) -> bool)
    requires Pairwise(xs, ys, p) && Pairwise(more, zs, p)
    ensures Pairwise(xs + more, ys + zs, p)
  {
    forall i | 0 <= i < |xs + more| ensures p((xs + more)[i], (ys + zs)[i]) {
      if i >= |xs| {
        assert (xs + more)[i] == more[i - |xs|] && (ys + zs)[i] == zs[i - |xs|];
      }
    }
  }

  lemma FirstAppend<A>(xs: seq<A>, more: seq<A>, ok: A -> bool, p: A -> bool)
    requires forall j :: 0 <= j < |xs| ==> ok(xs[j])
    requires FirstOf(more, ok, p)
    ensures FirstOf(xs + more, ok, p)
  {
    var i :| 0 <= i < |more| && p(more[i]) && forall j :: 0 <= j < i ==> ok(more[j]);
    assert (xs + more)[|xs| + i] == more[i];
    forall j | 0 <= j < |xs| + i ensures ok((xs + more)[j]) {
      if j >= |xs| {
        assert (xs + more)[j] == more[j - |xs|];
      }
    }
  }

  lemma FirstPrefix<A>(xs: seq<A>, ys: seq<A>, ok: A -> bool, p: A -> bool)
    requires FirstOf(xs, ok, p) && xs <= ys
    ensures FirstOf(ys, ok, p)
  {
    var i :| 0 <= i < |xs| && p(xs[i]) && forall j :: 0 <= j < i ==> ok(xs[j]);
    assert ys[i] == xs[i];
    forall j | 0 <= j < i ensures ok(ys[j]) {
      assert ys[j] == xs[j];
    }
  }

  /** The functions met in the children up to `i` come first among those of all children. */
  lemma {:induction false} FunctionsPrefix(ts: seq<Tree>, parent: Tree, i: nat)
    requires Below(ts, parent) && i < |ts|
    ensures FunctionsAll(ts[..i + 1], parent) == FunctionsAll(ts[..i], parent) + Functions(ts[i])
    ensures FunctionsAll(ts[..i + 1], parent) <= FunctionsAll(ts, parent)
    decreases |ts|
  {
    assert ts[..i + 1][..i] == ts[..i];
    if i + 1 < |ts| {
      var init := ts[..|ts| - 1];
      assert init[..i + 1] == ts[..i + 1] && init[..i] == ts[..i];
      FunctionsPrefix(init, parent, i);
    } else {
      assert ts[..i + 1] == ts;
    }
  }
}
