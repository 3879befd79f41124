/**
 * The second half of FunctionLevelAnalyzer.visit_FunctionDef (analyze.py:227-241): every
 * canonical ReferenceNode of the merged graph is pointed at the canonical node of the syntax
 * node that last wrote its name, as a fresh ReferenceResolver finds it.
 */
module Linker {
  import opened Wrappers
  import opened Syntax
  import opened Graph
  import opened Merger
  import opened Resolver

  /** What `ReferenceNode.referenced_node` of the node under `key` becomes: the canonical node of the writer. */
  function Referenced(key: NodeId, scope: Tree, nodes: Merged): (r: Result<Option<NodeId>, Error>)
    requires key in nodes
    ensures r.Ok? ==> nodes[key].astNode.Name? && (r.value.Some? ==> r.value.value in nodes)
  {
    var reference := nodes[key].astNode;
    if !reference.Name? then Err(NonNameReference(key))
    else
      var writer := Resolution(reference.id, scope);
      if writer.Some? && writer.value !in nodes then Err(UnknownNode(writer.value))
      else Ok(writer)
  }

  /**
   * `resolve_reference`: a non-Name reference (the callee of `f.g()`, say) is refused; otherwise
   * the resolver walks `scope` from the top, and the reference points at the writer's
   * canonical node, or at nothing. Indexing `nodes` by a writer that has no graph node
   * (a `*args` parameter, a Store in a nested function) fails.
   */
  method ResolveReference(key: NodeId, scope: Tree, nodes: Merged) returns (r: Result<Merged, Error>)
    requires key in nodes
    ensures !nodes[key].astNode.Name? ==> r == Err(NonNameReference(key))
    ensures nodes[key].astNode.Name? ==>
              var writer := Resolution(nodes[key].astNode.id, scope);
              if writer.Some? && writer.value !in nodes then r == Err(UnknownNode(writer.value))
              else r == Ok(nodes[key := nodes[key].(kind := ReferenceNode(writer))])
    ensures r.Ok? <==> Referenced(key, scope, nodes).Ok?
    ensures r.Ok? ==> r.value == nodes[key := nodes[key].(kind := ReferenceNode(Referenced(key, scope, nodes).value))]
    ensures r.Err? ==> r.error == Referenced(key, scope, nodes).error
  {
    var reference := nodes[key];
    if !reference.astNode.Name? {
      return Err(NonNameReference(key));
    }
    var resolver := new ReferenceResolver(reference.astNode.id);
    resolver.Visit(scope);
    var resolved := resolver.resolvedNode;
    if resolved.Some? && resolved.value !in nodes {
      return Err(UnknownNode(resolved.value));
    }
    return Ok(nodes[key := reference.(kind := ReferenceNode(resolved))]);
  }

  /** The merged graph after every reference has been resolved. */
  function Linked(merged: Merged, scope: Tree): (g: Merged)
    ensures g.Keys == merged.Keys
  {
    map k | k in merged :: if merged[k].kind.ReferenceNode? && Referenced(k, scope, merged).Ok?
                           then merged[k].(kind := ReferenceNode(Referenced(k, scope, merged).value))
                           else merged[k]
  }

  /** Keys whose graph node is a ReferenceNode: the list `references` of analyze.py:227. */
  function References(nodes: Merged): set<NodeId> {
    set k | k in nodes && nodes[k].kind.ReferenceNode?
  }

  /** Every reference of `merged` can be resolved. */
  ghost predicate Resolvable(merged: Merged, scope: Tree) {
    forall k :: k in References(merged) ==> Referenced(k, scope, merged).Ok?
  }

  /** A reference of `merged` whose resolution fails with `e`. */
  ghost predicate UnresolvedWith(merged: Merged, scope: Tree, e: Error) {
    exists k :: k in References(merged) && Referenced(k, scope, merged) == Err(e)
  }

  /** The graph part way through the loop: the keys of `pending` are still to be resolved. */
  function Pending(base: Merged, scope: Tree, pending: set<NodeId>): (m: Merged)
    ensures m.Keys == base.Keys
  {
    map k | k in base :: if k in pending then base[k] else Linked(base, scope)[k]
  }

  /** The loop of analyze.py:227-229: every reference of `base` is resolved, in some order. */
  method ResolveAll(scope: Tree, base: Merged) returns (r: Result<Merged, Error>)
    ensures r.Ok? <==> Resolvable(base, scope)
    ensures r.Ok? ==> r.value == Linked(base, scope)
    ensures r.Err? ==> UnresolvedWith(base, scope, r.error)
  {
    var nodes := base;
    var references := References(base);
    PendingAll(base, scope);
    while references != {}
      invariant references <= References(base)
      invariant nodes == Pending(base, scope, references)
      invariant forall k :: k in References(base) - references ==> Referenced(k, scope, base).Ok?
      decreases |references|
    {
      var k :| k in references;
      PendingAt(base, scope, references, k);
      ReferencedFrame(k, scope, nodes, base);
      var resolved := ResolveReference(k, scope, nodes);
      if resolved.Err? {
        assert Referenced(k, scope, base) == Err(resolved.error);
        return Err(resolved.error);
      }
      PendingStep(base, scope, references, k);
      nodes := resolved.value;
      references := references - {k};
    }
    PendingNone(base, scope);
    return Ok(nodes);
  }

  /** The resolution of `key` looks at no other node than its own, only at which keys exist. */
  lemma ReferencedFrame(key: NodeId, scope: Tree, a: Merged, b: Merged)
    requires a.Keys == b.Keys && key in a && a[key] == b[key]
    ensures Referenced(key, scope, a) == Referenced(key, scope, b)
  {
  }

  lemma PendingAll(base: Merged, scope: Tree)
    ensures Pending(base, scope, References(base)) == base
  {
  }

  lemma PendingAt(base: Merged, scope: Tree, pending: set<NodeId>, k: NodeId)
    requires k in pending && pending <= References(base)
    ensures k in base && Pending(base, scope, pending)[k] == base[k]
  {
  }

  lemma PendingNone(base: Merged, scope: Tree)
    ensures Pending(base, scope, {}) == Linked(base, scope)
  {
  }

  lemma PendingStep(base: Merged, scope: Tree, pending: set<NodeId>, k: NodeId)
    requires k in pending && pending <= References(base) && Referenced(k, scope, base).Ok?
    ensures var m := Pending(base, scope, pending);
            m[k := m[k].(kind := ReferenceNode(Referenced(k, scope, base).value))] == Pending(base, scope, pending - {k})
  {
  }
}
