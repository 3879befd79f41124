/**
 * FunctionLevelAnalyzer.merge_nodes and simplify_dependencies (analyze.py:192-221): every
 * candidate list of the multimap collapses to one canonical node, the first candidate, which
 * takes over the dependencies of all candidates in order; lists that mix classes are
 * refused; finally every dependency list loses its duplicates.
 *
 * The canonical node of a key is the candidate `Ref(key, 0)`: the merge updates that object
 * in place, so the edges that name it name the canonical node. An edge that names a later
 * candidate of a list names an object the merged graph no longer holds.
 */
module Merger {
  import opened Wrappers
  import opened Syntax
  import opened Graph

  /** The result of the merge: one graph node per syntax key. */
  type Merged = map<NodeId, GraphNode>

  /** The test of analyze.py:201: every candidate stands for the first one's syntax node and has its class. */
  predicate Homogeneous(cs: seq<GraphNode>)
    requires cs != []
  {
    forall i :: 0 <= i < |cs| ==> cs[i].astNode == cs[0].astNode && SameType(cs[i], cs[0])
  }

  /** All dependency lists of `cs`, concatenated in order. */
  function ConcatDeps(cs: seq<GraphNode>): (r: seq<Option<Ref>>)
    ensures forall x :: x in r <==> exists i :: 0 <= i < |cs| && x in cs[i].dependsOn
  {
    if cs == [] then []
    else
      var init := cs[..|cs| - 1];
      var r := ConcatDeps(init) + cs[|cs| - 1].dependsOn;
      assert forall x :: x in r <==> exists i :: 0 <= i < |cs| && x in cs[i].dependsOn by {
        forall x | x in r ensures exists i :: 0 <= i < |cs| && x in cs[i].dependsOn {
          if x !in cs[|cs| - 1].dependsOn {
            var i :| 0 <= i < |init| && x in init[i].dependsOn;
            assert cs[i] == init[i];
          }
        }
        forall x, i | 0 <= i < |cs| && x in cs[i].dependsOn ensures x in r {
          if i < |init| {
            assert cs[i] == init[i];
          }
        }
      }
      r
  }

  /** The canonical node of a list: the first candidate, holding every candidate's dependencies. */
  function Canonical(cs: seq<GraphNode>): GraphNode
    requires cs != []
  {
    cs[0].(dependsOn := ConcatDeps(cs))
  }

  /** No value occurs twice in `xs`. */
  predicate NoDuplicates<T(==)>(xs: seq<T>) {
    forall i, j :: 0 <= i < j < |xs| ==> xs[i] != xs[j]
  }

  /**
   * `list(set(deps))`, each value kept at its first occurrence. Python does not fix the order
   * of the list a set yields; the contracts below speak only of its elements.
   */
  function Dedup(xs: seq<Option<Ref>>): (r: seq<Option<Ref>>)
    ensures NoDuplicates(r)
    ensures forall x :: x in r <==> x in xs
    ensures |r| <= |xs|
  {
    if xs == [] then []
    else
      var init := Dedup(xs[..|xs| - 1]);
      var last := xs[|xs| - 1];
      assert forall x :: x in xs <==> x in xs[..|xs| - 1] || x == last by {
        assert xs == xs[..|xs| - 1] + [last];
      }
      if last in init then init else init + [last]
  }

  /** `simplify_dependencies`: the list of dependencies is replaced by one without duplicates. */
  function Simplify(g: GraphNode): (r: GraphNode)
    ensures r.kind == g.kind && r.astNode == g.astNode
    ensures NoDuplicates(r.dependsOn) && forall x :: x in r.dependsOn <==> x in g.dependsOn
  {
    g.(dependsOn := Dedup(g.dependsOn))
  }

  /**
   * The inner part of the loop of analyze.py:194-207 for one key: a single candidate is taken
   * as it is; several are merged by extending the first one's dependencies, candidate after
   * candidate, when they are all alike; otherwise the merge fails naming `key`.
   */
  method MergeCandidates(key: NodeId, cs: seq<GraphNode>) returns (r: Result<GraphNode, Error>)
    requires cs != []
    ensures r.Ok? <==> Homogeneous(cs)
    ensures r.Ok? ==> r.value == Canonical(cs)
    ensures r.Err? ==> r.error == HeterogeneousMerge(key)
  {
    if |cs| == 1 {
      assert ConcatDeps(cs) == ConcatDeps(cs[..0]) + cs[0].dependsOn;
      return Ok(cs[0]);
    }
    var first := cs[0];
    if !Homogeneous(cs) {
      return Err(HeterogeneousMerge(key));
    }
    var i := 1;
    assert cs[..1][..0] == [];
    while i < |cs|
      invariant 1 <= i <= |cs|
      invariant first == cs[0].(dependsOn := ConcatDeps(cs[..i]))
    {
      assert cs[..i + 1][..i] == cs[..i];
      first := first.(dependsOn := first.dependsOn + cs[i].dependsOn);
      i := i + 1;
    }
    assert cs[..i] == cs;
    return Ok(first);
  }

  /** What the merge yields when it succeeds: a simplified canonical node per key. */
  function MergedGraph(nodes: Candidates): (m: Merged)
    requires forall k :: k in nodes ==> nodes[k] != []
    ensures m.Keys == nodes.Keys
  {
    map k | k in nodes :: Simplify(Canonical(nodes[k]))
  }

  /**
   * `merge_nodes`: the loop over the keys (in an order that Python's dictionary fixes and the
   * model leaves open), then the dictionary comprehension that simplifies every node.
   * A key's list is never empty (analyze.py:195-196 cannot be reached), which the caller states.
   */
  method MergeNodes(nodes: Candidates) returns (r: Result<Merged, Error>)
    requires forall k :: k in nodes ==> nodes[k] != []
    ensures r.Ok? <==> forall k :: k in nodes ==> Homogeneous(nodes[k])
    ensures r.Ok? ==> r.value == MergedGraph(nodes)
    ensures r.Err? ==> r.error.HeterogeneousMerge? && r.error.key in nodes && !Homogeneous(nodes[r.error.key])
  {
    var merged: Merged := map[];
    var todo := nodes.Keys;
    while todo != {}
      invariant todo <= nodes.Keys && merged.Keys == nodes.Keys - todo
      invariant forall k :: k in merged ==> Homogeneous(nodes[k]) && merged[k] == Canonical(nodes[k])
      decreases |todo|
    {
      var k :| k in todo;
      var m := MergeCandidates(k, nodes[k]);
      if m.Err? {
        return Err(m.error);
      }
      merged := merged[k := m.value];
      todo := todo - {k};
    }
    SimplifiedAll(nodes, merged);
    return Ok(map k | k in merged :: Simplify(merged[k]));
  }

  lemma SimplifiedAll(nodes: Candidates, merged: Merged)
    requires forall k :: k in nodes ==> nodes[k] != []
    requires merged.Keys == nodes.Keys && forall k :: k in merged ==> merged[k] == Canonical(nodes[k])
    ensures (map k | k in merged :: Simplify(merged[k])) == MergedGraph(nodes)
  {
  }

  /** A key with a single candidate keeps that candidate, dependencies included, up to duplicates. */
  lemma SingleCandidate(c: GraphNode)
    ensures Canonical([c]) == c
  {
    assert ConcatDeps([c]) == ConcatDeps([c][..0]) + [c][0].dependsOn;
  }

  /** Several candidates of a key: the canonical node has the first one's class and syntax node, and all dependencies in order. */
  lemma {:induction false} CanonicalOfMany(cs: seq<GraphNode>, c: GraphNode)
    requires cs != []
    ensures Canonical(cs + [c]).kind == cs[0].kind && Canonical(cs + [c]).astNode == cs[0].astNode
    ensures Canonical(cs + [c]).dependsOn == Canonical(cs).dependsOn + c.dependsOn
  {
    assert (cs + [c])[..|cs|] == cs;
  }

  /** The merged node of a key has exactly the dependencies of all its candidates, once each. */
  lemma MergedDependencies(nodes: Candidates, k: NodeId)
    requires forall k :: k in nodes ==> nodes[k] != []
    requires k in nodes
    ensures NoDuplicates(MergedGraph(nodes)[k].dependsOn)
    ensures forall x :: x in MergedGraph(nodes)[k].dependsOn <==>
                          exists i :: 0 <= i < |nodes[k]| && x in nodes[k][i].dependsOn
  {
  }

  /** Removing duplicates twice removes nothing more. */
  lemma {:induction false} DedupIdempotent(xs: seq<Option<Ref>>)
    ensures Dedup(Dedup(xs)) == Dedup(xs)
  {
    DedupKeepsDistinct(Dedup(xs));
  }

  /** A list without duplicates is left as it is. */
  lemma {:induction false} DedupKeepsDistinct(xs: seq<Option<Ref>>)
    requires NoDuplicates(xs)
    ensures Dedup(xs) == xs
    decreases |xs|
  {
    if xs != [] {
      var init := xs[..|xs| - 1];
      DedupKeepsDistinct(init);
      assert xs[|xs| - 1] !in init;
      assert init + [xs[|xs| - 1]] == xs;
    }
  }

  /** Merging the merged graph again, as a multimap with one candidate per key, gives it back. */
  lemma MergeIdempotent(nodes: Candidates)
    requires forall k :: k in nodes ==> nodes[k] != []
    ensures var m := MergedGraph(nodes);
            MergedGraph(map k | k in m :: [m[k]]) == m
  {
    var m := MergedGraph(nodes);
    var again := map k | k in m :: [m[k]];
    forall k | k in m ensures MergedGraph(again)[k] == m[k] {
      var g := Canonical(nodes[k]);
      assert m[k] == Simplify(g) && again[k] == [m[k]];
      SingleCandidate(m[k]);
      SimplifyIdempotent(g);
    }
    assert MergedGraph(again).Keys == m.Keys;
  }

  /** Simplifying a simplified node changes nothing. */
  lemma SimplifyIdempotent(g: GraphNode)
    ensures Simplify(Simplify(g)) == Simplify(g)
  {
    DedupIdempotent(g.dependsOn);
  }
}
