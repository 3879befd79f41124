/**
 * The dependency-graph nodes of analyze.py (the classes Node, ReferenceNode, ConstantNode,
 * CallNode and ArgumentNode) and the multimap of candidates the traversal builds.
 */
module Graph {
  import opened Wrappers
  import opened Syntax

  /**
   * A reference to one candidate object: the `index`-th candidate appended under `key`.
   * Edges point at candidate objects, not at positions, so an edge may name a candidate
   * that the merge later discards.
   */
  datatype Ref = Ref(key: NodeId, index: nat)

  /** The class of a graph node; `Node` is the plain class of analyze.py. */
  datatype NodeKind =
    | Node
    | ReferenceNode(referenced: Option<NodeId>)  // the key of the canonical node it was resolved to
    | ConstantNode(value: Literal)
    | CallNode(callee: Ref)                      // the ReferenceNode created for the callee
    | ArgumentNode

  /** One graph node: its class, the syntax node it stands for and its `depends_on` list. */
  datatype GraphNode = GraphNode(kind: NodeKind, astNode: Tree, dependsOn: seq<Option<Ref>>)

  /** `type(a) == type(b)`: the same class, whatever the fields hold. */
  predicate SameType(a: GraphNode, b: GraphNode) {
    match a.kind
    case Node => b.kind.Node?
    case ReferenceNode(_) => b.kind.ReferenceNode?
    case ConstantNode(_) => b.kind.ConstantNode?
    case CallNode(_) => b.kind.CallNode?
    case ArgumentNode => b.kind.ArgumentNode?
  }

  /** The `defaultdict(list)` from syntax-node identity to the candidates created for it. */
  type Candidates = map<NodeId, seq<GraphNode>>

  /** Reading the default dictionary: a missing key reads as the empty list. */
  function Lookup(m: Candidates, k: NodeId): seq<GraphNode> {
    if k in m then m[k] else []
  }

  predicate ValidRef(m: Candidates, r: Ref) {
    r.key in m && r.index < |m[r.key]|
  }

  /** Every key of `a` is a key of `b`, with at least as many candidates. */
  ghost predicate Extends(a: Candidates, b: Candidates) {
    forall k :: k in a ==> k in b && |a[k]| <= |b[k]|
  }

  /** `a` and `b` agree on every key outside `ids`. */
  ghost predicate UnchangedOutside(a: Candidates, b: Candidates, ids: set<NodeId>) {
    forall k :: k !in ids ==> Lookup(a, k) == Lookup(b, k)
  }

  /** Every candidate of `a` is still in `b`, at the same place and unchanged: each list of `a` is a prefix. */
  ghost predicate Settled(a: Candidates, b: Candidates) {
    forall k :: k in a ==> k in b && a[k] <= b[k]
  }

  /** Every edge of `g` (and its callee, for a call) names an existing candidate of `m`. */
  ghost predicate EdgesIn(m: Candidates, g: GraphNode) {
    (forall j :: 0 <= j < |g.dependsOn| && g.dependsOn[j].Some? ==> ValidRef(m, g.dependsOn[j].value)) &&
    (g.kind.CallNode? ==> ValidRef(m, g.kind.callee))
  }

  /**
   * What the traversal keeps true of the multimap: it only appends, so no list is empty;
   * every candidate sits under the key of its own syntax node; every edge names a candidate.
   */
  ghost predicate WellFormed(m: Candidates) {
    (forall k :: k in m ==> m[k] != []) &&
    (forall k, i :: k in m && 0 <= i < |m[k]| ==> m[k][i].astNode.id == k) &&
    (forall k, i :: k in m && 0 <= i < |m[k]| ==> EdgesIn(m, m[k][i]))
  }

  /** The exceptions that abort the analysis of one function. */
  datatype Error =
    | UnsupportedTarget(target: NodeId)      // a tuple assignment target (`raise NotImplemented(...)`)
    | UnexpectedNameContext(name: NodeId)    // a Name whose context is neither Load nor Store
    | MissingChild(parent: NodeId)           // `visit(None)`: a bare `return` (AttributeError)
    | HeterogeneousMerge(key: NodeId)        // candidates of different classes under one key
    | NonNameReference(key: NodeId)          // a ReferenceNode whose syntax node is not a Name
    | UnknownNode(key: NodeId)               // KeyError: the resolved writer has no graph node
}
