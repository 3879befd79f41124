/**
 * ExpressionVisitor (analyze.py:15-148): one walk over a function that appends candidate
 * graph nodes to a multimap keyed by syntax-node identity.
 *
 * The functions below give the meaning of each `visit_*` method as a function of the
 * visitor's state (the multimap and the `_fn_decl_visited` flag); the class
 * `ExpressionVisitor` further down performs the same steps in place and is proved to
 * agree with them.
 */
module Traverser {
  import opened Wrappers
  import opened Syntax
  import opened Graph

  /** The fields of an ExpressionVisitor. */
  datatype VState = VState(nodes: Candidates, fnDeclVisited: bool)

  /** The state after visiting one node, and what `visit` returned (None or a candidate). */
  datatype Visited = Visited(st: VState, ret: Option<Ref>)

  /** The state after visiting a list of nodes in order, and what each visit returned. */
  datatype VisitedAll = VisitedAll(st: VState, rets: seq<Option<Ref>>)

  datatype Pushed = Pushed(st: VState, at: Ref)

  /** The state after a Node for the visited node was added and linked to the visit of one child. */
  datatype Headed = Headed(st: VState, at: Ref, value: Option<Ref>)

  /** A graph node as a constructor of analyze.py creates it (nothing appended yet). */
  function Fresh(kind: NodeKind, t: Tree): GraphNode {
    GraphNode(kind, t, [])
  }

  /** `self.nodes[c.ast_node].append(c)`; `at` names the new candidate. */
  function Push(st: VState, c: GraphNode): (p: Pushed)
    ensures p.st.fnDeclVisited == st.fnDeclVisited && Extends(st.nodes, p.st.nodes)
    ensures p.at == Ref(c.astNode.id, |Lookup(st.nodes, c.astNode.id)|) && ValidRef(p.st.nodes, p.at)
    ensures Lookup(p.st.nodes, c.astNode.id) == Lookup(st.nodes, c.astNode.id) + [c]
    ensures UnchangedOutside(st.nodes, p.st.nodes, {c.astNode.id}) && Settled(st.nodes, p.st.nodes)
  {
    var k := c.astNode.id;
    Pushed(st.(nodes := st.nodes[k := Lookup(st.nodes, k) + [c]]), Ref(k, |Lookup(st.nodes, k)|))
  }

  /** `g.depends_on += deps`, in place on the candidate `g`. */
  function AddDeps(st: VState, g: Ref, deps: seq<Option<Ref>>): (r: VState)
    requires ValidRef(st.nodes, g)
    ensures r.fnDeclVisited == st.fnDeclVisited && r.nodes.Keys == st.nodes.Keys
    ensures forall k :: k in st.nodes ==> |r.nodes[k]| == |st.nodes[k]|
    ensures forall k, i :: k in st.nodes && 0 <= i < |st.nodes[k]| && (k != g.key || i != g.index) ==>
              r.nodes[k][i] == st.nodes[k][i]
    ensures r.nodes[g.key][g.index] == GraphNode(st.nodes[g.key][g.index].kind, st.nodes[g.key][g.index].astNode,
                                                 st.nodes[g.key][g.index].dependsOn + deps)
    ensures forall x :: ValidRef(st.nodes, x) <==> ValidRef(r.nodes, x)
  {
    var c := st.nodes[g.key][g.index];
    st.(nodes := st.nodes[g.key := st.nodes[g.key][g.index := c.(dependsOn := c.dependsOn + deps)]])
  }

  ghost predicate AllValid(m: Candidates, rs: seq<Option<Ref>>) {
    forall j :: 0 <= j < |rs| && rs[j].Some? ==> ValidRef(m, rs[j].value)
  }

  /** What every visit keeps: the multimap only grows, the flag is never reset, well-formedness holds. */
  ghost predicate Grows(a: VState, b: VState) {
    Extends(a.nodes, b.nodes) && (a.fnDeclVisited ==> b.fnDeclVisited)
  }

  /** `ret` is what visiting `t` may return: a candidate under `t`'s own key exactly when `t`'s class produces one. */
  ghost predicate Answers(st: VState, t: Tree, ret: Option<Ref>) {
    (ret.Some? <==> Produces(t)) && (ret.Some? ==> ret.value.key == t.id && ValidRef(st.nodes, ret.value))
  }

  ghost predicate VisitSound(st: VState, t: Tree, r: Result<Visited, Error>) {
    r.Ok? ==>
      Grows(st, r.value.st) && Answers(r.value.st, t, r.value.ret)
  }

  ghost predicate VisitAllSound(st: VState, ts: seq<Tree>, parent: Tree, r: Result<VisitedAll, Error>)
    requires Below(ts, parent)
  {
    r.Ok? ==>
      Grows(st, r.value.st) && |r.value.rets| == |ts| &&
      (forall i :: 0 <= i < |ts| ==> Answers(r.value.st, ts[i], r.value.rets[i]))
  }

  /** `self.visit(node)`: dispatch on the class of `t`; classes without a method go to `generic_visit`. */
  function Collect(st: VState, t: Tree): (r: Result<Visited, Error>)
    ensures VisitSound(st, t, r)
    decreases t, 2
  {
    match t
    case FunctionDef(_, _, _, _, _, _) => CollectFunctionDef(st, t)
    case Arguments(_, _, _, _, _, _, _, _) => CollectArguments(st, t)
    case Arg(_, _, _) => CollectArg(st, t)
    case Assign(_, _, _) => CollectAssign(st, t)
    case AugAssign(_, _, _) => CollectAugAssign(st, t)
    case BinOp(_, _, _) => CollectBinOp(st, t)
    case BoolOp(_, _) => CollectBoolOp(st, t)
    case Compare(_, _, _, _) => CollectCompare(st, t)
    case Call(_, _, _, _) => CollectCall(st, t)
    case Return(_, _) => CollectReturn(st, t)
    case Name(_, _, _) => CollectName(st, t)
    case Constant(_, _) => CollectConstant(st, t)
    case Num(_, _) => CollectNum(st, t)
    case While(_, _, _, _) => CollectTested(st, t, t.test)
    case If(_, _, _, _) => CollectTested(st, t, t.test)
    case For(_, _, _, _, _) => CollectTested(st, t, t.iter)
    case Tuple(_, _, _) => CollectGeneric(st, t)
    case Other(_, _, _) => CollectGeneric(st, t)
  }

  /** Visiting each of `ts` in order, collecting the returned values (a list comprehension). */
  function CollectAll(st: VState, ts: seq<Tree>, ghost parent: Tree): (r: Result<VisitedAll, Error>)
    requires Below(ts, parent)
    ensures VisitAllSound(st, ts, parent, r)
    decreases parent, 0, |ts|
  {
    if ts == [] then Ok(VisitedAll(st, []))
    else
      var init :- CollectAll(st, ts[..|ts| - 1], parent);
      var last :- Collect(init.st, ts[|ts| - 1]);
      Ok(VisitedAll(last.st, init.rets + [last.ret]))
  }

  /** `generic_visit`: visit every child, return None. */
  function CollectGeneric(st: VState, t: Tree): (r: Result<Visited, Error>)
    requires t.Tuple? || t.Other?
    ensures VisitSound(st, t, r)
    decreases t, 1
  {
    var all :- CollectAll(st, Children(t), t);
    Ok(Visited(all.st, None))
  }

  /** `visit_FunctionDef`: only the first function definition met is entered. */
  function CollectFunctionDef(st: VState, t: Tree): (r: Result<Visited, Error>)
    requires t.FunctionDef?
    ensures VisitSound(st, t, r)
    decreases t, 1
  {
    if st.fnDeclVisited then Ok(Visited(st, None))
    else
      var all :- CollectAll(st.(fnDeclVisited := true), Children(t), t);
      Ok(Visited(all.st, None))
  }

  /** `visit_arguments`: only the positional parameters `args` are visited. */
  function CollectArguments(st: VState, t: Tree): (r: Result<Visited, Error>)
    requires t.Arguments?
    ensures VisitSound(st, t, r)
    decreases t, 1
  {
    var all :- CollectAll(st, t.args, t);
    Ok(Visited(all.st, None))
  }

  function CollectArg(st: VState, t: Tree): (r: Result<Visited, Error>)
    requires t.Arg?
    ensures VisitSound(st, t, r)
    decreases t, 1
  {
    var p := Push(st, Fresh(ArgumentNode, t));
    Ok(Visited(p.st, Some(p.at)))
  }

  /** `assign_value`: a tuple target aborts; any other target gets a Node depending on `value`. */
  function AssignValue(st: VState, target: Tree, value: Option<Ref>): (r: Result<Pushed, Error>)
    requires value.Some? ==> ValidRef(st.nodes, value.value)
    ensures r.Ok? ==> Grows(st, r.value.st) && ValidRef(r.value.st.nodes, r.value.at) &&
                      r.value.at.key == target.id && UnchangedOutside(st.nodes, r.value.st.nodes, {target.id})
  {
    if target.Tuple? then Err(UnsupportedTarget(target.id))
    else
      var p := Push(st, Fresh(Node, target));
      Ok(Pushed(AddDeps(p.st, p.at, [value]), p.at))
  }

  /** The loop `for target in node.targets: self.assign_value(target, value)`. */
  function AssignTargets(st: VState, targets: seq<Tree>, value: Option<Ref>): (r: Result<VState, Error>)
    requires value.Some? ==> ValidRef(st.nodes, value.value)
    ensures r.Ok? ==> Grows(st, r.value) &&
                      UnchangedOutside(st.nodes, r.value.nodes, set i | 0 <= i < |targets| :: targets[i].id)
  {
    if targets == [] then Ok(st)
    else
      var init :- AssignTargets(st, targets[..|targets| - 1], value);
      var last :- AssignValue(init, targets[|targets| - 1], value);
      Ok(last.st)
  }

  /**
   * The opening shared by `visit_Assign`, `visit_AugAssign`, `visit_Return`, `visit_While`,
   * `visit_If` and `visit_For`: a Node for `t`, then the visit of `child`, then the new node
   * depends on what that visit returned.
   */
  function Head(st: VState, t: Tree, child: Tree): (r: Result<Headed, Error>)
    requires child < t
    ensures r.Ok? ==> Grows(st, r.value.st) && r.value.at.key == t.id && ValidRef(r.value.st.nodes, r.value.at) &&
                      Answers(r.value.st, child, r.value.value)
    decreases t, 0
  {
    var p := Push(st, Fresh(Node, t));
    var value :- Collect(p.st, child);
    Ok(Headed(AddDeps(value.st, p.at, [value.ret]), p.at, value.ret))
  }

  function CollectAssign(st: VState, t: Tree): (r: Result<Visited, Error>)
    requires t.Assign?
    ensures VisitSound(st, t, r)
    decreases t, 1
  {
    var h :- Head(st, t, t.value);
    var stored :- AssignTargets(h.st, t.targets, h.value);
    Ok(Visited(stored, Some(h.at)))
  }

  function CollectAugAssign(st: VState, t: Tree): (r: Result<Visited, Error>)
    requires t.AugAssign?
    ensures VisitSound(st, t, r)
    decreases t, 1
  {
    var h :- Head(st, t, t.value);
    AugAssignTail(st, t, h)
  }

  /** `visit_AugAssign` after its opening: the target is stored as a Node depending on the value. */
  function AugAssignTail(ghost st: VState, t: Tree, h: Headed): (r: Result<Visited, Error>)
    requires t.AugAssign? && Grows(st, h.st) && h.at.key == t.id && ValidRef(h.st.nodes, h.at)
    requires h.value.Some? ==> ValidRef(h.st.nodes, h.value.value)
    ensures r.Ok? ==> Grows(st, r.value.st) && r.value.ret == Some(h.at) && ValidRef(r.value.st.nodes, h.at)
    decreases t, 0, 1
  {
    var stored :- AssignValue(h.st, t.target, h.value);
    AugAssignTarget(st, t, h.at, stored.st)
  }

  /** The end of `visit_AugAssign`: the target is visited as well and the node depends on that visit. */
  function AugAssignTarget(ghost st: VState, t: Tree, at: Ref, s: VState): (r: Result<Visited, Error>)
    requires t.AugAssign? && Grows(st, s) && at.key == t.id && ValidRef(s.nodes, at)
    ensures r.Ok? ==> Grows(st, r.value.st) && r.value.ret == Some(at) && ValidRef(r.value.st.nodes, at)
    decreases t, 0, 0
  {
    var target :- Collect(s, t.target);
    Ok(Visited(AddDeps(target.st, at, [target.ret]), Some(at)))
  }

  function CollectBinOp(st: VState, t: Tree): (r: Result<Visited, Error>)
    requires t.BinOp?
    ensures VisitSound(st, t, r)
    decreases t, 1
  {
    var p := Push(st, Fresh(Node, t));
    var lhs :- Collect(p.st, t.left);
    var rhs :- Collect(lhs.st, t.right);
    Ok(Visited(AddDeps(rhs.st, p.at, [lhs.ret, rhs.ret]), Some(p.at)))
  }

  function CollectBoolOp(st: VState, t: Tree): (r: Result<Visited, Error>)
    requires t.BoolOp?
    ensures VisitSound(st, t, r)
    decreases t, 1
  {
    var p := Push(st, Fresh(Node, t));
    var values :- CollectAll(p.st, t.values, t);
    Ok(Visited(AddDeps(values.st, p.at, values.rets), Some(p.at)))
  }

  /**
   * What visiting the comparison operators returns: an operator object has no visitor method
   * and no children, so each visit returns None and changes nothing.
   */
  function OperatorVisits(ops: seq<CmpOp>): seq<Option<Ref>> {
    seq(|ops|, _ => None)
  }

  /** `visit_Compare` visits `node.ops`, not the operands. */
  function CollectCompare(st: VState, t: Tree): (r: Result<Visited, Error>)
    requires t.Compare?
    ensures VisitSound(st, t, r)
    decreases t, 1
  {
    var p := Push(st, Fresh(Node, t));
    Ok(Visited(AddDeps(p.st, p.at, OperatorVisits(t.ops)), Some(p.at)))
  }

  /** `visit_Call`: a ReferenceNode for the callee (not visited), then the call, then its arguments. */
  function CollectCall(st: VState, t: Tree): (r: Result<Visited, Error>)
    requires t.Call?
    ensures VisitSound(st, t, r)
    decreases t, 1
  {
    var f := Push(st, Fresh(ReferenceNode(None), t.func));
    var g := Push(f.st, Fresh(CallNode(f.at), t));
    var arguments :- CollectAll(g.st, t.args + t.keywords, t);
    Ok(Visited(AddDeps(arguments.st, g.at, arguments.rets), Some(g.at)))
  }

  /** `visit_Return`; a bare `return` makes `visit(None)` fail once the Node has been added. */
  function CollectReturn(st: VState, t: Tree): (r: Result<Visited, Error>)
    requires t.Return?
    ensures VisitSound(st, t, r)
    decreases t, 1
  {
    if t.result.None? then Err(MissingChild(t.id))
    else
      var h :- Head(st, t, t.result.value);
      Ok(Visited(h.st, Some(h.at)))
  }

  function CollectName(st: VState, t: Tree): (r: Result<Visited, Error>)
    requires t.Name?
    ensures VisitSound(st, t, r)
    decreases t, 1
  {
    match t.ctx
    case Load =>
      var p := Push(st, Fresh(ReferenceNode(None), t));
      Ok(Visited(p.st, Some(p.at)))
    case Store =>
      var p := Push(st, Fresh(Node, t));
      Ok(Visited(p.st, Some(p.at)))
    case Del => Err(UnexpectedNameContext(t.id))
  }

  function CollectConstant(st: VState, t: Tree): (r: Result<Visited, Error>)
    requires t.Constant?
    ensures VisitSound(st, t, r)
    decreases t, 1
  {
    var p := Push(st, Fresh(ConstantNode(t.literal), t));
    Ok(Visited(p.st, Some(p.at)))
  }

  function CollectNum(st: VState, t: Tree): (r: Result<Visited, Error>)
    requires t.Num?
    ensures VisitSound(st, t, r)
    decreases t, 1
  {
    var p := Push(st, Fresh(ConstantNode(IntLit(t.n)), t));
    Ok(Visited(p.st, Some(p.at)))
  }

  /**
   * `visit_While`, `visit_If` and `visit_For`: the node depends on its test (or iterable),
   * then `generic_visit` visits every child, the test included, once more.
   */
  function CollectTested(st: VState, t: Tree, header: Tree): (r: Result<Visited, Error>)
    requires ((t.While? || t.If?) && header == t.test) || (t.For? && header == t.iter)
    ensures VisitSound(st, t, r)
    decreases t, 1
  {
    var h :- Head(st, t, header);
    var all :- CollectAll(h.st, Children(t), t);
    Ok(Visited(all.st, Some(h.at)))
  }

  /** Where the candidates live that a child's visit may touch: inside the parent's part of the tree. */
  lemma OuterChildren(t: Tree)
    requires !t.FunctionDef?
    ensures t.id in Outer(t)
    ensures forall i :: 0 <= i < |Children(t)| ==> Outer(Children(t)[i]) <= Outer(t)
    ensures forall c :: c in Children(t) ==> Outer(c) <= Outer(t)
  {
    forall i | 0 <= i < |Children(t)| ensures Outer(Children(t)[i]) <= Outer(t) {
      OuterAllHas(Children(t), t, i);
    }
  }

  lemma {:induction false} OuterAllHas(ts: seq<Tree>, parent: Tree, i: nat)
    requires Below(ts, parent) && i < |ts|
    ensures Outer(ts[i]) <= OuterAll(ts, parent)
    decreases |ts|
  {
    if i < |ts| - 1 {
      OuterAllHas(ts[..|ts| - 1], parent, i);
    }
  }

  lemma {:induction false} OuterAllWithin(ts: seq<Tree>, parent: Tree, ids: set<NodeId>)
    requires Below(ts, parent)
    requires forall i :: 0 <= i < |ts| ==> Outer(ts[i]) <= ids
    ensures OuterAll(ts, parent) <= ids
    decreases |ts|
  {
    if ts != [] {
      OuterAllWithin(ts[..|ts| - 1], parent, ids);
    }
  }

  /** Appending keeps every existing reference valid. */
  lemma ValidRefsKept(a: Candidates, b: Candidates)
    requires Extends(a, b)
    ensures forall x :: ValidRef(a, x) ==> ValidRef(b, x)
  {
  }

  /**
   * From `a` to `b`: well-formedness is kept; every candidate of `a` is left as it was; and,
   * once past the first function header, only keys in `ids` change.
   */
  ghost predicate Kept(a: VState, b: VState, ids: set<NodeId>) {
    (WellFormed(a.nodes) ==> WellFormed(b.nodes)) &&
    (a.fnDeclVisited ==> UnchangedOutside(a.nodes, b.nodes, ids)) &&
    Settled(a.nodes, b.nodes)
  }

  /** A successful visit of `t` keeps well-formedness and touches only `t`'s own part of the tree. */
  ghost predicate Keeps(st: VState, t: Tree, r: Result<Visited, Error>) {
    r.Ok? ==> Kept(st, r.value.st, Outer(t))
  }

  ghost predicate KeepsAll(st: VState, ts: seq<Tree>, parent: Tree, r: Result<VisitedAll, Error>)
    requires Below(ts, parent)
  {
    r.Ok? ==> Kept(st, r.value.st, OuterAll(ts, parent))
  }

  /** Appending a candidate whose edges name existing candidates keeps what visits keep. */
  lemma PushKeeps(st: VState, c: GraphNode, ids: set<NodeId>)
    requires c.astNode.id in ids && EdgesIn(st.nodes, c)
    ensures Kept(st, Push(st, c).st, ids)
  {
    var p := Push(st, c);
    ValidRefsKept(st.nodes, p.st.nodes);
    if WellFormed(st.nodes) {
      forall k, i | k in p.st.nodes && 0 <= i < |p.st.nodes[k]| ensures EdgesIn(p.st.nodes, p.st.nodes[k][i]) {
        if k != c.astNode.id || i < |Lookup(st.nodes, k)| {
          assert EdgesIn(st.nodes, st.nodes[k][i]);
        }
      }
    }
  }

  /** Linking the candidate `g` to valid targets keeps what the visits before it kept. */
  lemma LinkKeeps(a: VState, st: VState, g: Ref, deps: seq<Option<Ref>>, ids: set<NodeId>)
    requires ValidRef(st.nodes, g) && AllValid(st.nodes, deps) && Kept(a, st, ids)
    requires g.key in ids && g.index >= |Lookup(a.nodes, g.key)|
    ensures Kept(a, AddDeps(st, g, deps), ids)
  {
    var b := AddDeps(st, g, deps);
    if WellFormed(a.nodes) {
      assert WellFormed(st.nodes);
      forall k, i | k in b.nodes && 0 <= i < |b.nodes[k]| ensures EdgesIn(b.nodes, b.nodes[k][i]) {
        assert EdgesIn(st.nodes, st.nodes[k][i]);
      }
    }
    forall k | k in a.nodes ensures k in b.nodes && a.nodes[k] <= b.nodes[k] {
      assert a.nodes[k] <= st.nodes[k];
      forall i | 0 <= i < |a.nodes[k]| ensures b.nodes[k][i] == a.nodes[k][i] {
        assert (k, i) != (g.key, g.index);
      }
    }
  }

  /** Two steps in a row keep what each keeps. */
  lemma Chain(a: VState, b: VState, c: VState, ids: set<NodeId>)
    requires Kept(a, b, ids) && Kept(b, c, ids)
    requires a.fnDeclVisited ==> b.fnDeclVisited
    ensures Kept(a, c, ids)
  {
    SettledTrans(a.nodes, b.nodes, c.nodes);
  }

  lemma SettledTrans(a: Candidates, b: Candidates, c: Candidates)
    requires Settled(a, b) && Settled(b, c)
    ensures Settled(a, c)
  {
    forall k | k in a ensures k in c && a[k] <= c[k] {
      assert a[k] <= b[k] <= c[k];
    }
  }

  /** The children a visitor method picks out (`node.args`, `node.values`, ...) lie in the node's part. */
  lemma PartOuter(t: Tree, ts: seq<Tree>)
    requires !t.FunctionDef? && forall i :: 0 <= i < |ts| ==> ts[i] in Children(t)
    ensures Below(ts, t) && OuterAll(ts, t) <= Outer(t)
  {
    OuterChildren(t);
    forall i | 0 <= i < |ts| ensures Outer(ts[i]) <= Outer(t) {
      var j :| 0 <= j < |Children(t)| && Children(t)[j] == ts[i];
    }
    OuterAllWithin(ts, t, Outer(t));
  }

  lemma AssignValueKeeps(st: VState, target: Tree, value: Option<Ref>)
    requires value.Some? ==> ValidRef(st.nodes, value.value)
    ensures AssignValue(st, target, value).Ok? ==> Kept(st, AssignValue(st, target, value).value.st, {target.id})
  {
    if !target.Tuple? {
      var p := Push(st, Fresh(Node, target));
      PushKeeps(st, Fresh(Node, target), {target.id});
      LinkKeeps(st, p.st, p.at, [value], {target.id});
    }
  }

  lemma {:induction false} AssignTargetsKeeps(st: VState, targets: seq<Tree>, value: Option<Ref>)
    requires value.Some? ==> ValidRef(st.nodes, value.value)
    ensures AssignTargets(st, targets, value).Ok? ==>
              (WellFormed(st.nodes) ==> WellFormed(AssignTargets(st, targets, value).value.nodes)) &&
              Settled(st.nodes, AssignTargets(st, targets, value).value.nodes)
    decreases |targets|
  {
    if targets != [] {
      AssignTargetsKeeps(st, targets[..|targets| - 1], value);
      var init := AssignTargets(st, targets[..|targets| - 1], value);
      if init.Ok? {
        AssignValueKeeps(init.value, targets[|targets| - 1], value);
        var last := AssignValue(init.value, targets[|targets| - 1], value);
        if last.Ok? {
          SettledTrans(st.nodes, init.value.nodes, last.value.st.nodes);
        }
      }
    }
  }

  /** The assignment targets lie in the assignment's part of the tree (scalar targets are visited only as keys). */
  lemma TargetsOuter(t: Tree)
    requires t.Assign?
    ensures (set i | 0 <= i < |t.targets| :: t.targets[i].id) <= Outer(t)
  {
    OuterChildren(t);
    forall i | 0 <= i < |t.targets| ensures t.targets[i].id in Outer(t) {
      assert t.targets[i] == Children(t)[i];
    }
  }

  /** The shared opening keeps what visits keep, within `t`'s part of the tree. */
  lemma {:induction false} HeadKeeps(st: VState, t: Tree, child: Tree)
    requires child < t && !t.FunctionDef? && child in Children(t)
    ensures Head(st, t, child).Ok? ==> Kept(st, Head(st, t, child).value.st, Outer(t))
    decreases t, 0
  {
    var p := Push(st, Fresh(Node, t));
    OuterChildren(t);
    PushKeeps(st, Fresh(Node, t), Outer(t));
    CollectKeeps(p.st, child);
    var v := Collect(p.st, child);
    if v.Ok? {
      Chain(st, p.st, v.value.st, Outer(t));
      LinkKeeps(st, v.value.st, p.at, [v.value.ret], Outer(t));
    }
  }

  /**
   * Every successful visit keeps the multimap well-formed; once the analysed function has been
   * entered, it changes only the candidates of syntax nodes in the visited node's own part.
   */
  lemma {:induction false} CollectKeeps(st: VState, t: Tree)
    ensures Keeps(st, t, Collect(st, t))
    decreases t, 2
  {
    match t
    case FunctionDef(_, _, _, _, _, _) => FunctionDefKeeps(st, t);
    case Arguments(_, _, _, _, _, _, _, _) => PartOuter(t, t.args); CollectAllKeeps(st, t.args, t);
    case Assign(_, _, _) => AssignKeeps(st, t);
    case AugAssign(_, _, _) => AugAssignKeeps(st, t);
    case BinOp(_, _, _) => BinOpKeeps(st, t);
    case BoolOp(_, _) => BoolOpKeeps(st, t);
    case Call(_, _, _, _) => CallKeeps(st, t);
    case Return(_, _) => ReturnKeeps(st, t);
    case While(_, _, _, _) => TestedKeeps(st, t, t.test);
    case If(_, _, _, _) => TestedKeeps(st, t, t.test);
    case For(_, _, _, _, _) => TestedKeeps(st, t, t.iter);
    case Tuple(_, _, _) => CollectAllKeeps(st, Children(t), t);
    case Other(_, _, _) => CollectAllKeeps(st, Children(t), t);
    case Compare(_, _, _, _) => CompareKeeps(st, t);
    case Arg(_, _, _) => LeafKeeps(st, t);
    case Name(_, _, _) => LeafKeeps(st, t);
    case Constant(_, _) => LeafKeeps(st, t);
    case Num(_, _) => LeafKeeps(st, t);
  }

  /** The visits that add one candidate for the node itself and visit nothing else. */
  lemma LeafKeeps(st: VState, t: Tree)
    requires t.Arg? || t.Name? || t.Constant? || t.Num?
    ensures Keeps(st, t, Collect(st, t))
  {
    assert t.id in Outer(t);
    match t
    case Arg(_, _, _) => PushKeeps(st, Fresh(ArgumentNode, t), Outer(t));
    case Name(_, _, ctx) =>
      if ctx == Load {
        PushKeeps(st, Fresh(ReferenceNode(None), t), Outer(t));
      } else if ctx == Store {
        PushKeeps(st, Fresh(Node, t), Outer(t));
      }
    case Constant(_, literal) => PushKeeps(st, Fresh(ConstantNode(literal), t), Outer(t));
    case Num(_, n) => PushKeeps(st, Fresh(ConstantNode(IntLit(n)), t), Outer(t));
  }

  lemma {:induction false} CollectAllKeeps(st: VState, ts: seq<Tree>, parent: Tree)
    requires Below(ts, parent)
    ensures KeepsAll(st, ts, parent, CollectAll(st, ts, parent))
    decreases parent, 0, |ts|
  {
    if ts != [] {
      var init := ts[..|ts| - 1];
      CollectAllKeeps(st, init, parent);
      var ri := CollectAll(st, init, parent);
      if ri.Ok? {
        CollectKeeps(ri.value.st, ts[|ts| - 1]);
        var rl := Collect(ri.value.st, ts[|ts| - 1]);
        if rl.Ok? {
          Chain(st, ri.value.st, rl.value.st, OuterAll(ts, parent));
        }
      }
    }
  }

  /**
   * The first function definition met is entered and only the candidates of its own part change;
   * nested definitions are bare keys of that part, so their bodies are never touched.
   */
  lemma {:induction false} FunctionDefKeeps(st: VState, t: Tree)
    requires t.FunctionDef?
    ensures Keeps(st, t, CollectFunctionDef(st, t))
    ensures !st.fnDeclVisited && CollectFunctionDef(st, t).Ok? ==>
              UnchangedOutside(st.nodes, CollectFunctionDef(st, t).value.st.nodes, OuterAll(Children(t), t))
    decreases t, 1
  {
    if !st.fnDeclVisited {
      CollectAllKeeps(st.(fnDeclVisited := true), Children(t), t);
    }
  }

  lemma CompareKeeps(st: VState, t: Tree)
    requires t.Compare?
    ensures Keeps(st, t, CollectCompare(st, t))
  {
    var p := Push(st, Fresh(Node, t));
    PushKeeps(st, Fresh(Node, t), Outer(t));
    LinkKeeps(st, p.st, p.at, OperatorVisits(t.ops), Outer(t));
  }

  lemma {:induction false} AssignKeeps(st: VState, t: Tree)
    requires t.Assign?
    ensures Keeps(st, t, CollectAssign(st, t))
    decreases t, 1
  {
    assert t.value in Children(t);
    HeadKeeps(st, t, t.value);
    var h := Head(st, t, t.value);
    if h.Ok? {
      AssignTargetsKeeps(h.value.st, t.targets, h.value.value);
      TargetsOuter(t);
      var s := AssignTargets(h.value.st, t.targets, h.value.value);
      if s.Ok? {
        Chain(st, h.value.st, s.value, Outer(t));
      }
    }
  }

  lemma {:induction false} AugAssignKeeps(st: VState, t: Tree)
    requires t.AugAssign?
    ensures Keeps(st, t, CollectAugAssign(st, t))
    decreases t, 1
  {
    assert t.value in Children(t);
    HeadKeeps(st, t, t.value);
    var h := Head(st, t, t.value);
    if h.Ok? {
      AugAssignTailKeeps(st, t, h.value);
    }
  }

  lemma {:induction false} AugAssignTailKeeps(st: VState, t: Tree, h: Headed)
    requires t.AugAssign? && Grows(st, h.st) && h.at.key == t.id && ValidRef(h.st.nodes, h.at)
    requires h.value.Some? ==> ValidRef(h.st.nodes, h.value.value)
    requires Kept(st, h.st, Outer(t)) && h.at.index >= |Lookup(st.nodes, t.id)|
    ensures Keeps(st, t, AugAssignTail(st, t, h))
    decreases t, 0, 1
  {
    OuterChildren(t);
    assert t.target in Children(t);
    AssignValueKeeps(h.st, t.target, h.value);
    var s := AssignValue(h.st, t.target, h.value);
    if s.Ok? {
      Chain(st, h.st, s.value.st, Outer(t));
      TargetLinkKeeps(st, t, h.at, s.value.st);
      assert AugAssignTail(st, t, h) == AugAssignTarget(st, t, h.at, s.value.st);
    }
  }

  /** The last step of `visit_AugAssign`: the target is visited and the node depends on it. */
  lemma {:induction false} TargetLinkKeeps(st: VState, t: Tree, at: Ref, s: VState)
    requires t.AugAssign? && at.key == t.id && ValidRef(s.nodes, at) && Kept(st, s, Outer(t))
    requires at.index >= |Lookup(st.nodes, t.id)| && Grows(st, s)
    ensures Keeps(st, t, AugAssignTarget(st, t, at, s))
    decreases t, 0, 0
  {
    OuterChildren(t);
    assert t.target in Children(t);
    CollectKeeps(s, t.target);
    var g := Collect(s, t.target);
    if g.Ok? {
      Chain(st, s, g.value.st, Outer(t));
      LinkKeeps(st, g.value.st, at, [g.value.ret], Outer(t));
    }
  }

  lemma {:induction false} BinOpKeeps(st: VState, t: Tree)
    requires t.BinOp?
    ensures Keeps(st, t, CollectBinOp(st, t))
    decreases t, 1
  {
    var p := Push(st, Fresh(Node, t));
    OuterChildren(t);
    PushKeeps(st, Fresh(Node, t), Outer(t));
    assert t.left in Children(t);
    CollectKeeps(p.st, t.left);
    var l := Collect(p.st, t.left);
    if l.Ok? {
      Chain(st, p.st, l.value.st, Outer(t));
      RightOperandKeeps(st, t, p.at, l.value.st, l.value.ret);
    }
  }

  /** The rest of `visit_BinOp`: the right operand is visited and the node depends on both. */
  lemma {:induction false} RightOperandKeeps(st: VState, t: Tree, at: Ref, mid: VState, lhs: Option<Ref>)
    requires t.BinOp? && at.key == t.id && at.index >= |Lookup(st.nodes, t.id)| && ValidRef(mid.nodes, at)
    requires Kept(st, mid, Outer(t)) && (st.fnDeclVisited ==> mid.fnDeclVisited)
    requires lhs.Some? ==> ValidRef(mid.nodes, lhs.value)
    ensures var r := Collect(mid, t.right);
            r.Ok? ==> Kept(st, AddDeps(r.value.st, at, [lhs, r.value.ret]), Outer(t))
    decreases t, 0
  {
    OuterChildren(t);
    assert t.right in Children(t);
    CollectKeeps(mid, t.right);
    var r := Collect(mid, t.right);
    if r.Ok? {
      Chain(st, mid, r.value.st, Outer(t));
      LinkKeeps(st, r.value.st, at, [lhs, r.value.ret], Outer(t));
    }
  }

  lemma {:induction false} BoolOpKeeps(st: VState, t: Tree)
    requires t.BoolOp?
    ensures Keeps(st, t, CollectBoolOp(st, t))
    decreases t, 1
  {
    var p := Push(st, Fresh(Node, t));
    OuterChildren(t);
    PushKeeps(st, Fresh(Node, t), Outer(t));
    PartOuter(t, t.values);
    CollectAllKeeps(p.st, t.values, t);
    var a := CollectAll(p.st, t.values, t);
    if a.Ok? {
      Chain(st, p.st, a.value.st, Outer(t));
      LinkKeeps(st, a.value.st, p.at, a.value.rets, Outer(t));
    }
  }

  lemma {:induction false} CallKeeps(st: VState, t: Tree)
    requires t.Call?
    ensures Keeps(st, t, CollectCall(st, t))
    decreases t, 1
  {
    var f := Push(st, Fresh(ReferenceNode(None), t.func));
    OuterChildren(t);
    assert t.func in Children(t);
    var g := Push(f.st, Fresh(CallNode(f.at), t));
    PushKeeps(st, Fresh(ReferenceNode(None), t.func), Outer(t));
    PushKeeps(f.st, Fresh(CallNode(f.at), t), Outer(t));
    Chain(st, f.st, g.st, Outer(t));
    CallArgumentsKeeps(st, t, g);
  }

  /** The arguments of a call, then the keywords, are visited and the call depends on each. */
  lemma {:induction false} CallArgumentsKeeps(st: VState, t: Tree, g: Pushed)
    requires t.Call? && g.at.key == t.id && ValidRef(g.st.nodes, g.at) && Kept(st, g.st, Outer(t))
    requires g.at.index >= |Lookup(st.nodes, t.id)|
    requires st.fnDeclVisited ==> g.st.fnDeclVisited
    ensures Below(t.args + t.keywords, t)
    ensures var a := CollectAll(g.st, t.args + t.keywords, t);
            a.Ok? ==> Kept(st, AddDeps(a.value.st, g.at, a.value.rets), Outer(t))
    decreases t, 0
  {
    var parts := t.args + t.keywords;
    forall i | 0 <= i < |parts| ensures parts[i] in Children(t) {
      assert parts[i] == Children(t)[i + 1];
    }
    PartOuter(t, parts);
    CollectAllKeeps(g.st, parts, t);
    var a := CollectAll(g.st, parts, t);
    if a.Ok? {
      Chain(st, g.st, a.value.st, Outer(t));
      LinkKeeps(st, a.value.st, g.at, a.value.rets, Outer(t));
    }
  }

  lemma {:induction false} ReturnKeeps(st: VState, t: Tree)
    requires t.Return?
    ensures Keeps(st, t, CollectReturn(st, t))
    decreases t, 1
  {
    if t.result.Some? {
      assert t.result.value in Children(t);
      HeadKeeps(st, t, t.result.value);
    }
  }

  lemma {:induction false} TestedKeeps(st: VState, t: Tree, header: Tree)
    requires ((t.While? || t.If?) && header == t.test) || (t.For? && header == t.iter)
    ensures Keeps(st, t, CollectTested(st, t, header))
    decreases t, 1
  {
    assert header in Children(t);
    HeadKeeps(st, t, header);
    var h := Head(st, t, header);
    if h.Ok? {
      CollectAllKeeps(h.value.st, Children(t), t);
      var a := CollectAll(h.value.st, Children(t), t);
      if a.Ok? {
        Chain(st, h.value.st, a.value.st, Outer(t));
      }
    }
  }
}
