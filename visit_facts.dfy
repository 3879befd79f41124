/**
 * What one visit of ExpressionVisitor (analyze.py:15-148) leaves behind for the visited node:
 * the class of its graph node and, in source order, which child each dependency comes from.
 */
module VisitFacts {
  import opened Wrappers
  import opened Syntax
  import opened Graph
  import opened Traverser

  /** `d` is what visiting `c` returns: a candidate of `c` when `c`'s visit makes one, else None (also for an operator). */
  predicate Reads(d: Option<Ref>, c: Option<Tree>) {
    if c.Some? && Produces(c.value) then d.Some? && d.value.key == c.value.id else d.None?
  }

  predicate ReadsAll(ds: seq<Option<Ref>>, cs: seq<Option<Tree>>) {
    |ds| == |cs| && forall j :: 0 <= j < |ds| ==> Reads(ds[j], cs[j])
  }

  function Somes(ts: seq<Tree>): (r: seq<Option<Tree>>)
    ensures |r| == |ts| && forall j :: 0 <= j < |ts| ==> r[j] == Some(ts[j])
  {
    if ts == [] then [] else Somes(ts[..|ts| - 1]) + [Some(ts[|ts| - 1])]
  }

  /** In source order, the nodes whose visits `t`'s graph node depends on; None for a comparison operator. */
  function DependsOnNodes(t: Tree): seq<Option<Tree>> {
    match t
    case Assign(_, _, value) => [Some(value)]
    case AugAssign(_, target, value) => [Some(value), Some(target)]
    case BinOp(_, left, right) => [Some(left), Some(right)]
    case BoolOp(_, values) => Somes(values)
    case Compare(_, _, ops, _) => seq(|ops|, _ => None)
    case Call(_, _, args, keywords) => Somes(args + keywords)
    case Return(_, result) => if result.Some? then [result] else []
    case While(_, test, _, _) => [Some(test)]
    case If(_, test, _, _) => [Some(test)]
    case For(_, _, iter, _, _) => [Some(iter)]
    case _ => []
  }

  /** The class a visit gives `t`'s graph node (the callee of a call is stated by `CallCallee`). */
  predicate ClassFits(k: NodeKind, t: Tree) {
    match t
    case Arg(_, _, _) => k == ArgumentNode
    case Name(_, _, ctx) => if ctx == Load then k == ReferenceNode(None) else k == Node
    case Constant(_, literal) => k == ConstantNode(literal)
    case Num(_, n) => k == ConstantNode(IntLit(n))
    case Call(_, _, _, _) => k.CallNode?
    case _ => k == Node
  }

  /**
   * The visit of `t` from `st` returned a candidate that was not there before, created for `t`,
   * of the class `t` calls for, whose dependencies are, in order, what visiting `DependsOnNodes(t)` returned.
   */
  ghost predicate NodeOfVisit(st: VState, t: Tree, r: Visited) {
    r.ret.Some? && ValidRef(r.st.nodes, r.ret.value) && r.ret.value.key == t.id &&
    r.ret.value.index >= |Lookup(st.nodes, t.id)| &&
    var g := r.st.nodes[t.id][r.ret.value.index];
    g.astNode == t && ClassFits(g.kind, t) && ReadsAll(g.dependsOn, DependsOnNodes(t))
  }

  /** A visit that answers `ts` element by element reads them all, in order. */
  lemma AnswersRead(m: VState, ts: seq<Tree>, rets: seq<Option<Ref>>)
    requires |rets| == |ts| && forall i :: 0 <= i < |ts| ==> Answers(m, ts[i], rets[i])
    ensures ReadsAll(rets, Somes(ts))
  {
    forall j | 0 <= j < |rets| ensures Reads(rets[j], Somes(ts)[j]) {
      assert Answers(m, ts[j], rets[j]);
    }
  }

  /** The shared opening leaves a fresh Node for `t` that depends on the visit of `child` alone. */
  lemma HeadShape(st: VState, t: Tree, child: Tree)
    requires child < t && !t.FunctionDef? && child in Children(t)
    ensures var h := Head(st, t, child);
            h.Ok? ==> h.value.at.index >= |Lookup(st.nodes, t.id)| && ValidRef(h.value.st.nodes, h.value.at) &&
                      h.value.st.nodes[t.id][h.value.at.index] == GraphNode(Node, t, [h.value.value]) &&
                      Settled(st.nodes, h.value.st.nodes)
  {
    HeadKeeps(st, t, child);
    var p := Push(st, Fresh(Node, t));
    CollectKeeps(p.st, child);
    var v := Collect(p.st, child);
    if v.Ok? {
      assert p.st.nodes[t.id] <= v.value.st.nodes[t.id];
    }
  }

  /** Every visit that returns a graph node returns a fresh one of the right class with the right dependencies. */
  lemma VisitShape(st: VState, t: Tree)
    requires Produces(t)
    ensures Collect(st, t).Ok? ==> NodeOfVisit(st, t, Collect(st, t).value)
  {
    match t
    case Assign(_, _, _) => AssignShape(st, t);
    case AugAssign(_, _, _) => AugAssignShape(st, t);
    case BinOp(_, _, _) => BinOpShape(st, t);
    case BoolOp(_, _) => BoolOpShape(st, t);
    case Compare(_, _, _, _) => CompareShape(st, t);
    case Call(_, _, _, _) => CallShape(st, t);
    case Return(_, _) => ReturnShape(st, t);
    case While(_, _, _, _) => TestedNode(st, t, t.test);
    case If(_, _, _, _) => TestedNode(st, t, t.test);
    case For(_, _, _, _, _) => TestedNode(st, t, t.iter);
    case _ => LeafShape(st, t);
  }

  /** Parameters, names and literals: one candidate of their own class with no dependency. */
  lemma LeafShape(st: VState, t: Tree)
    requires t.Arg? || t.Name? || t.Constant? || t.Num?
    ensures Collect(st, t).Ok? ==> NodeOfVisit(st, t, Collect(st, t).value)
  {
  }

  lemma AssignShape(st: VState, t: Tree)
    requires t.Assign?
    ensures CollectAssign(st, t).Ok? ==> NodeOfVisit(st, t, CollectAssign(st, t).value)
  {
    assert t.value in Children(t);
    HeadShape(st, t, t.value);
    var h := Head(st, t, t.value);
    var r := CollectAssign(st, t);
    if r.Ok? {
      AssignTargetsKeeps(h.value.st, t.targets, h.value.value);
      HeadedNode(st, t, h.value, r.value, Some(t.value));
    }
  }

  lemma AugAssignShape(st: VState, t: Tree)
    requires t.AugAssign?
    ensures CollectAugAssign(st, t).Ok? ==> NodeOfVisit(st, t, CollectAugAssign(st, t).value)
  {
    assert t.value in Children(t);
    HeadShape(st, t, t.value);
    var h := Head(st, t, t.value);
    if h.Ok? {
      assert CollectAugAssign(st, t) == AugAssignTail(st, t, h.value);
      AugAssignTailShape(st, t, h.value);
    }
  }

  /** After the opening, `visit_AugAssign` stores the target, visits it, and depends on that visit too. */
  lemma AugAssignTailShape(st: VState, t: Tree, h: Headed)
    requires t.AugAssign? && Grows(st, h.st) && h.at.key == t.id && ValidRef(h.st.nodes, h.at)
    requires h.value.Some? ==> ValidRef(h.st.nodes, h.value.value)
    requires h.st.nodes[t.id][h.at.index] == GraphNode(Node, t, [h.value])
    requires h.at.index >= |Lookup(st.nodes, t.id)| && Reads(h.value, Some(t.value))
    ensures AugAssignTail(st, t, h).Ok? ==> NodeOfVisit(st, t, AugAssignTail(st, t, h).value)
  {
    AssignValueKeeps(h.st, t.target, h.value);
    var s := AssignValue(h.st, t.target, h.value);
    if s.Ok? {
      assert h.st.nodes[t.id] <= s.value.st.nodes[t.id];
      AugAssignTargetShape(st, t, h.at, s.value.st, h.value);
    }
  }

  lemma AugAssignTargetShape(st: VState, t: Tree, at: Ref, s: VState, value: Option<Ref>)
    requires t.AugAssign? && Grows(st, s) && at.key == t.id && ValidRef(s.nodes, at)
    requires s.nodes[t.id][at.index] == GraphNode(Node, t, [value])
    requires at.index >= |Lookup(st.nodes, t.id)| && Reads(value, Some(t.value))
    ensures AugAssignTarget(st, t, at, s).Ok? ==> NodeOfVisit(st, t, AugAssignTarget(st, t, at, s).value)
  {
    CollectKeeps(s, t.target);
    var g := Collect(s, t.target);
    if g.Ok? {
      assert DependsOnNodes(t) == [Some(t.value), Some(t.target)];
      LinkedNode(st, t, at, s, g.value.st, [value], [g.value.ret], Node);
    }
  }

  /**
   * `visit_AugAssign` stores a Name target before visiting it, so the target's key gets two
   * new candidates: the stored Node at `k`, depending on the value, and then the candidate of the
   * target's own visit at `k + 1`, which is the one the statement's second edge names. That edge
   * never names a first candidate, so it is one the merge does not keep.
   */
  lemma AugAssignTargetEdge(st: VState, t: Tree)
    requires t.AugAssign? && t.target.Name?
    ensures var h := Head(st, t, t.value);
            var r := CollectAugAssign(st, t);
            r.Ok? ==> h.Ok? && TargetEdge(r.value.st.nodes, t, h.value.at, h.value.value, |Lookup(h.value.st.nodes, t.target.id)|)
  {
    assert t.value in Children(t);
    HeadShape(st, t, t.value);
    var h := Head(st, t, t.value);
    if h.Ok? {
      var hd := h.value;
      assert CollectAugAssign(st, t) == AugAssignTail(st, t, hd);
      var k := |Lookup(hd.st.nodes, t.target.id)|;
      var p := Push(hd.st, Fresh(Node, t.target));
      var stored := AddDeps(p.st, p.at, [hd.value]);
      assert AssignValue(hd.st, t.target, hd.value) == Ok(Pushed(stored, p.at));
      assert AugAssignTail(st, t, hd) == AugAssignTarget(st, t, hd.at, stored);
      assert stored.nodes[t.target.id][k] == GraphNode(Node, t.target, [hd.value]);
      assert hd.st.nodes[t.id] <= stored.nodes[t.id];
      AugAssignVisitEdge(st, t, hd.at, stored, hd.value, k);
    }
  }

  /**
   * In `m`, the stored Node of the target is its candidate `k`, depending on `value`; candidate
   * `k + 1` is a fresh one of the target's visit; and the statement's candidate `at` depends on
   * the value and then on candidate `k + 1`.
   */
  ghost predicate TargetEdge(m: Candidates, t: Tree, at: Ref, value: Option<Ref>, k: nat)
    requires t.AugAssign?
  {
    ValidRef(m, Ref(t.target.id, k + 1)) && ValidRef(m, at) && at.key == t.id &&
    m[t.target.id][k] == GraphNode(Node, t.target, [value]) &&
    m[t.target.id][k + 1].astNode == t.target && m[t.target.id][k + 1].dependsOn == [] &&
    m[t.id][at.index].dependsOn == [value, Some(Ref(t.target.id, k + 1))]
  }

  lemma AugAssignVisitEdge(st: VState, t: Tree, at: Ref, s: VState, value: Option<Ref>, k: nat)
    requires t.AugAssign? && t.target.Name? && Grows(st, s) && at.key == t.id && ValidRef(s.nodes, at)
    requires s.nodes[t.id][at.index].dependsOn == [value]
    requires |Lookup(s.nodes, t.target.id)| == k + 1 && s.nodes[t.target.id][k] == GraphNode(Node, t.target, [value])
    requires at.key != t.target.id || at.index < k
    ensures var r := AugAssignTarget(st, t, at, s);
            r.Ok? ==> TargetEdge(r.value.st.nodes, t, at, value, k)
  {
    var v := Collect(s, t.target);
    if v.Ok? {
      assert v.value.ret == Some(Ref(t.target.id, k + 1));
      assert s.nodes[t.target.id] <= v.value.st.nodes[t.target.id];
      assert s.nodes[t.id] <= v.value.st.nodes[t.id];
    }
  }

  /**
   * A candidate created for `t` after `st`, left alone until `base` and then given the rest of
   * its dependencies, is what the visit of `t` returns.
   */
  lemma LinkedNode(st: VState, t: Tree, at: Ref, mid: VState, base: VState,
                   pre: seq<Option<Ref>>, deps: seq<Option<Ref>>, kind: NodeKind)
    requires at.key == t.id && at.index >= |Lookup(st.nodes, t.id)| && ValidRef(mid.nodes, at)
    requires mid.nodes[t.id][at.index] == GraphNode(kind, t, pre)
    requires Settled(mid.nodes, base.nodes) && ValidRef(base.nodes, at)
    requires ClassFits(kind, t) && ReadsAll(pre + deps, DependsOnNodes(t))
    ensures NodeOfVisit(st, t, Visited(AddDeps(base, at, deps), Some(at)))
  {
    assert mid.nodes[t.id] <= base.nodes[t.id];
  }

  lemma BinOpShape(st: VState, t: Tree)
    requires t.BinOp?
    ensures CollectBinOp(st, t).Ok? ==> NodeOfVisit(st, t, CollectBinOp(st, t).value)
  {
    var p := Push(st, Fresh(Node, t));
    CollectKeeps(p.st, t.left);
    var l := Collect(p.st, t.left);
    if l.Ok? {
      CollectKeeps(l.value.st, t.right);
      var r := Collect(l.value.st, t.right);
      if r.Ok? {
        SettledTrans(p.st.nodes, l.value.st.nodes, r.value.st.nodes);
        assert ReadsAll([] + [l.value.ret, r.value.ret], DependsOnNodes(t)) by {
          assert [] + [l.value.ret, r.value.ret] == [l.value.ret, r.value.ret];
        }
        LinkedNode(st, t, p.at, p.st, r.value.st, [], [l.value.ret, r.value.ret], Node);
      }
    }
  }

  lemma BoolOpShape(st: VState, t: Tree)
    requires t.BoolOp?
    ensures CollectBoolOp(st, t).Ok? ==> NodeOfVisit(st, t, CollectBoolOp(st, t).value)
  {
    var p := Push(st, Fresh(Node, t));
    assert Below(t.values, t) by { assert Children(t) == t.values; }
    CollectAllKeeps(p.st, t.values, t);
    var a := CollectAll(p.st, t.values, t);
    if a.Ok? {
      AnswersRead(a.value.st, t.values, a.value.rets);
      assert [] + a.value.rets == a.value.rets;
      LinkedNode(st, t, p.at, p.st, a.value.st, [], a.value.rets, Node);
    }
  }

  lemma CompareShape(st: VState, t: Tree)
    requires t.Compare?
    ensures CollectCompare(st, t).Ok? ==> NodeOfVisit(st, t, CollectCompare(st, t).value)
  {
    var p := Push(st, Fresh(Node, t));
    var ops := OperatorVisits(t.ops);
    forall j | 0 <= j < |ops| ensures Reads(([] + ops)[j], DependsOnNodes(t)[j]) {
    }
    LinkedNode(st, t, p.at, p.st, p.st, [], ops, Node);
  }

  lemma CallShape(st: VState, t: Tree)
    requires t.Call?
    ensures CollectCall(st, t).Ok? ==> NodeOfVisit(st, t, CollectCall(st, t).value)
  {
    var f := Push(st, Fresh(ReferenceNode(None), t.func));
    var g := Push(f.st, Fresh(CallNode(f.at), t));
    assert Lookup(g.st.nodes, t.id) == Lookup(f.st.nodes, t.id) + [Fresh(CallNode(f.at), t)];
    assert Lookup(g.st.nodes, t.id) == g.st.nodes[t.id];
    CallArgumentsShape(st, t, g, f.at);
  }

  /** The call node's dependencies are, in order, what visiting each argument and then each keyword returned. */
  lemma CallArgumentsShape(st: VState, t: Tree, g: Pushed, callee: Ref)
    requires t.Call? && g.at.key == t.id && g.at.index >= |Lookup(st.nodes, t.id)| && ValidRef(g.st.nodes, g.at)
    requires g.st.nodes[t.id][g.at.index] == GraphNode(CallNode(callee), t, [])
    ensures Below(t.args + t.keywords, t)
    ensures var a := CollectAll(g.st, t.args + t.keywords, t);
            a.Ok? ==> NodeOfVisit(st, t, Visited(AddDeps(a.value.st, g.at, a.value.rets), Some(g.at)))
  {
    var parts := t.args + t.keywords;
    assert Below(parts, t) by {
      forall i | 0 <= i < |parts| ensures parts[i] < t { assert parts[i] == Children(t)[i + 1]; }
    }
    CollectAllKeeps(g.st, parts, t);
    var a := CollectAll(g.st, parts, t);
    if a.Ok? {
      AnswersRead(a.value.st, parts, a.value.rets);
      assert [] + a.value.rets == a.value.rets;
      LinkedNode(st, t, g.at, g.st, a.value.st, [], a.value.rets, CallNode(callee));
    }
  }

  lemma ReturnShape(st: VState, t: Tree)
    requires t.Return?
    ensures CollectReturn(st, t).Ok? ==> NodeOfVisit(st, t, CollectReturn(st, t).value)
  {
    if t.result.Some? {
      assert t.result.value in Children(t);
      HeadShape(st, t, t.result.value);
    }
  }

  /** After the opening, `generic_visit` of a loop or branch leaves the node's own candidate as it was. */
  lemma TestedShape(st: VState, t: Tree, header: Tree)
    requires ((t.While? || t.If?) && header == t.test) || (t.For? && header == t.iter)
    ensures var r := CollectTested(st, t, header);
            var h := Head(st, t, header);
            r.Ok? ==> h.Ok? && r.value.ret == Some(h.value.at) && Settled(h.value.st.nodes, r.value.st.nodes)
  {
    var h := Head(st, t, header);
    if h.Ok? {
      CollectAllKeeps(h.value.st, Children(t), t);
    }
  }

  lemma TestedNode(st: VState, t: Tree, header: Tree)
    requires ((t.While? || t.If?) && header == t.test) || (t.For? && header == t.iter)
    ensures CollectTested(st, t, header).Ok? ==> NodeOfVisit(st, t, CollectTested(st, t, header).value)
  {
    assert header in Children(t);
    assert DependsOnNodes(t) == [Some(header)] && ClassFits(Node, t);
    HeadShape(st, t, header);
    TestedShape(st, t, header);
    var r := CollectTested(st, t, header);
    if r.Ok? {
      var h := Head(st, t, header);
      HeadedNode(st, t, h.value, r.value, Some(header));
    }
  }

  /**
   * `visit_While`, `visit_If` and `visit_For` visit the test (or iterable) twice: once for the
   * statement's dependency and once more in `generic_visit`. So the test's key ends with at least
   * one candidate after the one the statement depends on.
   */
  lemma TestedVisitsHeaderTwice(st: VState, t: Tree, header: Tree)
    requires ((t.While? || t.If?) && header == t.test) || (t.For? && header == t.iter)
    requires Produces(header)
    ensures var h := Head(st, t, header);
            var r := CollectTested(st, t, header);
            r.Ok? ==> h.Ok? && h.value.value.Some? && h.value.value.value.key == header.id &&
                      |Lookup(r.value.st.nodes, header.id)| >= h.value.value.value.index + 2
  {
    var h := Head(st, t, header);
    if h.Ok? {
      var j := if t.For? then 1 else 0;
      assert Children(t)[j] == header;
      CollectAllRevisits(h.value.st, Children(t), t, j);
    }
  }

  /** Visiting a list revisits its element `j`: that key ends with a candidate it did not have before. */
  lemma {:induction false} CollectAllRevisits(st: VState, ts: seq<Tree>, parent: Tree, j: nat)
    requires Below(ts, parent) && j < |ts| && Produces(ts[j])
    ensures var a := CollectAll(st, ts, parent);
            a.Ok? ==> |Lookup(a.value.st.nodes, ts[j].id)| > |Lookup(st.nodes, ts[j].id)|
    decreases |ts|
  {
    var init := ts[..|ts| - 1];
    var last := ts[|ts| - 1];
    var a := CollectAll(st, ts, parent);
    if a.Ok? {
      var i := CollectAll(st, init, parent);
      var v := Collect(i.value.st, last);
      LookupGrows(st.nodes, i.value.st.nodes, ts[j].id);
      if j == |ts| - 1 {
        VisitShape(i.value.st, last);
      } else {
        assert init[j] == ts[j];
        CollectAllRevisits(st, init, parent, j);
        LookupGrows(i.value.st.nodes, v.value.st.nodes, ts[j].id);
      }
    }
  }

  lemma LookupGrows(a: Candidates, b: Candidates, k: NodeId)
    requires Extends(a, b)
    ensures |Lookup(a, k)| <= |Lookup(b, k)|
  {
  }

  /** A node made by the shared opening and left alone afterwards is what the visit returns. */
  lemma HeadedNode(st: VState, t: Tree, h: Headed, r: Visited, child: Option<Tree>)
    requires DependsOnNodes(t) == [child] && ClassFits(Node, t) && Reads(h.value, child)
    requires h.at.key == t.id && h.at.index >= |Lookup(st.nodes, t.id)| && ValidRef(h.st.nodes, h.at)
    requires h.st.nodes[t.id][h.at.index] == GraphNode(Node, t, [h.value])
    requires r.ret == Some(h.at) && Settled(h.st.nodes, r.st.nodes)
    ensures NodeOfVisit(st, t, r)
  {
    assert h.st.nodes[t.id] <= r.st.nodes[t.id];
  }

  /**
   * `visit_Call` creates a ReferenceNode for the callee expression (whatever its class; it is
   * not visited), left without dependencies, and the call node points at exactly that node.
   */
  lemma CallCallee(st: VState, t: Tree)
    requires t.Call?
    ensures var r := CollectCall(st, t);
            r.Ok? ==> var callee := Ref(t.func.id, |Lookup(st.nodes, t.func.id)|);
                      ValidRef(r.value.st.nodes, callee) &&
                      r.value.st.nodes[t.func.id][callee.index] == GraphNode(ReferenceNode(None), t.func, []) &&
                      r.value.st.nodes[t.id][r.value.ret.value.index].kind == CallNode(callee)
  {
    var f := Push(st, Fresh(ReferenceNode(None), t.func));
    var g := Push(f.st, Fresh(CallNode(f.at), t));
    var parts := t.args + t.keywords;
    assert Below(parts, t) by {
      forall i | 0 <= i < |parts| ensures parts[i] < t { assert parts[i] == Children(t)[i + 1]; }
    }
    CollectAllKeeps(g.st, parts, t);
    var a := CollectAll(g.st, parts, t);
    if a.Ok? {
      assert f.st.nodes[t.func.id] <= g.st.nodes[t.func.id] <= a.value.st.nodes[t.func.id];
      assert g.st.nodes[t.id] <= a.value.st.nodes[t.id];
    }
  }

  /** The position of the first tuple in `ts`, or `|ts|` when there is none. */
  function FirstTuple(ts: seq<Tree>): (i: nat)
    ensures i <= |ts| && (i < |ts| ==> ts[i].Tuple?)
    ensures forall j :: 0 <= j < i ==> !ts[j].Tuple?
  {
    if ts == [] then 0 else if ts[0].Tuple? then 0 else 1 + FirstTuple(ts[1..])
  }

  lemma {:induction false} FirstTupleAppend(ts: seq<Tree>, last: Tree)
    ensures FirstTuple(ts + [last]) == if FirstTuple(ts) < |ts| then FirstTuple(ts) else if last.Tuple? then |ts| else |ts| + 1
    decreases |ts|
  {
    if ts != [] {
      assert (ts + [last])[1..] == ts[1..] + [last];
      FirstTupleAppend(ts[1..], last);
    }
  }

  /**
   * `assign_value` over the targets of an assignment fails exactly when some target is a tuple,
   * and then with the first tuple target met.
   */
  lemma {:induction false} AssignTargetsFail(st: VState, targets: seq<Tree>, value: Option<Ref>)
    requires value.Some? ==> ValidRef(st.nodes, value.value)
    ensures AssignTargets(st, targets, value).Err? <==> FirstTuple(targets) < |targets|
    ensures AssignTargets(st, targets, value).Err? ==>
              AssignTargets(st, targets, value).error == UnsupportedTarget(targets[FirstTuple(targets)].id)
    decreases |targets|
  {
    if targets != [] {
      var init := targets[..|targets| - 1];
      var last := targets[|targets| - 1];
      assert targets == init + [last];
      FirstTupleAppend(init, last);
      AssignTargetsFail(st, init, value);
      var ri := AssignTargets(st, init, value);
      if ri.Ok? {
        assert AssignTargets(st, targets, value) == match AssignValue(ri.value, last, value)
                                                   case Ok(p) => Ok(p.st)
                                                   case Err(e) => Err(e);
      } else {
        assert AssignTargets(st, targets, value) == Err(ri.error);
      }
    }
  }

  /** A scalar target gets a Node that depends on the value alone; nothing created before changes. */
  lemma AssignValueStores(st: VState, target: Tree, value: Option<Ref>)
    requires value.Some? ==> ValidRef(st.nodes, value.value)
    ensures var r := AssignValue(st, target, value);
            r.Ok? ==> GraphNode(Node, target, [value]) in Lookup(r.value.st.nodes, target.id) &&
                      Settled(st.nodes, r.value.st.nodes)
  {
    if !target.Tuple? {
      var p := Push(st, Fresh(Node, target));
      AssignValueKeeps(st, target, value);
      var m := AddDeps(p.st, p.at, [value]);
      assert m.nodes[target.id][p.at.index] == GraphNode(Node, target, [value]);
    }
  }

  /** Every target of a successful assignment gets a Node of its own that depends on the value alone. */
  lemma {:induction false} AssignTargetsStore(st: VState, targets: seq<Tree>, value: Option<Ref>)
    requires value.Some? ==> ValidRef(st.nodes, value.value)
    ensures var r := AssignTargets(st, targets, value);
            r.Ok? ==> Stores(r.value.nodes, targets, value)
    decreases |targets|
  {
    if targets != [] {
      var init := targets[..|targets| - 1];
      var last := targets[|targets| - 1];
      assert init + [last] == targets;
      AssignTargetsStore(st, init, value);
      var ri := AssignTargets(st, init, value);
      if ri.Ok? {
        StoresLast(ri.value, init, last, value);
        assert AssignTargets(st, targets, value) == match AssignValue(ri.value, last, value)
                                                   case Ok(p) => Ok(p.st)
                                                   case Err(e) => Err(e);
      }
    }
  }

  /** Storing one more target keeps the earlier targets stored. */
  lemma StoresLast(s: VState, init: seq<Tree>, last: Tree, value: Option<Ref>)
    requires value.Some? ==> ValidRef(s.nodes, value.value)
    requires Stores(s.nodes, init, value)
    ensures var rl := AssignValue(s, last, value);
            rl.Ok? ==> Stores(rl.value.st.nodes, init + [last], value)
  {
    AssignValueStores(s, last, value);
    var rl := AssignValue(s, last, value);
    if rl.Ok? {
      StoresKept(s.nodes, rl.value.st.nodes, init, value);
      StoresAppend(rl.value.st.nodes, init, last, value);
    }
  }

  /** Each of `ts` has, under its own key, a Node for it that depends on `value` alone. */
  ghost predicate Stores(m: Candidates, ts: seq<Tree>, value: Option<Ref>) {
    forall i :: 0 <= i < |ts| ==> GraphNode(Node, ts[i], [value]) in Lookup(m, ts[i].id)
  }

  lemma StoresKept(a: Candidates, b: Candidates, ts: seq<Tree>, value: Option<Ref>)
    requires Settled(a, b) && Stores(a, ts, value)
    ensures Stores(b, ts, value)
  {
    forall i | 0 <= i < |ts| ensures GraphNode(Node, ts[i], [value]) in Lookup(b, ts[i].id) {
      var k := ts[i].id;
      assert k in a;
      assert a[k] <= b[k];
    }
  }

  lemma StoresAppend(m: Candidates, ts: seq<Tree>, last: Tree, value: Option<Ref>)
    requires Stores(m, ts, value) && GraphNode(Node, last, [value]) in Lookup(m, last.id)
    ensures Stores(m, ts + [last], value)
  {
    forall i | 0 <= i < |ts| + 1 ensures GraphNode(Node, (ts + [last])[i], [value]) in Lookup(m, (ts + [last])[i].id) {
      if i < |ts| {
        assert (ts + [last])[i] == ts[i];
      }
    }
  }

  /** An assignment aborts when the value's visit does or when a target is a tuple; otherwise it stores every target. */
  lemma AssignOutcome(st: VState, t: Tree)
    requires t.Assign?
    ensures var h := Head(st, t, t.value);
            var r := CollectAssign(st, t);
            h.Ok? ==> (r.Err? <==> FirstTuple(t.targets) < |t.targets|) &&
                      (r.Err? ==> r.error == UnsupportedTarget(t.targets[FirstTuple(t.targets)].id)) &&
                      (r.Ok? ==> Stores(r.value.st.nodes, t.targets, h.value.value))
  {
    var h := Head(st, t, t.value);
    if h.Ok? {
      AssignTargetsFail(h.value.st, t.targets, h.value.value);
      AssignTargetsStore(h.value.st, t.targets, h.value.value);
    }
  }

  /** A Name in a `del` statement aborts the analysis. */
  lemma DeleteAborts(st: VState, t: Tree)
    requires t.Name? && t.ctx == Del
    ensures Collect(st, t) == Err(UnexpectedNameContext(t.id))
  {
  }

  /** A later function definition (nested, or a lambda's container) is skipped: nothing is added and None is returned. */
  lemma NestedFunctionSkipped(st: VState, t: Tree)
    requires t.FunctionDef? && st.fnDeclVisited
    ensures Collect(st, t) == Ok(Visited(st, None))
  {
  }

  /** `visit_Compare` visits the operators only: the operands get no candidates and nothing but the node changes. */
  lemma CompareTouchesItselfOnly(st: VState, t: Tree)
    requires t.Compare?
    ensures var r := CollectCompare(st, t);
            r.Ok? && UnchangedOutside(st.nodes, r.value.st.nodes, {t.id}) && Grows(st, r.value.st)
  {
  }

  /**
   * Analysing a whole function definition from a fresh visitor leaves a well-formed multimap:
   * no list is empty, every candidate sits under its own node's key, and every edge names a candidate.
   */
  lemma TraversalWellFormed(t: Tree)
    requires t.FunctionDef?
    ensures var r := Collect(VState(map[], false), t);
            r.Ok? ==> WellFormed(r.value.st.nodes) && r.value.st.fnDeclVisited
  {
    CollectKeeps(VState(map[], false), t);
  }
}
