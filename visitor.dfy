/**
 * The class ExpressionVisitor of analyze.py:15-148 as an object: the multimap `nodes` and the
 * flag `fnDeclVisited` are fields that the visit methods update in place, in the order the
 * Python methods do. Every method is proved to leave the object in the state, and to return
 * the value, that the corresponding function of module Traverser computes from the state it
 * started in; the properties proved about those functions therefore hold of the object.
 *
 * An exception of the Python code is an `Err` result here. After an `Err` the object's state
 * is not specified: the analysis of that function is abandoned anyway.
 */
module Visitor {
  import opened Wrappers
  import opened Syntax
  import opened Graph
  import opened Traverser

  /** The object is in state `s` and returned `r`, as the visit described by `c` does. */
  ghost predicate Agrees(s: VState, r: Result<Option<Ref>, Error>, c: Result<Visited, Error>) {
    match c
    case Ok(v) => r == Ok(v.ret) && s == v.st
    case Err(e) => r == Err(e)
  }

  /** The same for a list of visits. */
  ghost predicate AgreesAll(s: VState, r: Result<seq<Option<Ref>>, Error>, c: Result<VisitedAll, Error>) {
    match c
    case Ok(v) => r == Ok(v.rets) && s == v.st
    case Err(e) => r == Err(e)
  }

  /** Once one visit of a list fails, the whole list fails with the same error. */
  lemma {:induction false} CollectAllAborts(st: VState, ts: seq<Tree>, parent: Tree, i: nat, e: Error)
    requires Below(ts, parent) && i <= |ts| && CollectAll(st, ts[..i], parent) == Err(e)
    ensures CollectAll(st, ts, parent) == Err(e)
    decreases |ts|
  {
    if i < |ts| {
      var init := ts[..|ts| - 1];
      assert init[..i] == ts[..i];
      CollectAllAborts(st, init, parent, i, e);
    } else {
      assert ts[..i] == ts;
    }
  }

  /** Once one target fails, the whole assignment fails with the same error. */
  lemma {:induction false} AssignTargetsAborts(st: VState, targets: seq<Tree>, value: Option<Ref>, i: nat, e: Error)
    requires value.Some? ==> ValidRef(st.nodes, value.value)
    requires i <= |targets| && AssignTargets(st, targets[..i], value) == Err(e)
    ensures AssignTargets(st, targets, value) == Err(e)
    decreases |targets|
  {
    if i < |targets| {
      var init := targets[..|targets| - 1];
      assert init[..i] == targets[..i];
      AssignTargetsAborts(st, init, value, i, e);
    } else {
      assert targets[..i] == targets;
    }
  }

  /** One more visit of the list comprehension: it extends the results, or the whole list fails. */
  lemma CollectAllStep(st: VState, ts: seq<Tree>, parent: Tree, i: nat, mid: VState, rets: seq<Option<Ref>>)
    requires Below(ts, parent) && i < |ts| && CollectAll(st, ts[..i], parent) == Ok(VisitedAll(mid, rets))
    ensures match Collect(mid, ts[i])
            case Ok(v) => CollectAll(st, ts[..i + 1], parent) == Ok(VisitedAll(v.st, rets + [v.ret]))
            case Err(e) => CollectAll(st, ts, parent) == Err(e)
  {
    assert ts[..i + 1][..i] == ts[..i];
    if Collect(mid, ts[i]).Err? {
      CollectAllAborts(st, ts, parent, i + 1, Collect(mid, ts[i]).error);
    }
  }

  /** One more target of the assignment loop: it is stored, or the whole loop fails. */
  lemma AssignTargetsStep(st: VState, targets: seq<Tree>, value: Option<Ref>, i: nat, mid: VState)
    requires value.Some? ==> ValidRef(st.nodes, value.value)
    requires i < |targets| && AssignTargets(st, targets[..i], value) == Ok(mid)
    ensures value.Some? ==> ValidRef(mid.nodes, value.value)
    ensures match AssignValue(mid, targets[i], value)
            case Ok(p) => AssignTargets(st, targets[..i + 1], value) == Ok(p.st)
            case Err(e) => AssignTargets(st, targets, value) == Err(e)
  {
    assert targets[..i + 1][..i] == targets[..i];
    if value.Some? {
      ValidRefsKept(st.nodes, mid.nodes);
    }
    if AssignValue(mid, targets[i], value).Err? {
      AssignTargetsAborts(st, targets, value, i + 1, AssignValue(mid, targets[i], value).error);
    }
  }

  class ExpressionVisitor {
    /** `self.nodes`: syntax-node identity to the candidates created for it, in creation order. */
    var nodes: Candidates
    /** `self._fn_decl_visited` */
    var fnDeclVisited: bool

    /** `__init__`: an empty multimap, no function entered yet. */
    constructor ()
      ensures nodes == map[] && !fnDeclVisited
    {
      nodes := map[];
      fnDeclVisited := false;
    }

    function State(): VState
      reads this
    {
      VState(nodes, fnDeclVisited)
    }

    /** `self.nodes[c.ast_node].append(c)`; `at` names the appended candidate. */
    method Register(c: GraphNode) returns (at: Ref)
      modifies this
      ensures State() == Push(old(State()), c).st && at == Push(old(State()), c).at
      ensures Lookup(nodes, c.astNode.id) == Lookup(old(nodes), c.astNode.id) + [c]
      ensures UnchangedOutside(old(nodes), nodes, {c.astNode.id})
    {
      var k := c.astNode.id;
      at := Ref(k, |Lookup(nodes, k)|);
      nodes := nodes[k := Lookup(nodes, k) + [c]];
    }

    /** `mk_node`: a plain Node with no dependencies, appended under `t`'s key. */
    method MkNode(t: Tree) returns (at: Ref)
      modifies this
      ensures State() == Push(old(State()), Fresh(Node, t)).st && at == Push(old(State()), Fresh(Node, t)).at
    {
      at := Register(Fresh(Node, t));
    }

    /** `graph_node.depends_on += deps` on the candidate `g`, which lives in the multimap. */
    method Link(g: Ref, deps: seq<Option<Ref>>)
      requires ValidRef(nodes, g)
      modifies this
      ensures State() == AddDeps(old(State()), g, deps)
    {
      var c := nodes[g.key][g.index];
      nodes := nodes[g.key := nodes[g.key][g.index := c.(dependsOn := c.dependsOn + deps)]];
    }

    /** `assign_value` */
    method AssignValue(target: Tree, value: Option<Ref>) returns (r: Result<Ref, Error>)
      requires value.Some? ==> ValidRef(nodes, value.value)
      modifies this
      ensures match Traverser.AssignValue(old(State()), target, value)
              case Ok(p) => r == Ok(p.at) && State() == p.st
              case Err(e) => r == Err(e)
    {
      if target.Tuple? {
        return Err(UnsupportedTarget(target.id));
      }
      var at := MkNode(target);
      Link(at, [value]);
      return Ok(at);
    }

    /**
     * `visit`: dispatch on the class of `t` to its `visit_*` method, or to `generic_visit`
     * for a class without one. The dispatch is written in three parts: statements,
     * expressions with a visitor method, and the rest.
     */
    method Visit(t: Tree) returns (r: Result<Option<Ref>, Error>)
      modifies this
      ensures Agrees(State(), r, Collect(old(State()), t))
      decreases t, 4
    {
      if t.FunctionDef? || t.Assign? || t.AugAssign? || t.Return? || t.While? || t.If? || t.For? {
        r := VisitStatement(t);
      } else if t.BinOp? || t.BoolOp? || t.Compare? || t.Call? || t.Name? || t.Constant? || t.Num? {
        r := VisitExpression(t);
      } else {
        r := VisitRest(t);
      }
    }

    method VisitStatement(t: Tree) returns (r: Result<Option<Ref>, Error>)
      requires t.FunctionDef? || t.Assign? || t.AugAssign? || t.Return? || t.While? || t.If? || t.For?
      modifies this
      ensures Agrees(State(), r, Collect(old(State()), t))
      decreases t, 3
    {
      match t
      case FunctionDef(_, _, _, _, _, _) => r := VisitFunctionDef(t);
      case Assign(_, _, _) => r := VisitAssign(t);
      case AugAssign(_, _, _) => r := VisitAugAssign(t);
      case Return(_, _) => r := VisitReturn(t);
      case While(_, _, _, _) => r := VisitTested(t, t.test);
      case If(_, _, _, _) => r := VisitTested(t, t.test);
      case For(_, _, _, _, _) => r := VisitTested(t, t.iter);
    }

    method VisitExpression(t: Tree) returns (r: Result<Option<Ref>, Error>)
      requires t.BinOp? || t.BoolOp? || t.Compare? || t.Call? || t.Name? || t.Constant? || t.Num?
      modifies this
      ensures Agrees(State(), r, Collect(old(State()), t))
      decreases t, 3
    {
      match t
      case BinOp(_, _, _) => r := VisitBinOp(t);
      case BoolOp(_, _) => r := VisitBoolOp(t);
      case Compare(_, _, _, _) => r := VisitCompare(t);
      case Call(_, _, _, _) => r := VisitCall(t);
      case Name(_, _, _) => r := VisitName(t);
      case Constant(_, _) => r := VisitConstant(t);
      case Num(_, _) => r := VisitNum(t);
    }

    method VisitRest(t: Tree) returns (r: Result<Option<Ref>, Error>)
      requires t.Arguments? || t.Arg? || t.Tuple? || t.Other?
      modifies this
      ensures Agrees(State(), r, Collect(old(State()), t))
      decreases t, 3
    {
      match t
      case Arguments(_, _, _, _, _, _, _, _) => r := VisitArguments(t);
      case Arg(_, _, _) => r := VisitArg(t);
      case Tuple(_, _, _) => r := VisitOther(t);
      case Other(_, _, _) => r := VisitOther(t);
    }

    /** A class without a visitor method: `generic_visit`, and `visit` returns None. */
    method VisitOther(t: Tree) returns (r: Result<Option<Ref>, Error>)
      requires t.Tuple? || t.Other?
      modifies this
      ensures Agrees(State(), r, CollectGeneric(old(State()), t))
      decreases t, 2
    {
      var all := GenericVisit(t);
      if all.Err? {
        return Err(all.error);
      }
      return Ok(None);
    }

    /** `generic_visit`: visit every child in field order; the results are dropped. */
    method GenericVisit(t: Tree) returns (r: Result<(), Error>)
      modifies this
      ensures var c := CollectAll(old(State()), Children(t), t);
              (r.Ok? <==> c.Ok?) && (c.Ok? ==> State() == c.value.st) && (c.Err? ==> r == Err(c.error))
      decreases t, 1
    {
      var all := VisitAll(Children(t), t);
      if all.Err? {
        return Err(all.error);
      }
      return Ok(());
    }

    /** `[self.visit(it) for it in ts]` */
    method VisitAll(ts: seq<Tree>, ghost parent: Tree) returns (r: Result<seq<Option<Ref>>, Error>)
      requires Below(ts, parent)
      modifies this
      ensures AgreesAll(State(), r, CollectAll(old(State()), ts, parent))
      decreases parent, 0
    {
      ghost var st := State();
      var rets := [];
      var i := 0;
      while i < |ts|
        invariant 0 <= i <= |ts| && Below(ts[..i], parent)
        invariant CollectAll(st, ts[..i], parent) == Ok(VisitedAll(State(), rets))
      {
        CollectAllStep(st, ts, parent, i, State(), rets);
        var v := Visit(ts[i]);
        if v.Err? {
          return Err(v.error);
        }
        rets := rets + [v.value];
        i := i + 1;
      }
      assert ts[..i] == ts;
      return Ok(rets);
    }

    /** `visit_FunctionDef`: only the first function definition met is entered. */
    method VisitFunctionDef(t: Tree) returns (r: Result<Option<Ref>, Error>)
      requires t.FunctionDef?
      modifies this
      ensures Agrees(State(), r, CollectFunctionDef(old(State()), t))
      decreases t, 2
    {
      if fnDeclVisited {
        return Ok(None);
      }
      fnDeclVisited := true;
      var all := GenericVisit(t);
      if all.Err? {
        return Err(all.error);
      }
      return Ok(None);
    }

    /** `visit_arguments` */
    method VisitArguments(t: Tree) returns (r: Result<Option<Ref>, Error>)
      requires t.Arguments?
      modifies this
      ensures Agrees(State(), r, CollectArguments(old(State()), t))
      decreases t, 2
    {
      var all := VisitAll(t.args, t);
      if all.Err? {
        return Err(all.error);
      }
      return Ok(None);
    }

    /** `visit_arg` */
    method VisitArg(t: Tree) returns (r: Result<Option<Ref>, Error>)
      requires t.Arg?
      modifies this
      ensures Agrees(State(), r, CollectArg(old(State()), t))
      decreases t, 2
    {
      var at := Register(Fresh(ArgumentNode, t));
      return Ok(Some(at));
    }

    /** `visit_Assign` */
    method VisitAssign(t: Tree) returns (r: Result<Option<Ref>, Error>)
      requires t.Assign?
      modifies this
      ensures Agrees(State(), r, CollectAssign(old(State()), t))
      decreases t, 2
    {
      ghost var st := State();
      var at := MkNode(t);
      var value := Visit(t.value);
      if value.Err? {
        return Err(value.error);
      }
      Link(at, [value.value]);
      ghost var linked := State();
      assert Head(st, t, t.value) == Ok(Headed(linked, at, value.value));
      var i := 0;
      while i < |t.targets|
        invariant 0 <= i <= |t.targets|
        invariant AssignTargets(linked, t.targets[..i], value.value) == Ok(State())
      {
        AssignTargetsStep(linked, t.targets, value.value, i, State());
        var stored := AssignValue(t.targets[i], value.value);
        if stored.Err? {
          return Err(stored.error);
        }
        i := i + 1;
      }
      assert t.targets[..i] == t.targets;
      return Ok(Some(at));
    }

    /** `visit_AugAssign` */
    method VisitAugAssign(t: Tree) returns (r: Result<Option<Ref>, Error>)
      requires t.AugAssign?
      modifies this
      ensures Agrees(State(), r, CollectAugAssign(old(State()), t))
      decreases t, 2
    {
      ghost var st := State();
      var at := MkNode(t);
      var value := Visit(t.value);
      if value.Err? {
        return Err(value.error);
      }
      Link(at, [value.value]);
      ghost var h := Headed(State(), at, value.value);
      assert Head(st, t, t.value) == Ok(h);
      var stored := AssignValue(t.target, value.value);
      if stored.Err? {
        return Err(stored.error);
      }
      assert CollectAugAssign(st, t) == AugAssignTarget(st, t, at, State());
      var target := Visit(t.target);
      if target.Err? {
        return Err(target.error);
      }
      Link(at, [target.value]);
      return Ok(Some(at));
    }

    /** `visit_BinOp` */
    method VisitBinOp(t: Tree) returns (r: Result<Option<Ref>, Error>)
      requires t.BinOp?
      modifies this
      ensures Agrees(State(), r, CollectBinOp(old(State()), t))
      decreases t, 2
    {
      var at := MkNode(t);
      var lhs := Visit(t.left);
      if lhs.Err? {
        return Err(lhs.error);
      }
      var rhs := Visit(t.right);
      if rhs.Err? {
        return Err(rhs.error);
      }
      Link(at, [lhs.value, rhs.value]);
      return Ok(Some(at));
    }

    /** `visit_BoolOp` */
    method VisitBoolOp(t: Tree) returns (r: Result<Option<Ref>, Error>)
      requires t.BoolOp?
      modifies this
      ensures Agrees(State(), r, CollectBoolOp(old(State()), t))
      decreases t, 2
    {
      var at := MkNode(t);
      var values := VisitAll(t.values, t);
      if values.Err? {
        return Err(values.error);
      }
      Link(at, values.value);
      return Ok(Some(at));
    }

    /**
     * `visit_Compare`: the list comprehension over `node.ops`; visiting an operator object
     * finds no visitor method and no children, and returns None.
     */
    method VisitCompare(t: Tree) returns (r: Result<Option<Ref>, Error>)
      requires t.Compare?
      modifies this
      ensures Agrees(State(), r, CollectCompare(old(State()), t))
      decreases t, 2
    {
      var at := MkNode(t);
      var values: seq<Option<Ref>> := [];
      var i := 0;
      while i < |t.ops|
        invariant 0 <= i <= |t.ops| && |values| == i
        invariant forall j :: 0 <= j < i ==> values[j] == None
      {
        values := values + [None];
        i := i + 1;
      }
      assert values == OperatorVisits(t.ops);
      Link(at, values);
      return Ok(Some(at));
    }

    /** `visit_Call` */
    method VisitCall(t: Tree) returns (r: Result<Option<Ref>, Error>)
      requires t.Call?
      modifies this
      ensures Agrees(State(), r, CollectCall(old(State()), t))
      decreases t, 2
    {
      var func := Register(Fresh(ReferenceNode(None), t.func));
      var call := Register(Fresh(CallNode(func), t));
      var arguments := VisitAll(t.args + t.keywords, t);
      if arguments.Err? {
        return Err(arguments.error);
      }
      Link(call, arguments.value);
      return Ok(Some(call));
    }

    /** `visit_Return`; for a bare `return` the Node is added before `visit(None)` fails. */
    method VisitReturn(t: Tree) returns (r: Result<Option<Ref>, Error>)
      requires t.Return?
      modifies this
      ensures Agrees(State(), r, CollectReturn(old(State()), t))
      decreases t, 2
    {
      var at := MkNode(t);
      if t.result.None? {
        return Err(MissingChild(t.id));
      }
      var value := Visit(t.result.value);
      if value.Err? {
        return Err(value.error);
      }
      Link(at, [value.value]);
      return Ok(Some(at));
    }

    /** `visit_Name` */
    method VisitName(t: Tree) returns (r: Result<Option<Ref>, Error>)
      requires t.Name?
      modifies this
      ensures Agrees(State(), r, CollectName(old(State()), t))
      decreases t, 2
    {
      if t.ctx == Load {
        var at := Register(Fresh(ReferenceNode(None), t));
        return Ok(Some(at));
      } else if t.ctx == Store {
        var at := MkNode(t);
        return Ok(Some(at));
      } else {
        return Err(UnexpectedNameContext(t.id));
      }
    }

    /** `visit_Constant` */
    method VisitConstant(t: Tree) returns (r: Result<Option<Ref>, Error>)
      requires t.Constant?
      modifies this
      ensures Agrees(State(), r, CollectConstant(old(State()), t))
      decreases t, 2
    {
      var at := Register(Fresh(ConstantNode(t.literal), t));
      return Ok(Some(at));
    }

    /** `visit_Num` */
    method VisitNum(t: Tree) returns (r: Result<Option<Ref>, Error>)
      requires t.Num?
      modifies this
      ensures Agrees(State(), r, CollectNum(old(State()), t))
      decreases t, 2
    {
      var at := Register(Fresh(ConstantNode(IntLit(t.n)), t));
      return Ok(Some(at));
    }

    /**
     * `visit_While`, `visit_If` and `visit_For`, which have the same body: a Node depending on
     * the visit of `header` (the test or the iterable), then `generic_visit` of the whole node.
     */
    method VisitTested(t: Tree, header: Tree) returns (r: Result<Option<Ref>, Error>)
      requires ((t.While? || t.If?) && header == t.test) || (t.For? && header == t.iter)
      modifies this
      ensures Agrees(State(), r, CollectTested(old(State()), t, header))
      decreases t, 2
    {
      var at := MkNode(t);
      var test := Visit(header);
      if test.Err? {
        return Err(test.error);
      }
      Link(at, [test.value]);
      var all := GenericVisit(t);
      if all.Err? {
        return Err(all.error);
      }
      return Ok(Some(at));
    }
  }
}
