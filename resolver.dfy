/**
 * ReferenceResolver (analyze.py:151-173): a second walk over the whole function, from the
 * top, that keeps a flat table from names to the node that last bound them and stops at
 * the one Load the walk is looking for.
 *
 * The walk reduces to a list of events in walk order (`Events`): a parameter or a Store name
 * binds its name, a Load name reads it. Parameters do not have their annotation visited,
 * since `visit_arg` does not continue into its children. Every other class goes through
 * `generic_visit`, nested function definitions included. `Run` folds the events over the
 * resolver's fields; the class below performs the walk in place and is proved to agree with it.
 */
module Resolver {
  import opened Wrappers
  import opened Syntax

  /** What `visit_arg` and `visit_Name` act on. */
  datatype Event = Bind(name: string, node: NodeId) | Read(name: string, node: NodeId)

  /** The events of the walk of `t`, in the order the walk meets them. */
  function Events(t: Tree): seq<Event>
    decreases t, 1
  {
    match t
    case Arg(id, arg, _) => [Bind(arg, id)]
    case Name(id, name, ctx) =>
      if ctx == Store then [Bind(name, id)] else if ctx == Load then [Read(name, id)] else []
    case _ => EventsAll(Children(t), t)
  }

  function EventsAll(ts: seq<Tree>, ghost parent: Tree): seq<Event>
    requires Below(ts, parent)
    decreases parent, 0, |ts|
  {
    if ts == [] then []
    else EventsAll(ts[..|ts| - 1], parent) + Events(ts[|ts| - 1])
  }

  /** The fields `names`, `resolved_node` and `continue_resolution`. */
  datatype RState = RState(names: map<string, NodeId>, resolved: Option<NodeId>, cont: bool)

  /** The fields as `__init__` sets them. */
  const Initial := RState(map[], None, true)

  /** One event, looking for the Load `target`; nothing happens once the walk has stopped. */
  function Step(target: NodeId, s: RState, e: Event): RState {
    if !s.cont then s
    else
      match e
      case Bind(name, node) => s.(names := s.names[name := node])
      case Read(name, node) =>
        if node == target then
          s.(resolved := if name in s.names then Some(s.names[name]) else None, cont := false)
        else s
  }

  function Run(target: NodeId, s: RState, evs: seq<Event>): RState
    decreases |evs|
  {
    if evs == [] then s
    else Step(target, Run(target, s, evs[..|evs| - 1]), evs[|evs| - 1])
  }

  /** The node that bound `name` last in `evs`, if any: the reference definition of a resolution. */
  function LastWriter(evs: seq<Event>, name: string): (r: Option<NodeId>)
    ensures r.Some? <==> exists i :: 0 <= i < |evs| && evs[i] == Bind(name, evs[i].node)
    decreases |evs|
  {
    if evs == [] then None
    else
      var last := evs[|evs| - 1];
      var init := evs[..|evs| - 1];
      var r := if last.Bind? && last.name == name then Some(last.node) else LastWriter(init, name);
      assert r.Some? <==> exists i :: 0 <= i < |evs| && evs[i] == Bind(name, evs[i].node) by {
        if r.Some? && !(last.Bind? && last.name == name) {
          var i :| 0 <= i < |init| && init[i] == Bind(name, init[i].node);
          assert evs[i] == init[i];
        }
        if !r.Some? {
          forall i | 0 <= i < |evs| ensures evs[i] != Bind(name, evs[i].node) {
            if i < |init| {
              assert evs[i] == init[i];
            }
          }
        }
      }
      r
  }

  /** `evs` holds no Load of `target`. */
  predicate Unread(evs: seq<Event>, target: NodeId) {
    forall i :: 0 <= i < |evs| ==> !(evs[i].Read? && evs[i].node == target)
  }

  lemma {:induction false} RunConcat(target: NodeId, s: RState, a: seq<Event>, b: seq<Event>)
    ensures Run(target, s, a + b) == Run(target, Run(target, s, a), b)
    decreases |b|
  {
    if b != [] {
      assert (a + b)[..|a + b| - 1] == a + b[..|b| - 1];
      RunConcat(target, s, a, b[..|b| - 1]);
    } else {
      assert a + b == a;
    }
  }

  /** Once the walk has stopped, nothing changes any more: the walk visits nothing after the target. */
  lemma {:induction false} RunHalted(target: NodeId, s: RState, evs: seq<Event>)
    requires !s.cont
    ensures Run(target, s, evs) == s
    decreases |evs|
  {
    if evs != [] {
      RunHalted(target, s, evs[..|evs| - 1]);
    }
  }

  /** Before the target is read, the walk goes on and the table holds the last writer of every name. */
  lemma {:induction false} RunUnread(target: NodeId, evs: seq<Event>)
    requires Unread(evs, target)
    ensures var s := Run(target, Initial, evs);
            s.cont && s.resolved.None? &&
            forall name :: (if name in s.names then Some(s.names[name]) else None) == LastWriter(evs, name)
    decreases |evs|
  {
    if evs != [] {
      var init := evs[..|evs| - 1];
      assert Unread(init, target) by {
        forall i | 0 <= i < |init| ensures !(init[i].Read? && init[i].node == target) {
          assert init[i] == evs[i];
        }
      }
      RunUnread(target, init);
      assert !(evs[|evs| - 1].Read? && evs[|evs| - 1].node == target);
    }
  }

  /**
   * The resolution: when the first Load of `target` is the `j`-th event, a read of `name`,
   * the walk ends there with the last writer of `name` before it (None when there is none),
   * and whatever follows the read changes nothing.
   */
  lemma Resolves(target: NodeId, evs: seq<Event>, j: nat, name: string)
    requires j < |evs| && evs[j] == Read(name, target) && Unread(evs[..j], target)
    ensures Run(target, Initial, evs) == Run(target, Initial, evs[..j + 1])
    ensures Run(target, Initial, evs).resolved == LastWriter(evs[..j], name)
    ensures !Run(target, Initial, evs).cont
  {
    RunUnread(target, evs[..j]);
    assert evs[..j + 1][..j] == evs[..j];
    var stop := Run(target, Initial, evs[..j + 1]);
    RunHalted(target, stop, evs[j + 1..]);
    assert evs == evs[..j + 1] + evs[j + 1..];
    RunConcat(target, Initial, evs[..j + 1], evs[j + 1..]);
  }

  /** A walk that never meets the target leaves it unresolved, without any error. */
  lemma NeverRead(target: NodeId, evs: seq<Event>)
    requires Unread(evs, target)
    ensures Run(target, Initial, evs).resolved.None? && Run(target, Initial, evs).cont
  {
    RunUnread(target, evs);
  }

  /** What the resolver finds for the Load `target` when it walks `scope`. */
  function Resolution(target: NodeId, scope: Tree): Option<NodeId> {
    Run(target, Initial, Events(scope)).resolved
  }

  /** `x = x + 1` (ids 2 to 6), the body of `SelfAssignment`. */
  function Increment(): Tree {
    Assign(2, [Name(3, "x", Store)], BinOp(4, Name(5, "x", Load), Num(6, 1)))
  }

  /** `def f(x): x = x + 1`, with the parameter's id 7. */
  function SelfAssignment(): Tree {
    FunctionDef(0, "f", Arguments(1, [], [Arg(7, "x", None)], None, [], [], None, []), [Increment()], [], None)
  }

  /** Assign lists `targets` before `value`: the walk binds the target before it reads the right-hand side. */
  lemma IncrementEvents()
    ensures Events(Increment()) == [Bind("x", 3), Read("x", 5)]
  {
    var sum := BinOp(4, Name(5, "x", Load), Num(6, 1));
    SumEvents();
    var targets := [Name(3, "x", Store), sum];
    assert EventsAll(targets, Increment()) == EventsAll(targets[..1], Increment()) + Events(sum);
    assert EventsAll(targets[..1], Increment()) == EventsAll([], Increment()) + Events(Name(3, "x", Store));
  }

  lemma SumEvents()
    ensures Events(BinOp(4, Name(5, "x", Load), Num(6, 1))) == [Read("x", 5)]
  {
    var sum := BinOp(4, Name(5, "x", Load), Num(6, 1));
    assert EventsAll([Name(5, "x", Load), Num(6, 1)], sum) == EventsAll([Name(5, "x", Load)], sum) + Events(Num(6, 1));
    assert EventsAll([Name(5, "x", Load)], sum) == EventsAll([], sum) + Events(Name(5, "x", Load));
  }

  lemma SelfAssignmentEvents()
    ensures Events(SelfAssignment()) == [Bind("x", 7), Bind("x", 3), Read("x", 5)]
  {
    var arguments := Arguments(1, [], [Arg(7, "x", None)], None, [], [], None, []);
    assert EventsAll([Arg(7, "x", None)], arguments) == EventsAll([], arguments) + Events(Arg(7, "x", None));
    IncrementEvents();
    var children := [arguments, Increment()];
    assert Children(SelfAssignment()) == children;
    assert EventsAll(children, SelfAssignment()) == EventsAll(children[..1], SelfAssignment()) + Events(Increment());
    assert EventsAll(children[..1], SelfAssignment()) == EventsAll([], SelfAssignment()) + Events(arguments);
  }

  /**
   * In `def f(x): x = x + 1` the read of `x` resolves to the assignment's own target (id 3),
   * not to the parameter (id 7).
   */
  lemma SelfAssignmentReadsItsTarget()
    ensures Resolution(5, SelfAssignment()) == Some(3)
  {
    SelfAssignmentEvents();
    var first := [Bind("x", 7)];
    var both := first + [Bind("x", 3)];
    var evs := both + [Read("x", 5)];
    assert first[..0] == [] && both[..1] == first && evs[..2] == both;
    assert Run(5, Initial, first) == RState(map["x" := 7], None, true);
    assert Run(5, Initial, both) == RState(map["x" := 3], None, true);
    assert evs == [Bind("x", 7), Bind("x", 3), Read("x", 5)];
  }

  /** Walking one more child continues from where the walk of the earlier children stopped. */
  lemma WalkStep(target: NodeId, s: RState, ts: seq<Tree>, parent: Tree, i: nat)
    requires Below(ts, parent) && i < |ts|
    ensures Run(target, s, EventsAll(ts[..i + 1], parent)) ==
            Run(target, Run(target, s, EventsAll(ts[..i], parent)), Events(ts[i]))
  {
    assert ts[..i + 1][..i] == ts[..i];
    assert EventsAll(ts[..i + 1], parent) == EventsAll(ts[..i], parent) + Events(ts[i]);
    RunConcat(target, s, EventsAll(ts[..i], parent), Events(ts[i]));
  }

  class ReferenceResolver {
    /** `self.target_node`, by identity. */
    const targetNode: NodeId
    /** `self.names`: name to the node that bound it last. */
    var names: map<string, NodeId>
    /** `self.resolved_node` */
    var resolvedNode: Option<NodeId>
    /** `self.continue_resolution` */
    var continueResolution: bool

    constructor (target: NodeId)
      ensures targetNode == target && names == map[] && resolvedNode == None && continueResolution
    {
      targetNode := target;
      names := map[];
      resolvedNode := None;
      continueResolution := true;
    }

    function State(): RState
      reads this
    {
      RState(names, resolvedNode, continueResolution)
    }

    /** `visit`: nothing at all once the resolution is over, otherwise the method for `t`'s class. */
    method Visit(t: Tree)
      modifies this
      ensures State() == Run(targetNode, old(State()), Events(t))
      decreases t, 2
    {
      if !continueResolution {
        RunHalted(targetNode, State(), Events(t));
        return;
      }
      match t
      case Arg(_, _, _) => VisitArg(t);
      case Name(_, _, _) => VisitName(t);
      case _ => GenericVisit(t);
    }

    /** `visit_arg`: the parameter binds its name. */
    method VisitArg(t: Tree)
      requires t.Arg?
      modifies this
      ensures names == old(names)[t.arg := t.id]
      ensures resolvedNode == old(resolvedNode) && continueResolution == old(continueResolution)
    {
      names := names[t.arg := t.id];
    }

    /** `visit_Name`: a Store binds the name; the target Load ends the resolution with the name's entry. */
    method VisitName(t: Tree)
      requires t.Name? && continueResolution
      modifies this
      ensures State() == Run(targetNode, old(State()), Events(t))
    {
      if t.ctx == Store {
        names := names[t.name := t.id];
      } else if t.ctx == Load && targetNode == t.id {
        resolvedNode := if t.name in names then Some(names[t.name]) else None;
        continueResolution := false;
      }
    }

    /** `generic_visit`: visit every child in field order. */
    method GenericVisit(t: Tree)
      modifies this
      ensures State() == Run(targetNode, old(State()), EventsAll(Children(t), t))
      decreases t, 1
    {
      ghost var s := State();
      var children := Children(t);
      var i := 0;
      while i < |children|
        invariant 0 <= i <= |children|
        invariant State() == Run(targetNode, s, EventsAll(children[..i], t))
      {
        var child := children[i];
        assert child < t by {
          assert child in children;
        }
        ghost var before := State();
        Visit(child);
        WalkStep(targetNode, s, children, t, i);
        assert State() == Run(targetNode, before, Events(child));
        i := i + 1;
      }
      assert children[..i] == children;
    }
  }
}
