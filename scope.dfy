/**
 * The scope chain of Scope.py: every scope holds a table from names to `Node` records and a
 * link to its parent scope; a lookup walks up the links to the nearest scope that knows the
 * name, and a new name is written into one scope only.
 *
 * Scope objects live in an arena: a scope is its index in `ScopeArena.scopes`, and its parent
 * link is the index of the parent, always a smaller one, as a parent exists before its child.
 * Several children may share one parent, just as several Python scopes may hold the same
 * parent object; a name added to the parent is then seen from all of them.
 */
module Scopes {
  import opened Wrappers
  import opened Syntax

  /** The `Node` record of Scope.py: a name and the syntax node that introduced it. */
  datatype NameNode = NameNode(name: string, astNode: Tree)

  /** The fields of one `Scope` object. */
  datatype Frame = Frame(parent: Option<nat>, names: map<string, NameNode>)

  /** The exception `resolve_name` raises. */
  datatype ScopeError = NameNotResolved(name: string)

  /** Every parent link points at an earlier scope, and every table entry carries its own key. */
  ghost predicate Ordered(scopes: seq<Frame>) {
    forall i :: 0 <= i < |scopes| ==>
      (scopes[i].parent.Some? ==> scopes[i].parent.value < i) &&
      (forall n :: n in scopes[i].names ==> scopes[i].names[n].name == n)
  }

  /** The scope `s`, its parent, its parent's parent and so on up to a scope without a parent. */
  function Chain(scopes: seq<Frame>, s: nat): (c: seq<nat>)
    requires Ordered(scopes) && s < |scopes|
    ensures |c| >= 1 && c[0] == s
    ensures forall i :: 0 <= i < |c| ==> c[i] <= s
    decreases s
  {
    match scopes[s].parent
    case None => [s]
    case Some(p) => [s] + Chain(scopes, p)
  }

  /** What `resolve_name` returns, or raises, when called on the scope `s`. */
  function Resolve(scopes: seq<Frame>, s: nat, name: string): (r: Result<NameNode, ScopeError>)
    requires Ordered(scopes) && s < |scopes|
    ensures r.Ok? ==> r.value.name == name
    ensures r.Err? ==> r.error == NameNotResolved(name)
    decreases s
  {
    if name in scopes[s].names then Ok(scopes[s].names[name])
    else match scopes[s].parent
      case None => Err(NameNotResolved(name))
      case Some(p) => Resolve(scopes, p, name)
  }

  /** The arena after `add_name(name, node)` on the scope `s`. */
  function WithName(scopes: seq<Frame>, s: nat, name: string, node: Tree): (r: seq<Frame>)
    requires Ordered(scopes) && s < |scopes|
    ensures Ordered(r) && |r| == |scopes|
  {
    scopes[s := scopes[s].(names := scopes[s].names[name := NameNode(name, node)])]
  }

  /** All the Scope objects of a run. */
  class ScopeArena {
    var scopes: seq<Frame>

    ghost predicate Valid()
      reads this
    {
      Ordered(scopes)
    }

    constructor()
      ensures Valid() && scopes == []
    {
      scopes := [];
    }

    /** `Scope(parent)`: a new scope with an empty table. */
    method NewScope(parent: Option<nat>) returns (s: nat)
      requires Valid() && (parent.Some? ==> parent.value < |scopes|)
      modifies this
      ensures Valid()
      ensures s == |old(scopes)| && scopes == old(scopes) + [Frame(parent, map[])]
    {
      s := |scopes|;
      scopes := scopes + [Frame(parent, map[])];
    }

    /** `create_scope`: a new scope with an empty table whose parent is `s`. */
    method CreateScope(s: nat) returns (child: nat)
      requires Valid() && s < |scopes|
      modifies this
      ensures Valid()
      ensures child == |old(scopes)| && scopes == old(scopes) + [Frame(Some(s), map[])]
    {
      child := NewScope(Some(s));
    }

    /** `add_name`: the table of `s` maps `name` to a new record; every other entry and scope is kept. */
    method AddName(s: nat, name: string, node: Tree)
      requires Valid() && s < |scopes|
      modifies this
      ensures Valid()
      ensures scopes == WithName(old(scopes), s, name, node)
    {
      var frame := scopes[s];
      scopes := scopes[s := frame.(names := frame.names[name := NameNode(name, node)])];
    }

    /** `resolve_name`: walk up the parent links until a table holds `name`. */
    method ResolveName(s: nat, name: string) returns (r: Result<NameNode, ScopeError>)
      requires Valid() && s < |scopes|
      ensures r == Resolve(scopes, s, name)
    {
      var scope: Option<nat> := Some(s);
      while scope.Some? && name !in scopes[scope.value].names
        invariant scope.Some? ==> scope.value < |scopes|
        invariant Resolve(scopes, s, name) == if scope.None? then Err(NameNotResolved(name)) else Resolve(scopes, scope.value, name)
        decreases if scope.None? then 0 else scope.value + 1
      {
        scope := scopes[scope.value].parent;
      }
      if scope.None? || name !in scopes[scope.value].names {
        return Err(NameNotResolved(name));
      }
      return Ok(scopes[scope.value].names[name]);
    }
  }

  /** The lookup finds the entry of the first scope up the chain whose table holds the name. */
  lemma {:induction false} ResolveNearest(scopes: seq<Frame>, s: nat, name: string, j: nat)
    requires Ordered(scopes) && s < |scopes|
    requires j < |Chain(scopes, s)| && name in scopes[Chain(scopes, s)[j]].names
    requires forall i :: 0 <= i < j ==> name !in scopes[Chain(scopes, s)[i]].names
    ensures Resolve(scopes, s, name) == Ok(scopes[Chain(scopes, s)[j]].names[name])
    decreases s
  {
    var c := Chain(scopes, s);
    if j > 0 {
      assert name !in scopes[c[0]].names;
      var p := scopes[s].parent.value;
      assert c == [s] + Chain(scopes, p);
      forall i | 0 <= i < j - 1 ensures name !in scopes[Chain(scopes, p)[i]].names {
        assert Chain(scopes, p)[i] == c[i + 1];
      }
      assert Chain(scopes, p)[j - 1] == c[j];
      ResolveNearest(scopes, p, name, j - 1);
    }
  }

  /** The lookup fails exactly when no scope up the chain holds the name. */
  lemma {:induction false} ResolveFails(scopes: seq<Frame>, s: nat, name: string)
    requires Ordered(scopes) && s < |scopes|
    ensures Resolve(scopes, s, name).Err? <==>
              forall i :: 0 <= i < |Chain(scopes, s)| ==> name !in scopes[Chain(scopes, s)[i]].names
    decreases s
  {
    var c := Chain(scopes, s);
    if name !in scopes[s].names && scopes[s].parent.Some? {
      var p := scopes[s].parent.value;
      ResolveFails(scopes, p, name);
      assert c == [s] + Chain(scopes, p);
      assert forall i :: 0 <= i < |Chain(scopes, p)| ==> Chain(scopes, p)[i] == c[i + 1];
      forall i | 0 <= i < |c| && name in scopes[c[i]].names ensures Resolve(scopes, s, name).Ok? {
        assert i > 0 && c[i] == Chain(scopes, p)[i - 1];
      }
      if forall i :: 0 <= i < |Chain(scopes, p)| ==> name !in scopes[Chain(scopes, p)[i]].names {
        forall i | 0 <= i < |c| ensures name !in scopes[c[i]].names {
          if i > 0 {
            assert c[i] == Chain(scopes, p)[i - 1];
          }
        }
      }
    }
  }

  /** A name added to `t` is what the lookup from `t` finds. */
  lemma AddedIsFound(scopes: seq<Frame>, t: nat, name: string, node: Tree)
    requires Ordered(scopes) && t < |scopes|
    ensures Resolve(WithName(scopes, t, name, node), t, name) == Ok(NameNode(name, node))
  {
  }

  /** Adding a name to `t` changes no lookup from a scope whose chain does not pass `t`. */
  lemma {:induction false} AddedElsewhere(scopes: seq<Frame>, t: nat, name: string, node: Tree, s: nat, x: string)
    requires Ordered(scopes) && t < |scopes| && s < |scopes|
    requires t !in Chain(scopes, s)
    ensures Resolve(WithName(scopes, t, name, node), s, x) == Resolve(scopes, s, x)
    decreases s
  {
    var after := WithName(scopes, t, name, node);
    assert after[s] == scopes[s];
    if x !in scopes[s].names && scopes[s].parent.Some? {
      var p := scopes[s].parent.value;
      assert Chain(scopes, s) == [s] + Chain(scopes, p);
      AddedElsewhere(scopes, t, name, node, p, x);
    }
  }

  /** Adding `name` to a scope changes no lookup of another name. */
  lemma {:induction false} AddedOtherName(scopes: seq<Frame>, t: nat, name: string, node: Tree, s: nat, x: string)
    requires Ordered(scopes) && t < |scopes| && s < |scopes| && x != name
    ensures Resolve(WithName(scopes, t, name, node), s, x) == Resolve(scopes, s, x)
    decreases s
  {
    var after := WithName(scopes, t, name, node);
    assert after[s].parent == scopes[s].parent;
    assert x in after[s].names <==> x in scopes[s].names;
    if x in scopes[s].names {
      assert after[s].names[x] == scopes[s].names[x];
    } else if scopes[s].parent.Some? {
      AddedOtherName(scopes, t, name, node, scopes[s].parent.value, x);
    }
  }

  /** A new scope leaves every lookup from the existing ones as it was. */
  lemma {:induction false} NewScopeKeeps(scopes: seq<Frame>, f: Frame, s: nat, x: string)
    requires Ordered(scopes) && Ordered(scopes + [f]) && s < |scopes|
    ensures Resolve(scopes + [f], s, x) == Resolve(scopes, s, x)
    decreases s
  {
    assert (scopes + [f])[s] == scopes[s];
    if x !in scopes[s].names && scopes[s].parent.Some? {
      NewScopeKeeps(scopes, f, scopes[s].parent.value, x);
    }
  }

  /** A scope fresh from `create_scope` resolves every name as its parent does. */
  lemma CreatedDefers(scopes: seq<Frame>, s: nat, x: string)
    requires Ordered(scopes) && s < |scopes|
    ensures Ordered(scopes + [Frame(Some(s), map[])])
    ensures Resolve(scopes + [Frame(Some(s), map[])], |scopes|, x) == Resolve(scopes, s, x)
  {
    NewScopeKeeps(scopes, Frame(Some(s), map[]), s, x);
  }

  /**
   * Shadowing: once the child `c` of `p` adds a name, the lookup from `c` finds the child's
   * entry while the lookup from `p` still finds what it found before.
   */
  lemma Shadowing(scopes: seq<Frame>, p: nat, c: nat, name: string, node: Tree)
    requires Ordered(scopes) && c < |scopes| && scopes[c].parent == Some(p)
    ensures Resolve(WithName(scopes, c, name, node), c, name) == Ok(NameNode(name, node))
    ensures Resolve(WithName(scopes, c, name, node), p, name) == Resolve(scopes, p, name)
  {
    AddedElsewhere(scopes, c, name, node, p, name);
  }
}
