/**
 * The input of the analysis: the Python syntax tree of one function, as the standard `ast`
 * module produces it. Every node carries an `id` that stands for the node object's identity
 * (the analysis keys its maps by node objects). Only the node classes that the two visitors
 * treat specially have their own constructor; every other class (Expr, Attribute, Subscript,
 * keyword, Pass, ...) is an `Other` node with its child nodes in field order.
 *
 * Context objects (Load, Store, Del) and operator objects are folded into their parent as
 * enumerations: neither visitor registers anything for them, and the only place where
 * visiting one matters is `Compare.ops` (one entry per operator).
 */
module Syntax {
  import opened Wrappers

  type NodeId = nat

  datatype Ctx = Load | Store | Del

  datatype CmpOp = Eq | NotEq | Lt | LtE | Gt | GtE | Is | IsNot | In | NotIn

  /** The payload of a literal; floats, bytes and the rest are kept as their text. */
  datatype Literal = IntLit(i: int) | StrLit(s: string) | BoolLit(b: bool) | NoneLit | OtherLit(text: string)

  /** Fields appear in the order of the `_fields` of the Python class. */
  datatype Tree =
    | FunctionDef(id: NodeId, name: string, arguments: Tree, body: seq<Tree>, decorators: seq<Tree>, returnType: Option<Tree>)
    | Arguments(id: NodeId, posonlyargs: seq<Tree>, args: seq<Tree>, vararg: Option<Tree>, kwonlyargs: seq<Tree>,
                kwDefaults: seq<Tree>, kwarg: Option<Tree>, defaults: seq<Tree>)
    | Arg(id: NodeId, arg: string, annotation: Option<Tree>)
    | Assign(id: NodeId, targets: seq<Tree>, value: Tree)
    | AugAssign(id: NodeId, target: Tree, value: Tree)
    | BinOp(id: NodeId, left: Tree, right: Tree)
    | BoolOp(id: NodeId, values: seq<Tree>)
    | Compare(id: NodeId, left: Tree, ops: seq<CmpOp>, comparators: seq<Tree>)
    | Call(id: NodeId, func: Tree, args: seq<Tree>, keywords: seq<Tree>)
    | Return(id: NodeId, result: Option<Tree>)
    | Name(id: NodeId, name: string, ctx: Ctx)
    | Constant(id: NodeId, literal: Literal)
    | Num(id: NodeId, n: int)
    | While(id: NodeId, test: Tree, body: seq<Tree>, orelse: seq<Tree>)
    | If(id: NodeId, test: Tree, body: seq<Tree>, orelse: seq<Tree>)
    | For(id: NodeId, target: Tree, iter: Tree, body: seq<Tree>, orelse: seq<Tree>)
    | Tuple(id: NodeId, elts: seq<Tree>, ctx: Ctx)
    | Other(id: NodeId, kind: string, children: seq<Tree>)

  function Opt(o: Option<Tree>): (r: seq<Tree>)
    ensures forall c :: c in r ==> c < o
  {
    match o
    case None => []
    case Some(t) => [t]
  }

  /** The child nodes `ast.iter_child_nodes` yields (the order `generic_visit` visits them in). */
  function Children(t: Tree): (r: seq<Tree>)
    ensures forall c :: c in r ==> c < t
    ensures Below(r, t)
  {
    match t
    case FunctionDef(_, _, arguments, body, decorators, returnType) =>
      [arguments] + body + decorators + Opt(returnType)
    case Arguments(_, posonlyargs, args, vararg, kwonlyargs, kwDefaults, kwarg, defaults) =>
      posonlyargs + args + Opt(vararg) + kwonlyargs + kwDefaults + Opt(kwarg) + defaults
    case Arg(_, _, annotation) => Opt(annotation)
    case Assign(_, targets, value) => targets + [value]
    case AugAssign(_, target, value) => [target, value]
    case BinOp(_, left, right) => [left, right]
    case BoolOp(_, values) => values
    case Compare(_, left, _, comparators) => [left] + comparators
    case Call(_, func, args, keywords) => [func] + args + keywords
    case Return(_, result) => Opt(result)
    case Name(_, _, _) => []
    case Constant(_, _) => []
    case Num(_, _) => []
    case While(_, test, body, orelse) => [test] + body + orelse
    case If(_, test, body, orelse) => [test] + body + orelse
    case For(_, target, iter, body, orelse) => [target, iter] + body + orelse
    case Tuple(_, elts, _) => elts
    case Other(_, _, children) => children
  }

  /** Every tree of `ts` is a proper part of `parent` (the termination measure of the walks). */
  ghost predicate Below(ts: seq<Tree>, parent: Tree) {
    forall i :: 0 <= i < |ts| ==> ts[i] < parent
  }

  /** The node classes whose ExpressionVisitor method returns a graph node (all others return None). */
  predicate Produces(t: Tree) {
    !(t.FunctionDef? || t.Arguments? || t.Tuple? || t.Other?)
  }

  /**
   * The ids of `t` and of every node below it that is not enclosed by a function definition
   * nested inside `t` (the nested definition's own id is included, its interior is not).
   */
  function Outer(t: Tree): set<NodeId>
    decreases t, 1
  {
    {t.id} + if t.FunctionDef? then {} else OuterAll(Children(t), t)
  }

  function OuterAll(ts: seq<Tree>, ghost parent: Tree): set<NodeId>
    requires Below(ts, parent)
    decreases parent, 0, |ts|
  {
    if ts == [] then {}
    else
      var last := ts[|ts| - 1];
      OuterAll(ts[..|ts| - 1], parent) + Outer(last)
  }
}
