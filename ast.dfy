/** The syntax tree the code generator walks: one constructor per node kind
    that a `visit_*` handler of modules/generator.py reads, with the fields
    that handler reads. The tree is built and checked upstream; `WellFormed`
    states the shape facts the handlers rely on without checking them. */
module Ast {

  datatype Option<+T> = None | Some(value: T)

  datatype Node =
    | Block(nodes: seq<Node>)
    | Var(nodes: seq<Node>)
    | Decl(typ: Node, id: Node)
    | ArrayDecl(typ: Node, id: Node, startIndex: Node, endIndex: Node)
    | Assign(id: Node, expr: Node)
    | BinOp(first: Node, symbol: string, second: Node)
    | Id(value: string)
    | Int(number: int)
    | String(value: string)
    | Char(value: string)
    | Type(value: string)
    | For(start: Node, end: Node, block: Node)
    | If(cond: Node, onTrue: Node, onFalse: Option<Node>)
    | Proc(id: Node, params: Option<Node>, variables: Option<Node>, block: Node)
    | Params(decls: seq<Node>)
    | FuncProcCall(id: Node, args: Node)
    | Args(exprs: seq<Node>)
    | Exit
    | ArrayElem(id: Node, index: Node)

  /** The root of the tree. It is a type of its own, so a program can never
      appear below another node. */
  datatype Program = Program(nodes: seq<Node>)

  /** `String` and `Char` arguments go into a `printf` format string verbatim;
      every other argument becomes a `%d` placeholder. */
  predicate IsLiteral(n: Node) {
    n.String? || n.Char?
  }

  /** The top-level nodes that open the synthesized `main`. */
  predicate IsEntry(n: Node) {
    n.Var? || n.Block?
  }

  /** The shapes the parser builds, which the handlers rely on without
      checking them: a `for` starts with an assignment, array bounds are
      integer literals, a call names an identifier and carries an argument
      list, and every parameter is a declaration. */
  predicate WellFormed(n: Node) {
    match n
    case Block(ns) => forall i | 0 <= i < |ns| :: WellFormed(ns[i])
    case Var(ns) => forall i | 0 <= i < |ns| :: WellFormed(ns[i])
    case Decl(t, id) => WellFormed(t) && WellFormed(id)
    case ArrayDecl(t, id, s, e) => WellFormed(t) && WellFormed(id) && s.Int? && e.Int?
    case Assign(id, e) => WellFormed(id) && WellFormed(e)
    case BinOp(a, _, b) => WellFormed(a) && WellFormed(b)
    case Id(_) => true
    case Int(_) => true
    case String(_) => true
    case Char(_) => true
    case Type(_) => true
    case For(start, end, block) =>
      start.Assign? && WellFormed(start) && WellFormed(end) && WellFormed(block)
    case If(c, t, f) =>
      WellFormed(c) && WellFormed(t) && (f.Some? ==> WellFormed(f.value))
    case Proc(id, ps, vs, b) =>
      WellFormed(id) && (ps.Some? ==> WellFormed(ps.value)) &&
      (vs.Some? ==> WellFormed(vs.value)) && WellFormed(b)
    case Params(ds) =>
      forall i | 0 <= i < |ds| :: (ds[i].Decl? || ds[i].ArrayDecl?) && WellFormed(ds[i])
    case FuncProcCall(id, args) => id.Id? && args.Args? && WellFormed(args)
    case Args(es) => forall i | 0 <= i < |es| :: WellFormed(es[i])
    case Exit => true
    case ArrayElem(id, idx) => WellFormed(id) && WellFormed(idx)
  }

  predicate WellFormedProgram(p: Program) {
    forall i | 0 <= i < |p.nodes| :: WellFormed(p.nodes[i])
  }

  predicate BraceFree(s: string) {
    '{' !in s && '}' !in s
  }

  /** Every piece of text the tree carries (names, literals, operator
      symbols) is free of curly braces, so that every brace in the output
      comes from a scope the generator opened or closed. */
  predicate BraceFreeLeaves(n: Node) {
    match n
    case Block(ns) => forall i | 0 <= i < |ns| :: BraceFreeLeaves(ns[i])
    case Var(ns) => forall i | 0 <= i < |ns| :: BraceFreeLeaves(ns[i])
    case Decl(t, id) => BraceFreeLeaves(t) && BraceFreeLeaves(id)
    case ArrayDecl(t, id, s, e) => BraceFreeLeaves(t) && BraceFreeLeaves(id)
    case Assign(id, e) => BraceFreeLeaves(id) && BraceFreeLeaves(e)
    case BinOp(a, sym, b) => BraceFreeLeaves(a) && BraceFree(sym) && BraceFreeLeaves(b)
    case Id(v) => BraceFree(v)
    case Int(_) => true
    case String(v) => BraceFree(v)
    case Char(v) => BraceFree(v)
    case Type(v) => BraceFree(v)
    case For(start, end, block) =>
      BraceFreeLeaves(start) && BraceFreeLeaves(end) && BraceFreeLeaves(block)
    case If(c, t, f) =>
      BraceFreeLeaves(c) && BraceFreeLeaves(t) && (f.Some? ==> BraceFreeLeaves(f.value))
    case Proc(id, ps, vs, b) =>
      BraceFreeLeaves(id) && (ps.Some? ==> BraceFreeLeaves(ps.value)) &&
      (vs.Some? ==> BraceFreeLeaves(vs.value)) && BraceFreeLeaves(b)
    case Params(ds) => forall i | 0 <= i < |ds| :: BraceFreeLeaves(ds[i])
    case FuncProcCall(id, args) => BraceFreeLeaves(id) && BraceFreeLeaves(args)
    case Args(es) => forall i | 0 <= i < |es| :: BraceFreeLeaves(es[i])
    case Exit => true
    case ArrayElem(id, idx) => BraceFreeLeaves(id) && BraceFreeLeaves(idx)
  }
}
