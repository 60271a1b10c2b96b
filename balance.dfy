/** Curly braces in the generated C text. Every `{` the generator writes
    comes from `open_scope` and every `}` from `close_scope`; as long as the
    names and literals of the tree carry no braces themselves, the text of
    every node is balanced, and the text of a program is balanced exactly
    when `main` was opened. */
module Balance {
  import opened Ast
  import opened Emitter
  import Normalize

  /** How many times `c` occurs in `s`. */
  function Occurrences(s: string, c: char): nat {
    if s == [] then 0 else Occurrences(s[..|s| - 1], c) + (if s[|s| - 1] == c then 1 else 0)
  }

  /** Opening braces minus closing braces. */
  function BraceBalance(s: string): int {
    Occurrences(s, '{') - Occurrences(s, '}')
  }

  lemma {:induction false} OccurrencesMultiset(s: string, c: char)
    ensures Occurrences(s, c) == multiset(s)[c]
  {
    if s != [] {
      OccurrencesMultiset(s[..|s| - 1], c);
      assert s == s[..|s| - 1] + [s[|s| - 1]];
    }
  }

  lemma BalanceMultiset(s: string)
    ensures BraceBalance(s) == multiset(s)['{'] as int - multiset(s)['}'] as int
  {
    OccurrencesMultiset(s, '{');
    OccurrencesMultiset(s, '}');
  }

  lemma BraceFreeBalance(s: string)
    requires BraceFree(s)
    ensures BraceBalance(s) == 0
  {
    BalanceMultiset(s);
    assert '{' !in multiset(s) && '}' !in multiset(s);
  }

  lemma Join2(a: string, b: string)
    ensures BraceBalance(a + b) == BraceBalance(a) + BraceBalance(b)
  {
    BalanceMultiset(a + b);
    BalanceMultiset(a);
    BalanceMultiset(b);
  }

  lemma Join3(a: string, b: string, c: string)
    ensures BraceBalance(a + b + c) == BraceBalance(a) + BraceBalance(b) + BraceBalance(c)
  {
    Join2(a, b);
    Join2(a + b, c);
  }

  lemma Join4(a: string, b: string, c: string, d: string)
    ensures BraceBalance(a + b + c + d) == BraceBalance(a) + BraceBalance(b) + BraceBalance(c) + BraceBalance(d)
  {
    Join3(a, b, c);
    Join2(a + b + c, d);
  }

  lemma Join5(a: string, b: string, c: string, d: string, e: string)
    ensures BraceBalance(a + b + c + d + e) ==
      BraceBalance(a) + BraceBalance(b) + BraceBalance(c) + BraceBalance(d) + BraceBalance(e)
  {
    Join4(a, b, c, d);
    Join2(a + b + c + d, e);
  }

  lemma Join6(a: string, b: string, c: string, d: string, e: string, f: string)
    ensures BraceBalance(a + b + c + d + e + f) ==
      BraceBalance(a) + BraceBalance(b) + BraceBalance(c) + BraceBalance(d) + BraceBalance(e) + BraceBalance(f)
  {
    Join5(a, b, c, d, e);
    Join2(a + b + c + d + e, f);
  }

  lemma Join7(a: string, b: string, c: string, d: string, e: string, f: string, g: string)
    ensures BraceBalance(a + b + c + d + e + f + g) ==
      BraceBalance(a) + BraceBalance(b) + BraceBalance(c) + BraceBalance(d) + BraceBalance(e) +
      BraceBalance(f) + BraceBalance(g)
  {
    Join6(a, b, c, d, e, f);
    Join2(a + b + c + d + e + f, g);
  }

  lemma ScopeTextsBalance(level: int)
    ensures BraceBalance(OpenText(level)) == 1
    ensures BraceBalance(CloseText(level)) == -1
  {
    BalanceMultiset("{");
    BalanceMultiset("}");
    BraceFreeBalance("\n");
    IndentBraceFree(level);
    IndentBraceFree(level - 1);
    BraceFreeBalance(Indent(level));
    BraceFreeBalance(Indent(level - 1));
    Join3(Indent(level), "{", "\n");
    Join3(Indent(level - 1), "}", "\n");
  }

  /** The text of a node has as many `}` as `{`. */
  lemma {:induction false} EmitBalanced(n: Node, level: int)
    requires WellFormed(n) && BraceFreeLeaves(n)
    ensures BraceBalance(Emit(n, level)) == 0
    decreases n, 2
  {
    match n
    case Block(ns) => BlockItemsBalanced(ns, level);
    case Var(ns) => VarBalanced(n, level);
    case Decl(_, _) => DeclBalanced(n, level);
    case ArrayDecl(_, _, _, _) => DeclBalanced(n, level);
    case Assign(_, _) => AssignBalanced(n, level);
    case BinOp(_, _, _) => BinOpBalanced(n, level);
    case Id(_) => LeafBalanced(n, level);
    case Int(_) => LeafBalanced(n, level);
    case String(_) => LeafBalanced(n, level);
    case Char(_) => LeafBalanced(n, level);
    case Type(_) => LeafBalanced(n, level);
    case For(_, _, _) => ForBalanced(n, level);
    case If(_, _, _) => IfBalanced(n, level);
    case Proc(_, _, _, _) => ProcBalanced(n, level);
    case Params(ds) => ParamItemsBalanced(ds, level);
    case FuncProcCall(_, _) => CallStatementBalanced(n, level);
    case Args(es) => ArgItemsBalanced(es, level);
    case Exit => LeafBalanced(n, level);
    case ArrayElem(_, _) => ArrayElemBalanced(n, level);
  }

  lemma LeafBalanced(n: Node, level: int)
    requires (n.Id? || n.Int? || n.String? || n.Char? || n.Type? || n.Exit?) && BraceFreeLeaves(n)
    ensures BraceBalance(Emit(n, level)) == 0
  {
    match n
    case Id(v) => BraceFreeBalance(v);
    case Int(x) => BraceFreeBalance(IntToString(x));
    case String(v) =>
      BraceFreeBalance(v);
      BraceFreeBalance("\"");
      Join3("\"", v, "\"");
    case Char(v) =>
      BraceFreeBalance(v);
      BraceFreeBalance("'");
      Join3("'", v, "'");
    case Type(v) => BraceFreeBalance(TypeName(v));
    case Exit => BraceFreeBalance("return;");
  }

  lemma {:induction false} VarBalanced(n: Node, level: int)
    requires n.Var? && WellFormed(n) && BraceFreeLeaves(n)
    ensures BraceBalance(Emit(n, level)) == 0
    decreases n, 1
  {
    VarItemsBalanced(n.nodes, level);
    BraceFreeBalance("\n");
    Join2(VarItems(n.nodes, level), "\n");
  }

  lemma {:induction false} DeclBalanced(n: Node, level: int)
    requires (n.Decl? || n.ArrayDecl?) && WellFormed(n) && BraceFreeLeaves(n)
    ensures BraceBalance(Emit(n, level)) == 0
    decreases n, 1
  {
    var t, id := Emit(n.typ, level), Emit(n.id, level);
    EmitBalanced(n.typ, level);
    EmitBalanced(n.id, level);
    BraceFreeBalance(" ");
    BraceFreeBalance(";");
    if n.Decl? {
      Join4(t, " ", id, ";");
    } else {
      var size := IntToString(ArraySize(n.startIndex.number, n.endIndex.number));
      BraceFreeBalance(size);
      BraceFreeBalance("[");
      BraceFreeBalance("]");
      Join7(t, " ", id, "[", size, "]", ";");
    }
  }

  lemma {:induction false} AssignBalanced(n: Node, level: int)
    requires n.Assign? && WellFormed(n) && BraceFreeLeaves(n)
    ensures BraceBalance(Emit(n, level)) == 0
    decreases n, 1
  {
    EmitBalanced(n.id, level);
    EmitBalanced(n.expr, level);
    BraceFreeBalance(" = ");
    BraceFreeBalance("; ");
    Join4(Emit(n.id, level), " = ", Emit(n.expr, level), "; ");
  }

  lemma {:induction false} BinOpBalanced(n: Node, level: int)
    requires n.BinOp? && WellFormed(n) && BraceFreeLeaves(n)
    ensures BraceBalance(Emit(n, level)) == 0
    decreases n, 1
  {
    EmitBalanced(n.first, level);
    EmitBalanced(n.second, level);
    BraceFreeBalance(OperatorText(n.symbol));
    Join3(Emit(n.first, level), OperatorText(n.symbol), Emit(n.second, level));
  }

  lemma {:induction false} ArrayElemBalanced(n: Node, level: int)
    requires n.ArrayElem? && WellFormed(n) && BraceFreeLeaves(n)
    ensures BraceBalance(Emit(n, level)) == 0
    decreases n, 1
  {
    EmitBalanced(n.id, level);
    EmitBalanced(n.index, level);
    BraceFreeBalance("[");
    BraceFreeBalance("]");
    Join4(Emit(n.id, level), "[", Emit(n.index, level), "]");
  }

  /** A `for` loop emits one scope: balanced. */
  lemma {:induction false} ForBalanced(n: Node, level: int)
    requires n.For? && WellFormed(n) && BraceFreeLeaves(n)
    ensures BraceBalance(Emit(n, level)) == 0
    decreases n, 1
  {
    ForHeadBalanced(n, level);
    ScopeBalanced(n.block, level);
    Join2(ForHead(n, level), ScopeText(n.block, level));
  }

  /** An `if`, with or without `else`, emits balanced scopes. */
  lemma {:induction false} IfBalanced(n: Node, level: int)
    requires n.If? && WellFormed(n) && BraceFreeLeaves(n)
    ensures BraceBalance(Emit(n, level)) == 0
    decreases n, 1
  {
    IfHeadBalanced(n, level);
    ScopeBalanced(n.onTrue, level);
    var tail := if n.onFalse.Some? then ElseText(n, level) else "";
    if n.onFalse.Some? {
      ElseBalanced(n, level);
    } else {
      BraceFreeBalance("");
    }
    Join3(IfHead(n, level), ScopeText(n.onTrue, level), tail);
  }

  /** A procedure emits one scope: balanced. */
  lemma {:induction false} ProcBalanced(n: Node, level: int)
    requires n.Proc? && WellFormed(n) && BraceFreeLeaves(n)
    ensures BraceBalance(Emit(n, level)) == 0
    decreases n, 1
  {
    ProcHeadBalanced(n, level);
    ProcBodyBalanced(n, level);
    Join2(ProcHead(n, level), ProcBody(n, level));
  }

  lemma {:induction false} CallStatementBalanced(n: Node, level: int)
    requires n.FuncProcCall? && WellFormed(n) && BraceFreeLeaves(n)
    ensures BraceBalance(Emit(n, level)) == 0
    decreases n, 1
  {
    assert WellFormed(n.args);
    CallBalanced(n.id.value, n.args, level);
    BraceFreeBalance(")");
    BraceFreeBalance("; ");
    Join3(CallText(n.id.value, n.args, level), ")", "; ");
  }

  lemma {:induction false} ScopeBalanced(b: Node, level: int)
    requires WellFormed(b) && BraceFreeLeaves(b)
    ensures BraceBalance(ScopeText(b, level)) == 0
    decreases b, 3
  {
    ScopeTextsBalance(level);
    ScopeTextsBalance(level + 1);
    EmitBalanced(b, level + 1);
    Join3(OpenText(level), Emit(b, level + 1), CloseText(level + 1));
  }

  lemma {:induction false} ForHeadBalanced(n: Node, level: int)
    requires n.For? && WellFormed(n) && BraceFreeLeaves(n)
    ensures BraceBalance(ForHead(n, level)) == 0
    decreases n, 0
  {
    assert WellFormed(n.start) && BraceFreeLeaves(n.start);
    var start, id, end := Emit(n.start, level), Emit(n.start.id, level), Emit(n.end, level);
    EmitBalanced(n.start, level);
    EmitBalanced(n.start.id, level);
    EmitBalanced(n.end, level);
    BraceFreeBalance("for");
    BraceFreeBalance("(");
    BraceFreeBalance(" <= ");
    BraceFreeBalance("; ");
    BraceFreeBalance("++");
    BraceFreeBalance(")");
    BraceFreeBalance("\n");
    Join7("for", "(", start, id, " <= ", end, "; ");
    Join5("for" + "(" + start + id + " <= " + end + "; ", id, "++", ")", "\n");
  }

  lemma {:induction false} IfHeadBalanced(n: Node, level: int)
    requires n.If? && WellFormed(n) && BraceFreeLeaves(n)
    ensures BraceBalance(IfHead(n, level)) == 0
    decreases n, 0
  {
    BraceFreeBalance("if( ");
    BraceFreeBalance(" )");
    BraceFreeBalance("\n");
    EmitBalanced(n.cond, level);
    Join4("if( ", Emit(n.cond, level), " )", "\n");
  }

  lemma {:induction false} ElseBalanced(n: Node, level: int)
    requires n.If? && n.onFalse.Some? && WellFormed(n) && BraceFreeLeaves(n)
    ensures BraceBalance(ElseText(n, level)) == 0
    decreases n, 0
  {
    BraceFreeBalance("else");
    BraceFreeBalance("\n");
    IndentBraceFree(level);
    BraceFreeBalance(Indent(level));
    ScopeBalanced(n.onFalse.value, level);
    Join4(Indent(level), "else", "\n", ScopeText(n.onFalse.value, level));
  }

  lemma {:induction false} ProcHeadBalanced(n: Node, level: int)
    requires n.Proc? && WellFormed(n) && BraceFreeLeaves(n)
    ensures BraceBalance(ProcHead(n, level)) == 0
    decreases n, 0
  {
    BraceFreeBalance("void ");
    BraceFreeBalance("(");
    BraceFreeBalance(")");
    BraceFreeBalance("\n");
    EmitBalanced(n.id, level);
    var params := if n.params.Some? then Emit(n.params.value, level) else "";
    if n.params.Some? {
      EmitBalanced(n.params.value, level);
    } else {
      BraceFreeBalance("");
    }
    Join6("void ", Emit(n.id, level), "(", params, ")", "\n");
  }

  lemma {:induction false} ProcBodyBalanced(n: Node, level: int)
    requires n.Proc? && WellFormed(n) && BraceFreeLeaves(n)
    ensures BraceBalance(ProcBody(n, level)) == 0
    decreases n, 0
  {
    ScopeTextsBalance(level);
    ScopeTextsBalance(level + 1);
    var locals := if n.variables.Some? then Emit(n.variables.value, level + 1) else "";
    if n.variables.Some? {
      EmitBalanced(n.variables.value, level + 1);
    } else {
      BraceFreeBalance("");
    }
    EmitBalanced(n.block, level + 1);
    Join4(OpenText(level), locals, Emit(n.block, level + 1), CloseText(level + 1));
  }

  lemma {:induction false} CallBalanced(f: string, args: Node, level: int)
    requires args.Args? && WellFormed(args) && BraceFree(f) && BraceFreeLeaves(args)
    ensures BraceBalance(CallText(f, args, level)) == 0
    decreases args, 3
  {
    BraceFreeBalance("printf");
    BraceFreeBalance("(");
    BraceFreeBalance("\"");
    BraceFreeBalance("scanf");
    BraceFreeBalance("\"%d\", &");
    if f == "writeln" || f == "write" {
      var newline := if f == "writeln" then "\\n" else "";
      BraceFreeBalance(newline);
      FormatStringBraceFree(args.exprs);
      BraceFreeBalance(FormatString(args.exprs));
      PrintArgsBalanced(args.exprs, level);
      Join7("printf", "(", "\"", FormatString(args.exprs), newline, "\"", PrintArgs(args.exprs, level));
    } else if f == "read" || f == "readln" {
      EmitBalanced(args, level);
      Join4("scanf", "(", "\"%d\", &", Emit(args, level));
    } else {
      BraceFreeBalance(f);
      EmitBalanced(args, level);
      Join3(f, "(", Emit(args, level));
    }
  }

  lemma {:induction false} BlockItemsBalanced(ns: seq<Node>, level: int)
    requires forall i | 0 <= i < |ns| :: WellFormed(ns[i]) && BraceFreeLeaves(ns[i])
    ensures BraceBalance(BlockItems(ns, level)) == 0
    decreases ns, 0
  {
    if ns != [] {
      BraceFreeBalance("\n");
      var init, last := ns[..|ns| - 1], ns[|ns| - 1];
      BlockItemsBalanced(init, level);
      EmitBalanced(last, level);
      IndentBraceFree(level);
      BraceFreeBalance(Indent(level));
      Join4(BlockItems(init, level), Indent(level), Emit(last, level), "\n");
    }
  }

  lemma {:induction false} VarItemsBalanced(ns: seq<Node>, level: int)
    requires forall i | 0 <= i < |ns| :: WellFormed(ns[i]) && BraceFreeLeaves(ns[i])
    ensures BraceBalance(VarItems(ns, level)) == 0
    decreases ns, 0
  {
    if ns != [] {
      BraceFreeBalance("\n");
      var init, last := ns[..|ns| - 1], ns[|ns| - 1];
      VarItemsBalanced(init, level);
      EmitBalanced(last, level);
      IndentBraceFree(level);
      BraceFreeBalance(Indent(level));
      Join4(VarItems(init, level), "\n", Indent(level), Emit(last, level));
    }
  }

  lemma {:induction false} ArgItemsBalanced(es: seq<Node>, level: int)
    requires forall i | 0 <= i < |es| :: WellFormed(es[i]) && BraceFreeLeaves(es[i])
    ensures BraceBalance(ArgItems(es, level)) == 0
    decreases es, 0
  {
    if es != [] {
      BraceFreeBalance(", ");
      BraceFreeBalance("");
      var init, last := es[..|es| - 1], es[|es| - 1];
      ArgItemsBalanced(init, level);
      EmitBalanced(last, level);
      Join3(ArgItems(init, level), if |es| > 1 then ", " else "", Emit(last, level));
    }
  }

  lemma {:induction false} ParamItemsBalanced(ds: seq<Node>, level: int)
    requires forall i | 0 <= i < |ds| :: (ds[i].Decl? || ds[i].ArrayDecl?) && WellFormed(ds[i])
    requires forall i | 0 <= i < |ds| :: BraceFreeLeaves(ds[i])
    ensures BraceBalance(ParamItems(ds, level)) == 0
    decreases ds, 0
  {
    if ds != [] {
      BraceFreeBalance(", ");
      BraceFreeBalance("");
      var init, last := ds[..|ds| - 1], ds[|ds| - 1];
      ParamItemsBalanced(init, level);
      ParamBalanced(last, level);
      Join3(ParamItems(init, level), if |ds| > 1 then ", " else "", ParamText(last, level));
    }
  }

  lemma {:induction false} ParamBalanced(d: Node, level: int)
    requires (d.Decl? || d.ArrayDecl?) && WellFormed(d) && BraceFreeLeaves(d)
    ensures BraceBalance(ParamText(d, level)) == 0
    decreases d, 0
  {
    BraceFreeBalance(" ");
    EmitBalanced(d.typ, level);
    EmitBalanced(d.id, level);
    Join3(Emit(d.typ, level), " ", Emit(d.id, level));
  }

  lemma {:induction false} PrintArgsBalanced(es: seq<Node>, level: int)
    requires forall i | 0 <= i < |es| :: WellFormed(es[i]) && BraceFreeLeaves(es[i])
    ensures BraceBalance(PrintArgs(es, level)) == 0
    decreases es, 0
  {
    if es != [] {
      BraceFreeBalance(", ");
      BraceFreeBalance("");
      var init, last := es[..|es| - 1], es[|es| - 1];
      PrintArgsBalanced(init, level);
      EmitBalanced(last, level);
      Join2(", ", Emit(last, level));
      Join2(PrintArgs(init, level), if IsLiteral(last) then "" else ", " + Emit(last, level));
    }
  }

  lemma {:induction false} FormatStringBraceFree(es: seq<Node>)
    requires forall i | 0 <= i < |es| :: BraceFreeLeaves(es[i])
    ensures BraceFree(FormatString(es))
  {
    if es != [] {
      FormatStringBraceFree(es[..|es| - 1]);
      assert BraceFreeLeaves(es[|es| - 1]);
    }
  }

  lemma {:induction false} EmitAllBalanced(ns: seq<Node>, level: int)
    requires forall i | 0 <= i < |ns| :: WellFormed(ns[i]) && BraceFreeLeaves(ns[i])
    ensures BraceBalance(EmitAll(ns, level)) == 0
  {
    if ns != [] {
      EmitAllBalanced(ns[..|ns| - 1], level);
      EmitBalanced(ns[|ns| - 1], level);
      Join2(EmitAll(ns[..|ns| - 1], level), Emit(ns[|ns| - 1], level));
    }
  }

  /** `main` with everything inside it leaves its own `{` open. */
  lemma MainBalance(ns: seq<Node>, level: int)
    requires forall i | 0 <= i < |ns| :: WellFormed(ns[i]) && BraceFreeLeaves(ns[i])
    ensures BraceBalance(MainHeader(level) + EmitAll(ns, level + 1)) == 1
  {
    EmitAllBalanced(ns, level + 1);
    ScopeTextsBalance(level);
    BraceFreeBalance("int main()");
    BraceFreeBalance("\n");
    Join3("int main()", "\n", OpenText(level));
    Join2(MainHeader(level), EmitAll(ns, level + 1));
  }

  /** The loop of `visit_Program` leaves exactly the `{` of `main` open,
      if it opened `main`. */
  lemma ProgramLoopBalance(ns: seq<Node>, level: int)
    requires forall i | 0 <= i < |ns| :: WellFormed(ns[i]) && BraceFreeLeaves(ns[i])
    ensures BraceBalance(ProgramLoop(ns, level)) == if HasEntry(ns) then 1 else 0
  {
    var k := FirstEntry(ns);
    var before := EmitAll(ns[..k], level);
    var main := if k < |ns| then MainHeader(level) + EmitAll(ns[k..], level + 1) else "";
    assert ProgramLoop(ns, level) == before + main;
    EmitAllBalanced(ns[..k], level);
    if k < |ns| {
      MainBalance(ns[k..], level);
    } else {
      BraceFreeBalance("");
    }
    Join2(before, main);
  }

  /** The program text is balanced when `main` was opened; without a
      top-level `Var` or `Block` the final `close_scope` leaves one `}`
      more than there are `{`. */
  lemma ProgramBalance(ns: seq<Node>, level: int)
    requires forall i | 0 <= i < |ns| :: WellFormed(ns[i]) && BraceFreeLeaves(ns[i])
    ensures BraceBalance(ProgramText(ns, level)) == if HasEntry(ns) then 0 else -1
  {
    ProgramLoopBalance(ns, level);
    var l := LoopLevel(ns, level);
    ScopeTextsBalance(l);
    IndentBraceFree(l);
    BraceFreeBalance(Indent(l));
    BraceFreeBalance("#include<stdio.h>");
    BraceFreeBalance("return 0;");
    BraceFreeBalance("\n");
    Join7("#include<stdio.h>", "\n", ProgramLoop(ns, level), Indent(l), "return 0;", "\n", CloseText(l));
  }

  /** Removing blank lines keeps every brace. */
  lemma CollapseBalance(s: string)
    ensures BraceBalance(Normalize.Collapse(s)) == BraceBalance(s)
  {
    Normalize.CollapseCount(s, '{');
    Normalize.CollapseCount(s, '}');
    BalanceMultiset(s);
    BalanceMultiset(Normalize.Collapse(s));
  }

  /** The same holds for the text `generate` writes, after the blank lines
      are removed. */
  lemma TranslationBalance(ns: seq<Node>, level: int)
    requires forall i | 0 <= i < |ns| :: WellFormed(ns[i]) && BraceFreeLeaves(ns[i])
    ensures BraceBalance(Normalize.Collapse(ProgramText(ns, level))) == if HasEntry(ns) then 0 else -1
  {
    ProgramBalance(ns, level);
    CollapseBalance(ProgramText(ns, level));
  }
}
