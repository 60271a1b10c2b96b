/** The code generator of modules/generator.py: a walk over the syntax tree
    that appends C text to the buffer `py` and tracks the indentation depth in
    `level`. Each `visit_*` handler is one method here, and each is proved to
    append exactly the text `Emitter` gives for its node.

    Methods that append several pieces keep a ghost `out` with the text
    appended so far. After each piece, `Emitter.Assoc` regroups the
    concatenation, and `assert py == old(py) + out;` restates the running
    buffer. The proofs of `VisitPrint` and `VisitForHead` need these
    restatements. */
module CodeGenerator {
  import opened Ast
  import Emitter
  import Normalize
  import EmitterFacts

  class Generator {
    const ast: Program
    var py: string
    var level: int

    constructor (ast: Program)
      ensures this.ast == ast && py == "" && level == 0
    {
      this.ast := ast;
      py := "";
      level := 0;
    }

    method Append(text: string)
      modifies this
      ensures py == old(py) + text && level == old(level)
    {
      py := py + text;
    }

    method Newline()
      modifies this
      ensures py == old(py) + "\n" && level == old(level)
    {
      Append("\n");
    }

    method Indent()
      modifies this
      ensures py == old(py) + Emitter.Indent(old(level)) && level == old(level)
    {
      var i := 0;
      while i < level
        invariant level == old(level)
        invariant 0 <= i <= if level > 0 then level else 0
        invariant py == old(py) + Emitter.Indent(i)
      {
        Append("\t");
        i := i + 1;
      }
    }

    /** Indents, writes `{` and a line break, then enters the scope. */
    method OpenScope()
      modifies this
      ensures level == old(level) + 1
      ensures py == old(py) + Emitter.OpenText(old(level))
    {
      Indent();
      Append("{");
      Newline();
      level := level + 1;
    }

    /** Leaves the scope first, then indents and writes `}` and a line break. */
    method CloseScope()
      modifies this
      ensures level == old(level) - 1
      ensures py == old(py) + Emitter.CloseText(old(level))
    {
      level := level - 1;
      Indent();
      Append("}");
      Newline();
    }

    method Libs()
      modifies this
      ensures py == old(py) + "#include<stdio.h>" + "\n" && level == old(level)
    {
      Append("#include<stdio.h>");
      Newline();
    }

    /** `int main()` and the scope of `main`. */
    method OpenMain()
      modifies this
      ensures py == old(py) + Emitter.MainHeader(old(level)) && level == old(level) + 1
    {
      Append("int main()");
      Newline();
      OpenScope();
      Emitter.Assoc(old(py), "int main()", "\n");
      Emitter.Assoc(old(py), "int main()" + "\n", Emitter.OpenText(old(level)));
    }

    /** The top-level nodes in order, opening `main` just before the first
        `Var` or `Block`. */
    method VisitTopLevel(ns: seq<Node>)
      requires forall i | 0 <= i < |ns| :: WellFormed(ns[i])
      modifies this
      ensures py == old(py) + Emitter.ProgramLoop(ns, old(level))
      ensures level == Emitter.LoopLevel(ns, old(level))
    {
      ghost var start := level;
      // the source's `is_in_main`, which holds until `main` has been opened
      var beforeMain := true;
      for i := 0 to |ns|
        invariant beforeMain <==> !Emitter.HasEntry(ns[..i])
        invariant level == if beforeMain then start else start + 1
        invariant py == old(py) + Emitter.ProgramLoop(ns[..i], start)
      {
        ghost var out := Emitter.ProgramLoop(ns[..i], start);
        ghost var header := if beforeMain && IsEntry(ns[i]) then Emitter.MainHeader(start) else "";
        Emitter.ProgramLoopStep(ns[..i], ns[i], start);
        assert ns[..i + 1] == ns[..i] + [ns[i]];
        beforeMain := VisitTopLevelNode(ns[i], beforeMain);
        ghost var text := Emitter.Emit(ns[i], level);
        assert py == old(py) + out + (header + text);
        Emitter.Assoc(old(py), out, header + text);
        Emitter.Assoc(out, header, text);
      }
      assert ns[..|ns|] == ns;
      assert level == Emitter.LoopLevel(ns, start);
    }

    /** One step of the top-level loop: `main` is opened first if the flag
        is still set and the node is a `Var` or `Block`, which also clears
        the flag; then the node is visited at the current level. */
    method VisitTopLevelNode(x: Node, beforeMain: bool) returns (stillBeforeMain: bool)
      requires WellFormed(x)
      modifies this
      ensures stillBeforeMain <==> beforeMain && !IsEntry(x)
      ensures level == if beforeMain && IsEntry(x) then old(level) + 1 else old(level)
      ensures py == old(py) + ((if beforeMain && IsEntry(x) then Emitter.MainHeader(old(level)) else "") + Emitter.Emit(x, level))
    {
      stillBeforeMain := beforeMain;
      ghost var header := if beforeMain && IsEntry(x) then Emitter.MainHeader(old(level)) else "";
      if beforeMain && (x.Var? || x.Block?) {
        OpenMain();
        stillBeforeMain := false;
      }
      assert py == old(py) + header;
      Visit(x);
      Emitter.Assoc(old(py), header, Emitter.Emit(x, level));
    }

    /** The whole program: the include line; every top-level node, opening
        `main` just before the first `Var` or `Block`; `return 0;`; and a
        final `close_scope` that runs whether or not `main` was opened. */
    method VisitProgram(p: Program)
      requires WellFormedProgram(p)
      modifies this
      ensures py == old(py) + Emitter.ProgramText(p.nodes, old(level))
      ensures level == Emitter.ProgramFinalLevel(p.nodes, old(level))
    {
      ghost var start := level;
      Libs();
      ghost var out := "#include<stdio.h>" + "\n";
      Emitter.Assoc(old(py), "#include<stdio.h>", "\n");
      assert py == old(py) + out;
      VisitTopLevel(p.nodes);
      Emitter.Assoc(old(py), out, Emitter.ProgramLoop(p.nodes, start));
      out := out + Emitter.ProgramLoop(p.nodes, start);
      assert py == old(py) + out;
      Indent();
      Emitter.Assoc(old(py), out, Emitter.Indent(level));
      out := out + Emitter.Indent(level);
      assert py == old(py) + out;
      Append("return 0;");
      Emitter.Assoc(old(py), out, "return 0;");
      out := out + "return 0;";
      assert py == old(py) + out;
      Newline();
      Emitter.Assoc(old(py), out, "\n");
      out := out + "\n";
      assert py == old(py) + out;
      CloseScope();
      Emitter.Assoc(old(py), out, Emitter.CloseText(level + 1));
    }

    /** The handler for `n`'s kind. Every handler leaves `level` as it found it. */
    method Visit(n: Node)
      requires WellFormed(n)
      modifies this
      ensures py == old(py) + Emitter.Emit(n, old(level)) && level == old(level)
      decreases n, 2
    {
      match n
      case Block(_) => VisitBlock(n);
      case Var(_) => VisitVar(n);
      case Decl(_, _) => VisitDecl(n);
      case ArrayDecl(_, _, _, _) => VisitArrayDecl(n);
      case Assign(_, _) => VisitAssign(n);
      case BinOp(_, _, _) => VisitBinOp(n);
      case Id(_) => VisitId(n);
      case Int(_) => VisitInt(n);
      case String(_) => VisitString(n);
      case Char(_) => VisitChar(n);
      case Type(_) => VisitType(n);
      case For(_, _, _) => VisitFor(n);
      case If(_, _, _) => VisitIf(n);
      case Proc(_, _, _, _) => VisitProc(n);
      case Params(_) => VisitParams(n);
      case FuncProcCall(_, _) => VisitFuncProcCall(n);
      case Args(_) => VisitArgs(n);
      case Exit => VisitExit(n);
      case ArrayElem(_, _) => VisitArrayElem(n);
    }

    method VisitBlock(n: Node)
      requires n.Block? && WellFormed(n)
      modifies this
      ensures py == old(py) + Emitter.Emit(n, old(level)) && level == old(level)
      decreases n, 1
    {
      var ns := n.nodes;
      for i := 0 to |ns|
        invariant level == old(level)
        invariant py == old(py) + Emitter.BlockItems(ns[..i], level)
      {
        Indent();
        Visit(ns[i]);
        Newline();
        assert ns[..i + 1][..i] == ns[..i];
      }
      assert ns[..|ns|] == ns;
    }

    /** The arguments of a `write`/`writeln` that are not literals, each
        after `, `. */
    method VisitPrintArgs(es: seq<Node>)
      requires forall i | 0 <= i < |es| :: WellFormed(es[i])
      modifies this
      ensures py == old(py) + Emitter.PrintArgs(es, old(level)) && level == old(level)
      decreases es, 0
    {
      for i := 0 to |es|
        invariant level == old(level)
        invariant py == old(py) + Emitter.PrintArgs(es[..i], level)
      {
        ghost var items := Emitter.PrintArgs(es[..i], level);
        if !es[i].String? && !es[i].Char? {
          Append(", ");
          Visit(es[i]);
          Emitter.Assoc(old(py) + items, ", ", Emitter.Emit(es[i], level));
          Emitter.Assoc(old(py), items, ", " + Emitter.Emit(es[i], level));
        }
        assert es[..i + 1][..i] == es[..i];
      }
      assert es[..|es|] == es;
    }

    /** The `printf` call of `write`/`writeln` up to its closing
        parenthesis: the format string, `\n` for `writeln`, then the
        non-literal arguments. */
    method VisitPrint(es: seq<Node>, newline: bool)
      requires forall i | 0 <= i < |es| :: WellFormed(es[i])
      modifies this
      ensures py == old(py) + ("printf(\"" + Emitter.FormatString(es) + (if newline then "\\n" else "") + "\"" +
        Emitter.PrintArgs(es, old(level)))
      ensures level == old(level)
      decreases es, 1
    {
      var format := PrintFormat(es);
      Append("printf");
      Append("(");
      Append("\"");
      ghost var out := "printf(\"";
      assert py == old(py) + out;
      Append(format);
      Emitter.Assoc(old(py), out, format);
      out := out + format;
      ghost var nl := if newline then "\\n" else "";
      if newline {
        Append("\\n");
      }
      Emitter.Assoc(old(py), out, nl);
      out := out + nl;
      assert py == old(py) + out;
      Append("\"");
      Emitter.Assoc(old(py), out, "\"");
      out := out + "\"";
      assert py == old(py) + out;
      VisitPrintArgs(es);
      Emitter.Assoc(old(py), out, Emitter.PrintArgs(es, old(level)));
    }

    /** A `scanf` or plain call up to its closing parenthesis: the opening
        text, then the arguments separated by `, `. */
    method VisitOtherCall(opening: string, args: Node)
      requires args.Args? && WellFormed(args)
      modifies this
      ensures py == old(py) + (opening + Emitter.ArgItems(args.exprs, old(level))) && level == old(level)
      decreases args, 3
    {
      Append(opening);
      Visit(args);
      Emitter.Assoc(old(py), opening, Emitter.ArgItems(args.exprs, old(level)));
    }

    /** `visit_FuncProcCall` up to the closing parenthesis. */
    method VisitCall(n: Node)
      requires n.FuncProcCall? && WellFormed(n)
      modifies this
      ensures py == old(py) + Emitter.CallText(n.id.value, n.args, old(level)) && level == old(level)
      decreases n, 0
    {
      assert WellFormed(n.args);
      var f := n.id.value;
      ghost var call := Emitter.CallText(f, n.args, level);
      if f == "writeln" || f == "write" {
        EmitterFacts.PrintCallText(f, n.args, level);
        VisitPrint(n.args.exprs, f == "writeln");
      } else if f == "read" || f == "readln" {
        EmitterFacts.OtherCallText(f, n.args, level);
        VisitOtherCall("scanf(\"%d\", &", n.args);
      } else {
        EmitterFacts.OtherCallText(f, n.args, level);
        VisitOtherCall(f + "(", n.args);
      }
      assert py == old(py) + call;
    }

    method VisitFuncProcCall(n: Node)
      requires n.FuncProcCall? && WellFormed(n)
      modifies this
      ensures py == old(py) + Emitter.Emit(n, old(level)) && level == old(level)
      decreases n, 1
    {
      ghost var l := level;
      assert WellFormed(n.args);
      VisitCall(n);
      ghost var out := Emitter.CallText(n.id.value, n.args, l);
      Append(")");
      Emitter.Assoc(old(py), out, ")");
      Append("; ");
      Emitter.Assoc(old(py), out + ")", "; ");
    }

    method VisitArgs(n: Node)
      requires n.Args? && WellFormed(n)
      modifies this
      ensures py == old(py) + Emitter.Emit(n, old(level)) && level == old(level)
      decreases n, 1
    {
      var es := n.exprs;
      for i := 0 to |es|
        invariant level == old(level)
        invariant py == old(py) + Emitter.ArgItems(es[..i], level)
      {
        if i > 0 {
          Append(", ");
        }
        Visit(es[i]);
        assert es[..i + 1][..i] == es[..i];
      }
      assert es[..|es|] == es;
    }

    method VisitString(n: Node)
      requires n.String?
      modifies this
      ensures py == old(py) + Emitter.Emit(n, old(level)) && level == old(level)
      decreases n, 1
    {
      Append("\"");
      Append(n.value);
      Append("\"");
    }

    method VisitChar(n: Node)
      requires n.Char?
      modifies this
      ensures py == old(py) + Emitter.Emit(n, old(level)) && level == old(level)
      decreases n, 1
    {
      Append("'");
      Append(n.value);
      Append("'");
    }

    method VisitInt(n: Node)
      requires n.Int?
      modifies this
      ensures py == old(py) + Emitter.Emit(n, old(level)) && level == old(level)
      decreases n, 1
    {
      Append(Emitter.IntToString(n.number));
    }

    method VisitBinOp(n: Node)
      requires n.BinOp? && WellFormed(n)
      modifies this
      ensures py == old(py) + Emitter.Emit(n, old(level)) && level == old(level)
      decreases n, 1
    {
      ghost var l := level;
      Visit(n.first);
      ghost var before := py;
      if n.symbol == "=" {
        Append(" " + "==" + " ");
      } else if n.symbol == "mod" {
        Append(" % ");
      } else if n.symbol == "div" {
        Append(" / ");
      } else if n.symbol == "and" {
        Append(" && ");
      } else if n.symbol == "or" {
        Append(" || ");
      } else {
        Append(" " + n.symbol + " ");
      }
      ghost var op := Emitter.OperatorText(n.symbol);
      assert py == before + op;
      Visit(n.second);
      Emitter.Assoc(old(py), Emitter.Emit(n.first, l), op);
      Emitter.Assoc(old(py), Emitter.Emit(n.first, l) + op, Emitter.Emit(n.second, l));
    }

    method VisitVar(n: Node)
      requires n.Var? && WellFormed(n)
      modifies this
      ensures py == old(py) + Emitter.Emit(n, old(level)) && level == old(level)
      decreases n, 1
    {
      var ns := n.nodes;
      for i := 0 to |ns|
        invariant level == old(level)
        invariant py == old(py) + Emitter.VarItems(ns[..i], level)
      {
        Newline();
        Indent();
        Visit(ns[i]);
        assert ns[..i + 1][..i] == ns[..i];
      }
      assert ns[..|ns|] == ns;
      Newline();
    }

    method VisitDecl(n: Node)
      requires n.Decl? && WellFormed(n)
      modifies this
      ensures py == old(py) + Emitter.Emit(n, old(level)) && level == old(level)
      decreases n, 1
    {
      ghost var l := level;
      Visit(n.typ);
      ghost var out := Emitter.Emit(n.typ, l);
      assert py == old(py) + out;
      Append(" ");
      Emitter.Assoc(old(py), out, " ");
      out := out + " ";
      assert py == old(py) + out;
      Visit(n.id);
      Emitter.Assoc(old(py), out, Emitter.Emit(n.id, l));
      out := out + Emitter.Emit(n.id, l);
      assert py == old(py) + out;
      Append(";");
      Emitter.Assoc(old(py), out, ";");
      out := out + ";";
      assert py == old(py) + out;
    }

    method VisitAssign(n: Node)
      requires n.Assign? && WellFormed(n)
      modifies this
      ensures py == old(py) + Emitter.Emit(n, old(level)) && level == old(level)
      decreases n, 1
    {
      ghost var l := level;
      Visit(n.id);
      ghost var out := Emitter.Emit(n.id, l);
      assert py == old(py) + out;
      Append(" = ");
      Emitter.Assoc(old(py), out, " = ");
      out := out + " = ";
      assert py == old(py) + out;
      Visit(n.expr);
      Emitter.Assoc(old(py), out, Emitter.Emit(n.expr, l));
      out := out + Emitter.Emit(n.expr, l);
      assert py == old(py) + out;
      Append("; ");
      Emitter.Assoc(old(py), out, "; ");
      out := out + "; ";
      assert py == old(py) + out;
    }

    method VisitType(n: Node)
      requires n.Type?
      modifies this
      ensures py == old(py) + Emitter.Emit(n, old(level)) && level == old(level)
      decreases n, 1
    {
      if n.value == "integer" {
        Append("int");
      } else {
        Append(n.value);
      }
    }

    method VisitId(n: Node)
      requires n.Id?
      modifies this
      ensures py == old(py) + Emitter.Emit(n, old(level)) && level == old(level)
      decreases n, 1
    {
      Append(n.value);
    }

    /** `open_scope`, the body one level deeper, `close_scope`. */
    method VisitScope(b: Node)
      requires WellFormed(b)
      modifies this
      ensures py == old(py) + Emitter.ScopeText(b, old(level)) && level == old(level)
      decreases b, 3
    {
      ghost var l := level;
      OpenScope();
      Visit(b);
      Emitter.Assoc(old(py), Emitter.OpenText(l), Emitter.Emit(b, l + 1));
      CloseScope();
      Emitter.Assoc(old(py), Emitter.OpenText(l) + Emitter.Emit(b, l + 1), Emitter.CloseText(l + 1));
    }

    method VisitForHead(n: Node)
      requires n.For? && WellFormed(n)
      modifies this
      ensures py == old(py) + Emitter.ForHead(n, old(level)) && level == old(level)
      decreases n, 0
    {
      ghost var l := level;
      ghost var id := Emitter.Emit(n.start.id, l);
      Append("for");
      Append("(");
      ghost var out := "for" + "(";
      Visit(n.start);
      Emitter.Assoc(old(py), out, Emitter.Emit(n.start, l));
      out := out + Emitter.Emit(n.start, l);
      assert py == old(py) + out;
      Visit(n.start.id);
      Emitter.Assoc(old(py), out, id);
      out := out + id;
      assert py == old(py) + out;
      Append(" <= ");
      Emitter.Assoc(old(py), out, " <= ");
      out := out + " <= ";
      assert py == old(py) + out;
      Visit(n.end);
      Emitter.Assoc(old(py), out, Emitter.Emit(n.end, l));
      out := out + Emitter.Emit(n.end, l);
      assert py == old(py) + out;
      Append("; ");
      Emitter.Assoc(old(py), out, "; ");
      out := out + "; ";
      assert py == old(py) + out;
      Visit(n.start.id);
      Emitter.Assoc(old(py), out, id);
      out := out + id;
      assert py == old(py) + out;
      Append("++");
      Emitter.Assoc(old(py), out, "++");
      out := out + "++";
      assert py == old(py) + out;
      Append(")");
      Emitter.Assoc(old(py), out, ")");
      out := out + ")";
      assert py == old(py) + out;
      Newline();
      Emitter.Assoc(old(py), out, "\n");
      out := out + "\n";
      assert py == old(py) + out;
      assert out == Emitter.ForHead(n, l);
    }

    method VisitFor(n: Node)
      requires n.For? && WellFormed(n)
      modifies this
      ensures py == old(py) + Emitter.Emit(n, old(level)) && level == old(level)
      decreases n, 1
    {
      ghost var l := level;
      VisitForHead(n);
      VisitScope(n.block);
      Emitter.Assoc(old(py), Emitter.ForHead(n, l), Emitter.ScopeText(n.block, l));
    }

    method VisitIfHead(n: Node)
      requires n.If? && WellFormed(n)
      modifies this
      ensures py == old(py) + Emitter.IfHead(n, old(level)) && level == old(level)
      decreases n, 0
    {
      ghost var l := level;
      Append("if( ");
      Visit(n.cond);
      Append(" )");
      Emitter.Assoc(old(py), "if( ", Emitter.Emit(n.cond, l));
      Emitter.Assoc(old(py), "if( " + Emitter.Emit(n.cond, l), " )");
      Newline();
      Emitter.Assoc(old(py), "if( " + Emitter.Emit(n.cond, l) + " )", "\n");
    }

    method VisitElse(n: Node)
      requires n.If? && n.onFalse.Some? && WellFormed(n)
      modifies this
      ensures py == old(py) + Emitter.ElseText(n, old(level)) && level == old(level)
      decreases n, 0
    {
      ghost var l := level;
      Indent();
      Append("else");
      Newline();
      Emitter.Assoc(old(py), Emitter.Indent(l), "else");
      Emitter.Assoc(old(py), Emitter.Indent(l) + "else", "\n");
      VisitScope(n.onFalse.value);
      Emitter.Assoc(old(py), Emitter.Indent(l) + "else" + "\n", Emitter.ScopeText(n.onFalse.value, l));
    }

    method VisitIf(n: Node)
      requires n.If? && WellFormed(n)
      modifies this
      ensures py == old(py) + Emitter.Emit(n, old(level)) && level == old(level)
      decreases n, 1
    {
      ghost var l := level;
      VisitIfHead(n);
      VisitScope(n.onTrue);
      Emitter.Assoc(old(py), Emitter.IfHead(n, l), Emitter.ScopeText(n.onTrue, l));
      ghost var out := Emitter.IfHead(n, l) + Emitter.ScopeText(n.onTrue, l);
      if n.onFalse.Some? {
        VisitElse(n);
        Emitter.Assoc(old(py), out, Emitter.ElseText(n, l));
      } else {
        assert out + "" == out;
      }
    }

    method VisitProcHead(n: Node)
      requires n.Proc? && WellFormed(n)
      modifies this
      ensures py == old(py) + Emitter.ProcHead(n, old(level)) && level == old(level)
      decreases n, 0
    {
      ghost var l := level;
      Append("void ");
      Visit(n.id);
      Append("(");
      Emitter.Assoc(old(py), "void ", Emitter.Emit(n.id, l));
      Emitter.Assoc(old(py), "void " + Emitter.Emit(n.id, l), "(");
      ghost var out := "void " + Emitter.Emit(n.id, l) + "(";
      ghost var params := if n.params.Some? then Emitter.Emit(n.params.value, l) else "";
      if n.params.Some? {
        Visit(n.params.value);
      }
      Emitter.Assoc(old(py), out, params);
      out := out + params;
      Append(")");
      Emitter.Assoc(old(py), out, ")");
      out := out + ")";
      Newline();
      Emitter.Assoc(old(py), out, "\n");
    }

    method VisitProcBody(n: Node)
      requires n.Proc? && WellFormed(n)
      modifies this
      ensures py == old(py) + Emitter.ProcBody(n, old(level)) && level == old(level)
      decreases n, 0
    {
      ghost var l := level;
      OpenScope();
      ghost var out := Emitter.OpenText(l);
      ghost var locals := if n.variables.Some? then Emitter.Emit(n.variables.value, l + 1) else "";
      if n.variables.Some? {
        Visit(n.variables.value);
      }
      Emitter.Assoc(old(py), out, locals);
      out := out + locals;
      Visit(n.block);
      Emitter.Assoc(old(py), out, Emitter.Emit(n.block, l + 1));
      out := out + Emitter.Emit(n.block, l + 1);
      CloseScope();
      Emitter.Assoc(old(py), out, Emitter.CloseText(l + 1));
    }

    method VisitProc(n: Node)
      requires n.Proc? && WellFormed(n)
      modifies this
      ensures py == old(py) + Emitter.Emit(n, old(level)) && level == old(level)
      decreases n, 1
    {
      ghost var l := level;
      VisitProcHead(n);
      VisitProcBody(n);
      Emitter.Assoc(old(py), Emitter.ProcHead(n, l), Emitter.ProcBody(n, l));
    }

    method VisitParams(n: Node)
      requires n.Params? && WellFormed(n)
      modifies this
      ensures py == old(py) + Emitter.Emit(n, old(level)) && level == old(level)
      decreases n, 1
    {
      var ds := n.decls;
      for i := 0 to |ds|
        invariant level == old(level)
        invariant py == old(py) + Emitter.ParamItems(ds[..i], level)
      {
        ghost var items := Emitter.ParamItems(ds[..i], level);
        ghost var sep := if i > 0 then ", " else "";
        if i > 0 {
          Append(", ");
        }
        VisitParam(ds[i]);
        Emitter.Assoc(old(py) + items, sep, Emitter.ParamText(ds[i], level));
        Emitter.Assoc(old(py), items, sep + Emitter.ParamText(ds[i], level));
        Emitter.Assoc(items, sep, Emitter.ParamText(ds[i], level));
        assert ds[..i + 1][..i] == ds[..i];
      }
      assert ds[..|ds|] == ds;
    }

    /** One parameter: its type, a space, its name. */
    method VisitParam(d: Node)
      requires (d.Decl? || d.ArrayDecl?) && WellFormed(d)
      modifies this
      ensures py == old(py) + Emitter.ParamText(d, old(level)) && level == old(level)
      decreases d, 0
    {
      Visit(d.typ);
      Append(" ");
      Visit(d.id);
      ghost var typ, id := Emitter.Emit(d.typ, level), Emitter.Emit(d.id, level);
      Emitter.Assoc(old(py), typ, " ");
      Emitter.Assoc(old(py), typ + " ", id);
    }

    method VisitExit(n: Node)
      requires n.Exit?
      modifies this
      ensures py == old(py) + Emitter.Emit(n, old(level)) && level == old(level)
      decreases n, 1
    {
      Append("return;");
    }

    method VisitArrayElem(n: Node)
      requires n.ArrayElem? && WellFormed(n)
      modifies this
      ensures py == old(py) + Emitter.Emit(n, old(level)) && level == old(level)
      decreases n, 1
    {
      ghost var l := level;
      Visit(n.id);
      ghost var out := Emitter.Emit(n.id, l);
      assert py == old(py) + out;
      Append("[");
      Emitter.Assoc(old(py), out, "[");
      out := out + "[";
      assert py == old(py) + out;
      Visit(n.index);
      Emitter.Assoc(old(py), out, Emitter.Emit(n.index, l));
      out := out + Emitter.Emit(n.index, l);
      assert py == old(py) + out;
      Append("]");
      Emitter.Assoc(old(py), out, "]");
      out := out + "]";
      assert py == old(py) + out;
    }

    method VisitArrayDecl(n: Node)
      requires n.ArrayDecl? && WellFormed(n)
      modifies this
      ensures py == old(py) + Emitter.Emit(n, old(level)) && level == old(level)
      decreases n, 1
    {
      ghost var l := level;
      Visit(n.typ);
      ghost var out := Emitter.Emit(n.typ, l);
      Append(" ");
      Emitter.Assoc(old(py), out, " ");
      out := out + " ";
      Visit(n.id);
      Emitter.Assoc(old(py), out, Emitter.Emit(n.id, l));
      out := out + Emitter.Emit(n.id, l);
      Append("[");
      Emitter.Assoc(old(py), out, "[");
      out := out + "[";
      var maxElems := n.endIndex.number - n.startIndex.number + 2;
      Append(Emitter.IntToString(maxElems));
      Emitter.Assoc(old(py), out, Emitter.IntToString(maxElems));
      out := out + Emitter.IntToString(maxElems);
      Append("]");
      Emitter.Assoc(old(py), out, "]");
      out := out + "]";
      Append(";");
      Emitter.Assoc(old(py), out, ";");
    }

    /** `generate` without the file write: visit the whole tree, then remove
        the blank lines from the buffer. */
    method Generate()
      requires WellFormedProgram(ast)
      modifies this
      ensures py == Normalize.Collapse(old(py) + Emitter.ProgramText(ast.nodes, old(level)))
      ensures level == Emitter.ProgramFinalLevel(ast.nodes, old(level))
    {
      VisitProgram(ast);
      py := Normalize.Collapse(py);
    }
  }

  /** The `printf` format string `visit_FuncProcCall` builds for `write` and
      `writeln`: a literal argument verbatim, any other one as ` %d `. */
  method PrintFormat(es: seq<Node>) returns (format: string)
    ensures format == Emitter.FormatString(es)
  {
    format := "";
    for i := 0 to |es|
      invariant format == Emitter.FormatString(es[..i])
    {
      if es[i].String? || es[i].Char? {
        format := format + es[i].value;
      } else {
        format := format + " %d ";
      }
      assert es[..i + 1][..i] == es[..i];
    }
    assert es[..|es|] == es;
  }
}
