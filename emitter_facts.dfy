/** What the text of `Emitter` says about the C program it builds: the
    shape of calls, the frame around a program, and a few
    concrete translations. */
module EmitterFacts {
  import opened Ast
  import opened Emitter

  // ---------------------------------------------------------------------
  // write / writeln

  /** The arguments of a call that become `%d` placeholders, in order. */
  function NonLiterals(es: seq<Node>): (r: seq<Node>)
    ensures |r| <= |es|
    ensures forall i | 0 <= i < |r| :: !IsLiteral(r[i]) && r[i] in es
    ensures forall i | 0 <= i < |es| :: !IsLiteral(es[i]) ==> es[i] in r
  {
    if es == [] then []
    else
      var init, last := es[..|es| - 1], es[|es| - 1];
      assert forall i | 0 <= i < |init| :: init[i] == es[i];
      NonLiterals(init) + (if IsLiteral(last) then [] else [last])
  }

  /** The selection keeps the order of the arguments and each occurrence:
      that of a concatenation is the concatenation of the selections. */
  lemma {:induction false} NonLiteralsAppend(a: seq<Node>, b: seq<Node>)
    ensures NonLiterals(a + b) == NonLiterals(a) + NonLiterals(b)
    decreases |b|
  {
    if b == [] {
      assert a + b == a;
    } else {
      var init, last := b[..|b| - 1], b[|b| - 1];
      assert (a + b)[..|a + b| - 1] == a + init;
      assert (a + b)[|a + b| - 1] == last;
      NonLiteralsAppend(a, init);
      var tail := if IsLiteral(last) then [] else [last];
      assert NonLiterals(a + b) == NonLiterals(a) + NonLiterals(init) + tail;
      assert NonLiterals(b) == NonLiterals(init) + tail;
    }
  }

  /** The format string is built piece by piece: that of a longer argument
      list extends that of a shorter one. */
  lemma {:induction false} FormatStringAppend(a: seq<Node>, b: seq<Node>)
    ensures FormatString(a + b) == FormatString(a) + FormatString(b)
    decreases |b|
  {
    if b == [] {
      assert a + b == a;
    } else {
      var init := b[..|b| - 1];
      assert (a + b)[..|a + b| - 1] == a + init;
      FormatStringAppend(a, init);
      Assoc(FormatString(a), FormatString(init), FormatPiece(b[|b| - 1]));
    }
  }

  /** The format string of a single argument: a literal's text verbatim,
      ` %d ` for anything else. */
  lemma FormatStringOne(a: Node)
    ensures IsLiteral(a) ==> FormatString([a]) == a.value
    ensures !IsLiteral(a) ==> FormatString([a]) == " %d "
  {
    assert [a][..0] == [];
  }

  lemma NonLiteralsWellFormed(es: seq<Node>)
    requires forall i | 0 <= i < |es| :: WellFormed(es[i])
    ensures forall i | 0 <= i < |NonLiterals(es)| :: WellFormed(NonLiterals(es)[i])
  {
    var r := NonLiterals(es);
    forall i | 0 <= i < |r|
      ensures WellFormed(r[i])
    {
      var j :| 0 <= j < |es| && es[j] == r[i];
    }
  }

  /** After the format string, `printf` receives exactly the non-literal
      arguments, each after `, `, rendered as a plain argument list. */
  lemma {:induction false} PrintArgsAreArgs(es: seq<Node>, level: int)
    requires forall i | 0 <= i < |es| :: WellFormed(es[i])
    ensures forall i | 0 <= i < |NonLiterals(es)| :: WellFormed(NonLiterals(es)[i])
    ensures PrintArgs(es, level) ==
      if NonLiterals(es) == [] then "" else ", " + ArgItems(NonLiterals(es), level)
    decreases |es|
  {
    var r := NonLiterals(es);
    NonLiteralsWellFormed(es);
    if es != [] {
      var init, last := es[..|es| - 1], es[|es| - 1];
      PrintArgsAreArgs(init, level);
      var ri := NonLiterals(init);
      if !IsLiteral(last) {
        assert r == ri + [last];
        assert r[..|r| - 1] == ri;
        var e := Emit(last, level);
        assert PrintArgs(es, level) == PrintArgs(init, level) + (", " + e);
        assert ArgItems(r, level) == ArgItems(ri, level) + (if |r| > 1 then ", " else "") + e;
        if ri == [] {
          assert ArgItems(r, level) == "" + "" + e;
          assert "" + "" + e == e;
          assert "" + (", " + e) == ", " + e;
        } else {
          var a := ArgItems(ri, level);
          assert PrintArgs(es, level) == (", " + a) + (", " + e);
          Assoc(", ", a, ", " + e);
          Assoc(a, ", ", e);
          assert ArgItems(r, level) == a + ", " + e;
        }
        assert PrintArgs(es, level) == ", " + ArgItems(r, level);
      } else {
        assert r == ri + [] == ri;
        assert PrintArgs(es, level) == PrintArgs(init, level) + "" == PrintArgs(init, level);
      }
    }
  }

  // ---------------------------------------------------------------------
  // Program frame

  /** Every program starts with the include line. Started at level 0, it
      ends with an indented `return 0;` and the `}` of `main` when `main`
      was opened, and with an unindented `return 0;` and a stray `}`
      otherwise. */
  lemma ProgramFrame(ns: seq<Node>)
    requires forall i | 0 <= i < |ns| :: WellFormed(ns[i])
    ensures
      var t := ProgramText(ns, 0);
      var tail := if HasEntry(ns) then "\treturn 0;\n}\n" else "return 0;\n}\n";
      |t| >= 18 + |tail| && t[..18] == "#include<stdio.h>\n" && t[|t| - |tail|..] == tail
  {
    var l := LoopLevel(ns, 0);
    var t, loop, tail := ProgramText(ns, 0), ProgramLoop(ns, 0), Indent(l) + "return 0;\n" + CloseText(l);
    ProgramTextParts(ns, 0);
    assert t == "#include<stdio.h>\n" + loop + tail;
    assert CloseText(l) == "}\n";
    if HasEntry(ns) {
      assert Indent(1) == "\t";
      assert tail == "\treturn 0;\n}\n";
    } else {
      assert tail == "return 0;\n}\n";
    }
    assert t[..18] == "#include<stdio.h>\n";
    assert t[|t| - |tail|..] == tail;
  }

  /** The include line, the loop, and the closing lines of a program. */
  lemma ProgramTextParts(ns: seq<Node>, level: int)
    requires forall i | 0 <= i < |ns| :: WellFormed(ns[i])
    ensures
      var l := LoopLevel(ns, level);
      ProgramText(ns, level) ==
        "#include<stdio.h>\n" + ProgramLoop(ns, level) + (Indent(l) + "return 0;\n" + CloseText(l))
  {
    var l := LoopLevel(ns, level);
    var head, loop := "#include<stdio.h>" + "\n", ProgramLoop(ns, level);
    Assoc(head + loop + Indent(l), "return 0;", "\n");
    Assoc(head + loop + Indent(l), "return 0;" + "\n", CloseText(l));
    Assoc(head + loop, Indent(l), "return 0;" + "\n" + CloseText(l));
    Assoc(Indent(l), "return 0;" + "\n", CloseText(l));
    assert "return 0;" + "\n" == "return 0;\n";
    assert head == "#include<stdio.h>\n";
  }

  /** Without a top-level `Var` or `Block`, `main` is never opened: every
      node is emitted at the starting level. */
  lemma NoEntryNoMain(ns: seq<Node>, level: int)
    requires forall i | 0 <= i < |ns| :: WellFormed(ns[i])
    requires forall i | 0 <= i < |ns| :: !IsEntry(ns[i])
    ensures ProgramLoop(ns, level) == EmitAll(ns, level)
  {
    assert FirstEntry(ns) == |ns|;
    assert ns[..|ns|] == ns;
  }

  /** With one, the nodes before the first `Var`/`Block` come before
      `int main()` at the starting level, and the rest come inside it. */
  lemma EntryOpensMain(ns: seq<Node>, level: int, k: nat)
    requires forall i | 0 <= i < |ns| :: WellFormed(ns[i])
    requires k < |ns| && IsEntry(ns[k]) && forall i | 0 <= i < k :: !IsEntry(ns[i])
    ensures ProgramLoop(ns, level) == EmitAll(ns[..k], level) + MainHeader(level) + EmitAll(ns[k..], level + 1)
  {
    assert FirstEntry(ns) == k;
    Assoc(EmitAll(ns[..k], level), MainHeader(level), EmitAll(ns[k..], level + 1));
  }

  // ---------------------------------------------------------------------
  // Concrete translations

  /** `a[1..5] of integer` declares six C elements. */
  lemma ArrayDeclExample()
    ensures Emit(ArrayDecl(Type("integer"), Id("a"), Int(1), Int(5)), 0) == "int a[6];"
  {
    assert IntToString(6) == "6";
  }

  /** Pascal's `=` is C's `==`, never an assignment. */
  lemma ComparisonExample()
    ensures Emit(BinOp(Id("x"), "=", Int(0)), 0) == "x == 0"
  {
    assert IntToString(0) == "0";
  }

  /** A call statement is the call text closed by `); `. */
  lemma CallStatement(f: string, args: Node, level: int)
    requires args.Args? && WellFormed(args)
    ensures WellFormed(FuncProcCall(Id(f), args))
    ensures Emit(FuncProcCall(Id(f), args), level) == CallText(f, args, level) + "); "
  {
    Assoc(CallText(f, args, level), ")", "; ");
  }

  /** `write` and `writeln` become `printf` with the format string (and
      `\n` for `writeln` only) followed by the non-literal arguments. */
  lemma PrintCallText(f: string, args: Node, level: int)
    requires args.Args? && WellFormed(args) && (f == "write" || f == "writeln")
    ensures CallText(f, args, level) ==
      "printf(\"" + FormatString(args.exprs) + (if f == "writeln" then "\\n" else "") + "\"" +
      PrintArgs(args.exprs, level)
  {
    assert "printf" + "(" + "\"" == "printf(\"";
  }

  /** `read` and `readln` become `scanf` of one integer into the argument
      list; every other name becomes a plain C call. */
  lemma OtherCallText(f: string, args: Node, level: int)
    requires args.Args? && WellFormed(args) && f != "write" && f != "writeln"
    ensures f == "read" || f == "readln" ==>
      CallText(f, args, level) == "scanf(\"%d\", &" + ArgItems(args.exprs, level)
    ensures f != "read" && f != "readln" ==>
      CallText(f, args, level) == f + "(" + ArgItems(args.exprs, level)
  {
    assert "scanf" + "(" + "\"%d\", &" == "scanf(\"%d\", &";
  }

  /** `write('<p>', v, '<q>')` prints through `printf` with one placeholder
      between the two literal texts, and the variable as its one argument. */
  lemma WriteShape(p: string, v: string, q: string, level: int)
    ensures Emit(FuncProcCall(Id("write"), Args([String(p), Id(v), String(q)])), level) ==
      "printf(\"" + p + " %d " + q + "\", " + v + "); "
  {
    var args := Args([String(p), Id(v), String(q)]);
    CallStatement("write", args, level);
    PrintCallText("write", args, level);
    WriteShapeFormat(p, v, q);
    WriteShapeArgs(p, v, q, level);
    WriteShapeText(p + " %d " + q, v);
  }

  lemma WriteShapeText(f: string, v: string)
    ensures "printf(\"" + f + "" + "\"" + (", " + v) + "); " == "printf(\"" + f + "\", " + v + "); "
  {
    Assoc("printf(\"" + f, "\"", ", " + v);
    Assoc("\"", ", ", v);
    assert "\"" + ", " == "\", ";
    Assoc("printf(\"" + f, "\", ", v);
  }

  lemma WriteShapeFormat(p: string, v: string, q: string)
    ensures FormatString([String(p), Id(v), String(q)]) == p + " %d " + q
  {
    FormatStringOne(String(p));
    FormatStringOne(Id(v));
    FormatStringOne(String(q));
    FormatStringAppend([String(p)], [Id(v)]);
    FormatStringAppend([String(p), Id(v)], [String(q)]);
    assert [String(p)] + [Id(v)] == [String(p), Id(v)];
    assert [String(p), Id(v)] + [String(q)] == [String(p), Id(v), String(q)];
  }

  lemma WriteShapeArgs(p: string, v: string, q: string, level: int)
    ensures PrintArgs([String(p), Id(v), String(q)], level) == ", " + v
  {
    var es := [String(p), Id(v), String(q)];
    assert es[..2] == [String(p), Id(v)];
    assert es[..2][..1] == [String(p)] && [String(p)][..0] == [];
    assert PrintArgs(es[..1], level) == "";
    assert PrintArgs(es[..2], level) == ", " + v;
  }

  /** `writeln(v)` prints `v` through one placeholder, followed by the two
      characters `\n`. */
  lemma WritelnShape(v: string, level: int)
    ensures Emit(FuncProcCall(Id("writeln"), Args([Id(v)])), level) == "printf(\" %d \\n\", " + v + "); "
  {
    var args := Args([Id(v)]);
    CallStatement("writeln", args, level);
    PrintCallText("writeln", args, level);
    FormatStringOne(Id(v));
    assert [Id(v)][..0] == [];
    assert PrintArgs([Id(v)], level) == ", " + v;
    WritelnShapeText(v);
  }

  lemma WritelnShapeText(v: string)
    ensures "printf(\"" + " %d " + "\\n" + "\"" + (", " + v) + "); " == "printf(\" %d \\n\", " + v + "); "
  {
    assert "printf(\"" + " %d " + "\\n" + "\"" == "printf(\" %d \\n\"";
    Assoc("printf(\" %d \\n\"", ", ", v);
    assert "printf(\" %d \\n\"" + ", " == "printf(\" %d \\n\", ";
  }

  /** `readln(v)` reads one integer into `v`. */
  lemma ReadlnShape(v: string, level: int)
    ensures Emit(FuncProcCall(Id("readln"), Args([Id(v)])), level) == "scanf(\"%d\", &" + v + "); "
  {
    var args := Args([Id(v)]);
    CallStatement("readln", args, level);
    OtherCallText("readln", args, level);
    assert [Id(v)][..0] == [];
    assert ArgItems([Id(v)], level) == v;
  }
}
