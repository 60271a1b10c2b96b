/** The text each handler of the generator appends, as pure functions of the
    node and of the indentation level at which the handler starts. The class
    in module CodeGenerator is proved to append exactly this text. */
module Emitter {
  import opened Ast

  /** `indent`: one tab per level; a level of zero or below (a `range` over
      a non-positive bound) gives no tab at all. */
  function Indent(level: int): (r: string)
    ensures |r| == if level > 0 then level else 0
    ensures forall i | 0 <= i < |r| :: r[i] == '\t'
    decreases if level > 0 then level else 0
  {
    if level <= 0 then "" else Indent(level - 1) + "\t"
  }

  lemma IndentBraceFree(level: int)
    ensures BraceFree(Indent(level))
  {
    var r := Indent(level);
    assert forall i | 0 <= i < |r| :: r[i] != '{' && r[i] != '}';
  }

  // ---------------------------------------------------------------------
  // Decimal rendering of integers (`str` of an `int` in `append`)

  predicate IsDigit(c: char) {
    '0' <= c <= '9'
  }

  function DigitChar(d: int): (c: char)
    requires 0 <= d < 10
    ensures IsDigit(c)
  {
    ('0' as int + d) as char
  }

  function DigitValue(c: char): int {
    c as int - '0' as int
  }

  /** Decimal digits of a natural number, most significant first, with no
      leading zero. */
  function NatToString(n: nat): (r: string)
    ensures |r| >= 1
    ensures forall i | 0 <= i < |r| :: IsDigit(r[i])
    ensures |r| > 1 ==> r[0] != '0'
  {
    if n < 10 then [DigitChar(n)] else NatToString(n / 10) + [DigitChar(n % 10)]
  }

  /** The decimal text Python's `str` gives an `int`: a minus sign for a
      negative number, then the digits of its magnitude. */
  function IntToString(i: int): (r: string)
    ensures BraceFree(r)
    ensures |r| >= 1 && (r[0] == '-' <==> i < 0)
  {
    if i < 0 then "-" + NatToString(-i) else NatToString(i)
  }

  /** The value of a string of decimal digits, read most significant first. */
  function DecimalValue(s: string): int {
    if s == [] then 0 else DecimalValue(s[..|s| - 1]) * 10 + DigitValue(s[|s| - 1])
  }

  /** Reads back what `IntToString` writes. */
  function ParseInt(s: string): int {
    if |s| > 0 && s[0] == '-' then -DecimalValue(s[1..]) else DecimalValue(s)
  }

  lemma {:induction false} NatToStringRoundTrip(n: nat)
    ensures DecimalValue(NatToString(n)) == n
  {
    if n >= 10 {
      NatToStringRoundTrip(n / 10);
      var r := NatToString(n);
      assert r[..|r| - 1] == NatToString(n / 10);
    }
  }

  /** The digits written for an `Int` literal or an array size denote exactly
      that number. */
  lemma IntToStringRoundTrip(i: int)
    ensures ParseInt(IntToString(i)) == i
  {
    if i < 0 {
      NatToStringRoundTrip(-i);
      assert IntToString(i)[1..] == NatToString(-i);
    } else {
      NatToStringRoundTrip(i);
    }
  }

  // ---------------------------------------------------------------------
  // Mapping tables

  /** `visit_Type`: `integer` becomes C's `int`; every other type name is
      copied verbatim. */
  function TypeName(name: string): (r: string)
    ensures name == "integer" ==> r == "int"
    ensures name != "integer" ==> r == name
    ensures BraceFree(name) ==> BraceFree(r)
  {
    if name == "integer" then "int" else name
  }

  /** `visit_BinOp`: the C spelling of an operator, surrounded by one space on
      each side. */
  function OperatorText(symbol: string): (r: string)
    ensures symbol == "=" ==> r == " == "
    ensures symbol == "mod" ==> r == " % "
    ensures symbol == "div" ==> r == " / "
    ensures symbol == "and" ==> r == " && "
    ensures symbol == "or" ==> r == " || "
    ensures symbol !in {"=", "mod", "div", "and", "or"} ==> r == " " + symbol + " "
    ensures |r| >= 2 && r[0] == ' ' && r[|r| - 1] == ' '
    ensures r != " = "
    ensures BraceFree(symbol) ==> BraceFree(r)
  {
    if symbol == "=" then " == "
    else if symbol == "mod" then " % "
    else if symbol == "div" then " / "
    else if symbol == "and" then " && "
    else if symbol == "or" then " || "
    else
      var r := " " + symbol + " ";
      assert |symbol| == 1 ==> symbol == [symbol[0]] && r[1] == symbol[0];
      r
  }

  /** `visit_ArrayDecl`: the number of C elements declared for a Pascal
      array with bounds `start..end`. */
  function ArraySize(start: int, end: int): int {
    end - start + 2
  }

  predicate IndexFits(i: int, size: int) {
    0 <= i < size
  }

  /** The C array has one slot more than the Pascal range has indices, and
      every Pascal index `start..end`, used unchanged as a C index, lies
      inside it exactly when the lower bound is 0 or 1. */
  lemma ArrayIndicesFit(start: int, end: int)
    requires start <= end
    ensures ArraySize(start, end) == (end - start + 1) + 1
    ensures (forall i | start <= i <= end :: IndexFits(i, ArraySize(start, end))) <==> 0 <= start <= 1
  {
    if forall i | start <= i <= end :: IndexFits(i, ArraySize(start, end)) {
      assert IndexFits(start, ArraySize(start, end));
      assert IndexFits(end, ArraySize(start, end));
    }
  }

  // ---------------------------------------------------------------------
  // Node text

  lemma Assoc(a: string, b: string, c: string)
    ensures a + b + c == a + (b + c)
  {
  }

  /** `open_scope` at `level`: an indented `{` on a line of its own. */
  function OpenText(level: int): string {
    Indent(level) + "{" + "\n"
  }

  /** `close_scope` when the level is `level`: the level is lowered first,
      so the `}` is indented like the `{` that opened the scope. */
  function CloseText(level: int): string {
    Indent(level - 1) + "}" + "\n"
  }

  /** The text appended by visiting `n` when the indentation level is
      `level`. No handler but `visit_Program` changes the level for good. */
  function Emit(n: Node, level: int): string
    requires WellFormed(n)
    decreases n, 2
  {
    match n
    case Block(ns) => BlockItems(ns, level)
    case Var(ns) => VarItems(ns, level) + "\n"
    case Decl(t, id) => Emit(t, level) + " " + Emit(id, level) + ";"
    case ArrayDecl(t, id, s, e) =>
      Emit(t, level) + " " + Emit(id, level) + "[" +
      IntToString(ArraySize(s.number, e.number)) + "]" + ";"
    case Assign(id, e) => Emit(id, level) + " = " + Emit(e, level) + "; "
    case BinOp(a, sym, b) => Emit(a, level) + OperatorText(sym) + Emit(b, level)
    case Id(v) => v
    case Int(x) => IntToString(x)
    case String(v) => "\"" + v + "\""
    case Char(v) => "'" + v + "'"
    case Type(v) => TypeName(v)
    case For(_, _, block) => ForHead(n, level) + ScopeText(block, level)
    case If(_, t, f) =>
      IfHead(n, level) + ScopeText(t, level) + (if f.Some? then ElseText(n, level) else "")
    case Proc(_, _, _, _) => ProcHead(n, level) + ProcBody(n, level)
    case Params(ds) => ParamItems(ds, level)
    case FuncProcCall(id, args) =>
      assert WellFormed(args);
      CallText(id.value, args, level) + ")" + "; "
    case Args(es) => ArgItems(es, level)
    case Exit => "return;"
    case ArrayElem(id, idx) => Emit(id, level) + "[" + Emit(idx, level) + "]"
  }

  /** `open_scope`, the body one level deeper, `close_scope`. */
  function ScopeText(b: Node, level: int): string
    requires WellFormed(b)
    decreases b, 3
  {
    OpenText(level) + Emit(b, level + 1) + CloseText(level + 1)
  }

  /** `visit_For` up to its scope: the C loop header on a line of its own. */
  function ForHead(n: Node, level: int): string
    requires n.For? && WellFormed(n)
    decreases n, 1
  {
    assert WellFormed(n.start);
    var id := Emit(n.start.id, level);
    "for" + "(" + Emit(n.start, level) + id + " <= " + Emit(n.end, level) + "; " + id + "++" + ")" + "\n"
  }

  /** `visit_If` up to its first scope: the condition in `if( … )`. */
  function IfHead(n: Node, level: int): string
    requires n.If? && WellFormed(n)
    decreases n, 1
  {
    "if( " + Emit(n.cond, level) + " )" + "\n"
  }

  /** The `else` arm of an `if`: the keyword on its own line, then a scope. */
  function ElseText(n: Node, level: int): string
    requires n.If? && n.onFalse.Some? && WellFormed(n)
    decreases n, 1
  {
    Indent(level) + "else" + "\n" + ScopeText(n.onFalse.value, level)
  }

  /** `visit_Proc` up to its scope: `void`, the name, the parameters. */
  function ProcHead(n: Node, level: int): string
    requires n.Proc? && WellFormed(n)
    decreases n, 1
  {
    "void " + Emit(n.id, level) + "(" + (if n.params.Some? then Emit(n.params.value, level) else "") + ")" + "\n"
  }

  /** The scope of a procedure: its local declarations, if any, come
      inside the braces, before the body. */
  function ProcBody(n: Node, level: int): string
    requires n.Proc? && WellFormed(n)
    decreases n, 1
  {
    OpenText(level) + (if n.variables.Some? then Emit(n.variables.value, level + 1) else "") +
    Emit(n.block, level + 1) + CloseText(level + 1)
  }

  /** `visit_FuncProcCall` up to the closing parenthesis: `printf` with a
      format string for `write`/`writeln`, `scanf` reading one integer for
      `read`/`readln`, and a plain call for every other name. */
  function CallText(f: string, args: Node, level: int): string
    requires args.Args? && WellFormed(args)
    decreases args, 3
  {
    if f == "writeln" || f == "write" then
      "printf" + "(" + "\"" + FormatString(args.exprs) + (if f == "writeln" then "\\n" else "") + "\"" +
      PrintArgs(args.exprs, level)
    else if f == "read" || f == "readln" then
      "scanf" + "(" + "\"%d\", &" + Emit(args, level)
    else
      f + "(" + Emit(args, level)
  }

  /** `visit_Block`: each statement on its own indented line. */
  function BlockItems(ns: seq<Node>, level: int): string
    requires forall i | 0 <= i < |ns| :: WellFormed(ns[i])
    decreases ns, 0
  {
    if ns == [] then ""
    else BlockItems(ns[..|ns| - 1], level) + Indent(level) + Emit(ns[|ns| - 1], level) + "\n"
  }

  /** `visit_Var`: each declaration after a line break and an indent. */
  function VarItems(ns: seq<Node>, level: int): string
    requires forall i | 0 <= i < |ns| :: WellFormed(ns[i])
    decreases ns, 0
  {
    if ns == [] then ""
    else VarItems(ns[..|ns| - 1], level) + "\n" + Indent(level) + Emit(ns[|ns| - 1], level)
  }

  /** `visit_Args`: the arguments separated by `, `. */
  function ArgItems(es: seq<Node>, level: int): string
    requires forall i | 0 <= i < |es| :: WellFormed(es[i])
    decreases es, 0
  {
    if es == [] then ""
    else ArgItems(es[..|es| - 1], level) + (if |es| > 1 then ", " else "") + Emit(es[|es| - 1], level)
  }

  /** `visit_Params`: each parameter as `<type> <name>`, separated by `, `. */
  function ParamItems(ds: seq<Node>, level: int): string
    requires forall i | 0 <= i < |ds| :: (ds[i].Decl? || ds[i].ArrayDecl?) && WellFormed(ds[i])
    decreases ds, 0
  {
    if ds == [] then ""
    else
      ParamItems(ds[..|ds| - 1], level) + (if |ds| > 1 then ", " else "") + ParamText(ds[|ds| - 1], level)
  }

  /** One parameter: its type, a space, its name. */
  function ParamText(d: Node, level: int): string
    requires (d.Decl? || d.ArrayDecl?) && WellFormed(d)
    decreases d, 0
  {
    Emit(d.typ, level) + " " + Emit(d.id, level)
  }

  /** What one `write` argument contributes to the format string. */
  function FormatPiece(a: Node): string {
    if IsLiteral(a) then a.value else " %d "
  }

  /** The `printf` format string of a `write`/`writeln`, left to right. */
  function FormatString(es: seq<Node>): string {
    if es == [] then "" else FormatString(es[..|es| - 1]) + FormatPiece(es[|es| - 1])
  }

  /** The arguments after the format string: `, <arg>` for each argument
      that is not a literal. */
  function PrintArgs(es: seq<Node>, level: int): string
    requires forall i | 0 <= i < |es| :: WellFormed(es[i])
    decreases es, 0
  {
    if es == [] then ""
    else
      var a := es[|es| - 1];
      PrintArgs(es[..|es| - 1], level) + (if IsLiteral(a) then "" else ", " + Emit(a, level))
  }

  // ---------------------------------------------------------------------
  // Program text

  /** The nodes visited one after the other, all at one level. */
  function EmitAll(ns: seq<Node>, level: int): string
    requires forall i | 0 <= i < |ns| :: WellFormed(ns[i])
  {
    if ns == [] then "" else EmitAll(ns[..|ns| - 1], level) + Emit(ns[|ns| - 1], level)
  }

  /** The position of the first `Var` or `Block`, or `|ns|` if there is none. */
  function FirstEntry(ns: seq<Node>): (k: nat)
    ensures k <= |ns|
    ensures forall j | 0 <= j < k :: !IsEntry(ns[j])
    ensures k < |ns| ==> IsEntry(ns[k])
  {
    if ns == [] then 0
    else if IsEntry(ns[0]) then 0
    else 1 + FirstEntry(ns[1..])
  }

  predicate HasEntry(ns: seq<Node>) {
    FirstEntry(ns) < |ns|
  }

  /** `int main()` followed by `open_scope`. */
  function MainHeader(level: int): string {
    "int main()" + "\n" + OpenText(level)
  }

  /** The loop of `visit_Program`: every node before the first `Var`/`Block`
      at the starting level, then the header of `main`, then that node and
      all later ones inside `main`, one level deeper. */
  function ProgramLoop(ns: seq<Node>, level: int): string
    requires forall i | 0 <= i < |ns| :: WellFormed(ns[i])
  {
    var k := FirstEntry(ns);
    EmitAll(ns[..k], level) + (if k < |ns| then MainHeader(level) + EmitAll(ns[k..], level + 1) else "")
  }

  /** The level after the loop of `visit_Program`. */
  function LoopLevel(ns: seq<Node>, level: int): int {
    if HasEntry(ns) then level + 1 else level
  }

  /** The level `visit_Program` leaves behind: its final `close_scope` lowers
      the level whether or not `main` was opened. */
  function ProgramFinalLevel(ns: seq<Node>, level: int): int {
    LoopLevel(ns, level) - 1
  }

  /** `visit_Program`: the include line, the loop, `return 0;` and the final
      `close_scope`. */
  function ProgramText(ns: seq<Node>, level: int): string
    requires forall i | 0 <= i < |ns| :: WellFormed(ns[i])
  {
    var l := LoopLevel(ns, level);
    "#include<stdio.h>" + "\n" + ProgramLoop(ns, level) + Indent(l) + "return 0;" + "\n" + CloseText(l)
  }

  /** Where the first `Var`/`Block` of `s + [x]` is, given where that of `s` is. */
  lemma {:induction false} FirstEntryAppend(s: seq<Node>, x: Node)
    ensures FirstEntry(s + [x]) ==
      if FirstEntry(s) < |s| then FirstEntry(s)
      else if IsEntry(x) then |s| else |s| + 1
    decreases |s|
  {
    if s == [] {
      assert [x][1..] == [];
    } else {
      assert (s + [x])[1..] == s[1..] + [x];
      FirstEntryAppend(s[1..], x);
    }
  }

  lemma EmitAllAppend(s: seq<Node>, x: Node, level: int)
    requires forall i | 0 <= i < |s| :: WellFormed(s[i])
    requires WellFormed(x)
    ensures forall i | 0 <= i < |s + [x]| :: WellFormed((s + [x])[i])
    ensures EmitAll(s + [x], level) == EmitAll(s, level) + Emit(x, level)
  {
    assert (s + [x])[..|s|] == s;
  }

  /** One step of the `visit_Program` loop: the one-shot flag opens `main`
      just before the first `Var`/`Block`, and from then on every node is
      emitted one level deeper. */
  lemma ProgramLoopStep(s: seq<Node>, x: Node, level: int)
    requires forall i | 0 <= i < |s| :: WellFormed(s[i])
    requires WellFormed(x)
    ensures forall i | 0 <= i < |s + [x]| :: WellFormed((s + [x])[i])
    ensures HasEntry(s + [x]) <==> HasEntry(s) || IsEntry(x)
    ensures ProgramLoop(s + [x], level) ==
      ProgramLoop(s, level) +
      (if !HasEntry(s) && IsEntry(x) then MainHeader(level) else "") +
      Emit(x, LoopLevel(s + [x], level))
  {
    EmitAllAppend(s, x, level);
    FirstEntryAppend(s, x);
    var p := ProgramLoop(s, level);
    if HasEntry(s) {
      assert LoopLevel(s + [x], level) == level + 1;
      StepInsideMain(s, x, level);
      assert p + "" == p;
    } else if IsEntry(x) {
      assert LoopLevel(s + [x], level) == level + 1;
      StepOpeningMain(s, x, level);
    } else {
      assert LoopLevel(s + [x], level) == level;
      StepBeforeMain(s, x, level);
      assert p + "" == p;
    }
  }

  lemma StepInsideMain(s: seq<Node>, x: Node, level: int)
    requires forall i | 0 <= i < |s| :: WellFormed(s[i])
    requires WellFormed(x)
    requires forall i | 0 <= i < |s + [x]| :: WellFormed((s + [x])[i])
    requires FirstEntry(s) < |s| && FirstEntry(s + [x]) == FirstEntry(s)
    ensures ProgramLoop(s + [x], level) == ProgramLoop(s, level) + Emit(x, level + 1)
  {
    var t, k := s + [x], FirstEntry(s);
    assert t[..k] == s[..k];
    assert t[k..] == s[k..] + [x];
    EmitAllAppend(s[k..], x, level + 1);
  }

  lemma StepOpeningMain(s: seq<Node>, x: Node, level: int)
    requires forall i | 0 <= i < |s| :: WellFormed(s[i])
    requires WellFormed(x)
    requires forall i | 0 <= i < |s + [x]| :: WellFormed((s + [x])[i])
    requires FirstEntry(s) == |s| && FirstEntry(s + [x]) == |s|
    ensures ProgramLoop(s + [x], level) == ProgramLoop(s, level) + MainHeader(level) + Emit(x, level + 1)
  {
    var t := s + [x];
    assert t[..|s|] == s;
    assert s[..|s|] == s;
    assert t[|s|..] == [] + [x];
    EmitAllAppend([], x, level + 1);
  }

  lemma StepBeforeMain(s: seq<Node>, x: Node, level: int)
    requires forall i | 0 <= i < |s| :: WellFormed(s[i])
    requires WellFormed(x)
    requires forall i | 0 <= i < |s + [x]| :: WellFormed((s + [x])[i])
    requires EmitAll(s + [x], level) == EmitAll(s, level) + Emit(x, level)
    requires FirstEntry(s) == |s| && FirstEntry(s + [x]) == |s| + 1
    ensures ProgramLoop(s + [x], level) == ProgramLoop(s, level) + Emit(x, level)
  {
    var t := s + [x];
    assert t[..|t|] == t;
    assert s[..|s|] == s;
  }

  /** The level after `visit_Program` is the starting level exactly when
      some top-level node is a `Var` or `Block` (so `main` was opened and
      closed), and one below it otherwise. */
  lemma ProgramLevel(ns: seq<Node>, level: int)
    ensures ProgramFinalLevel(ns, level) == level <==> exists i | 0 <= i < |ns| :: IsEntry(ns[i])
    ensures ProgramFinalLevel(ns, level) == level - 1 <==> forall i | 0 <= i < |ns| :: !IsEntry(ns[i])
  {
    var k := FirstEntry(ns);
    if k < |ns| {
      assert IsEntry(ns[k]);
    }
  }
}
