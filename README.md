# Pascal-to-C code generator, modelled in Dafny

This project models the code-generation backend of a small Pascal-to-C
translator: the `Generator` class of `modules/generator.py`. It walks an
already-parsed syntax tree and appends C text to a string buffer `py`, while
a counter `level` tracks the indentation depth. `open_scope` writes an
indented `{` and raises the level, and `close_scope` lowers the level and
writes an indented `}`. `visit_Program` writes the `#include` line, opens a
synthesized `int main()` just before the first top-level `Var` or `Block`,
and ends with `return 0;` and a final `close_scope`. `generate` then removes
blank lines with `re.sub('\n\s*\n', '\n', ...)`.

The model has six modules:

- `Ast` (`ast.dfy`) is the syntax tree. It has one constructor per node kind a
  handler reads, with the fields that handler reads. These fields are
  renamed because Dafny rules out their names:
  - `true`/`false` are keywords and become `onTrue`/`onFalse`.
  - The integer `value` clashes with the string `value` of other nodes and
    becomes `number`.
  - `Args.args` clashes with `FuncProcCall.args` and becomes `exprs`.
  - `Params.params` clashes with `Proc.params` and becomes `decls`.

  Four more are renamed only to follow Dafny's naming style: `id_`→`id`,
  `type_`→`typ` and `start_index`/`end_index`→`startIndex`/`endIndex`.
  `Program` is a type of its own, so it cannot be nested inside another
  node. `WellFormed` states the shapes the parser builds, which the handlers
  rely on without checking them:
  - a `for` starts with an assignment;
  - array bounds are integer literals;
  - a call has an identifier and an argument list;
  - a parameter has a type and a name.
- `Emitter` (`emitter.dfy`) gives, as pure functions, the exact text each
  handler appends for a node at a given level. It also holds the mapping
  tables, the decimal rendering of integers, the array sizing rule and the
  text of a whole program.
- `CodeGenerator` (`generator.dfy`) is the `Generator` class itself. It has a
  `py: string` field and a `level: int` field, and one method per handler,
  each written step by step as in the source. Every `Visit` handler
  method is proved to append exactly the `Emitter` text for its node and to
  leave `level` as it found it. `VisitProgram` is the exception: it ends one
  level lower when no `main` was opened. The scope methods, `OpenMain` and
  the steps of the top-level loop change `level` as their rows state. The loops of `indent`, `visit_Program`, `visit_Block`,
  `visit_Var`, `visit_Args`, `visit_Params` and `visit_FuncProcCall` are
  loops here too, with their invariants. The one-shot `is_in_main` flag is
  the loop variable `beforeMain`.
- `Normalize` (`normalize.dfy`) is the blank-line removal, written out by
  hand as `Collapse`.
- `Balance` (`balance.dfy`) and `EmitterFacts` (`emitter_facts.dfy`) prove
  properties of that text:
  - every text has as many `}` as `{` (counts only; the nesting order is not proved);
  - the shape of `printf`/`scanf` calls;
  - the frame around a program;
  - a few concrete translations.

The code is followed wherever a prose description of the system differs
from it:

- A program with no top-level `Var` or `Block` never opens `main`. The final
  `close_scope` still runs, so the text ends in an unmatched `}` and the level
  ends at −1 (at one below the start level). The model keeps this behaviour:
  `Emitter.ProgramLevel`, `Balance.ProgramBalance` and
  `EmitterFacts.ProgramFrame` state it.
- The blank-line pattern uses `\s`, so any whitespace that `str.isspace`
  accepts may sit between the line breaks, not only spaces and tabs. The
  spaces after the last line break of a run are kept.
- The array size is `end - start + 2`, as written. `Emitter.ArrayIndicesFit`
  shows what this means when Pascal indices are used unchanged as C indices:
  every index fits exactly when the lower bound is 0 or 1.

## Model

| member | source | states |
|---|---|---|
| CodeGenerator.Generator.constructor | modules/generator.py:8-11 | a new generator holds the tree, an empty buffer and level 0 |
| CodeGenerator.Generator.Append | modules/generator.py:13-14 | the buffer grows by exactly the given text; the level is unchanged |
| CodeGenerator.Generator.Newline | modules/generator.py:16-17 | appends one line break |
| CodeGenerator.Generator.Indent | modules/generator.py:19-21 | appends one tab per level, and none when the level is zero or negative |
| CodeGenerator.Generator.OpenScope | modules/generator.py:23-27 | appends an indented `{` line and raises the level by exactly one |
| CodeGenerator.Generator.CloseScope | modules/generator.py:29-33 | lowers the level by exactly one, then appends a `}` line indented at the new level |
| CodeGenerator.Generator.Libs | modules/generator.py:35-37 | appends the `#include<stdio.h>` line |
| CodeGenerator.Generator.OpenMain | modules/generator.py:44-46 | appends `int main()` and opens its scope, one level deeper |
| CodeGenerator.Generator.VisitTopLevelNode | modules/generator.py:42-48 | one pass of the loop: `main` is opened first exactly when the flag is set and the node is a `Var`/`Block`, which also clears the flag; the node is then visited at the resulting level |
| CodeGenerator.Generator.VisitTopLevel | modules/generator.py:41-48 | the loop with the one-shot flag: nodes before the first `Var`/`Block` come at the start level, then the `main` header, then that node and all later ones one level deeper; the level ends one higher exactly when `main` was opened |
| CodeGenerator.Generator.VisitProgram | modules/generator.py:39-52 | appends the include line, the top-level loop, an indented `return 0;` and a `close_scope`; the final level is the start level if `main` was opened and one below it otherwise |
| CodeGenerator.Generator.VisitBlock | modules/generator.py:54-58 | appends each statement on its own indented line; the level is unchanged |
| CodeGenerator.Generator.VisitFuncProcCall | modules/generator.py:60-90 | appends the call text followed by `); ` |
| CodeGenerator.Generator.VisitCall | modules/generator.py:61-88 | appends the call text up to the closing parenthesis: `printf` through `VisitPrint` for `write`/`writeln`, `scanf("%d", &` and the arguments for `read`/`readln`, and `name(` and the arguments for any other name |
| CodeGenerator.Generator.VisitPrint | modules/generator.py:62-79 | appends `printf("`, the format string, `\n` exactly when asked for, `"`, and then the non-literal arguments |
| CodeGenerator.Generator.VisitOtherCall | modules/generator.py:80-88 | appends the opening text (`scanf("%d", &` or `name(`) and then the arguments separated by `, ` |
| CodeGenerator.PrintFormat | modules/generator.py:65-70 | the format string is the left-to-right concatenation of each literal argument's text, with ` %d ` for every other argument |
| CodeGenerator.Generator.VisitPrintArgs | modules/generator.py:76-79 | appends `, <arg>` for each non-literal argument, in order |
| CodeGenerator.Generator.VisitArgs | modules/generator.py:92-96 | appends the arguments separated by `, ` |
| CodeGenerator.Generator.VisitString | modules/generator.py:98-101 | appends the text in double quotes |
| CodeGenerator.Generator.VisitChar | modules/generator.py:103-106 | appends the text in single quotes |
| CodeGenerator.Generator.VisitInt | modules/generator.py:108-109 | appends the decimal digits of the value |
| CodeGenerator.Generator.VisitBinOp | modules/generator.py:111-125 | appends the left operand, the mapped operator and the right operand |
| CodeGenerator.Generator.VisitVar | modules/generator.py:127-132 | appends each declaration after a line break and an indent, then a final line break |
| CodeGenerator.Generator.VisitDecl | modules/generator.py:134-138 | appends `<type> <name>;` |
| CodeGenerator.Generator.VisitAssign | modules/generator.py:140-144 | appends `<name> = <expr>; ` |
| CodeGenerator.Generator.VisitType | modules/generator.py:146-150 | appends `int` for `integer` and any other type name verbatim |
| CodeGenerator.Generator.VisitId | modules/generator.py:152-153 | appends the identifier |
| CodeGenerator.Generator.VisitForHead | modules/generator.py:156-166 | appends the C loop header: the start assignment, then guard and step on its variable |
| CodeGenerator.Generator.VisitScope | modules/generator.py:167-169 | opens a scope, visits the body one level deeper, closes the scope; the level is restored |
| CodeGenerator.Generator.VisitFor | modules/generator.py:155-169 | appends the loop header and one scope; the level is unchanged |
| CodeGenerator.Generator.VisitIfHead | modules/generator.py:172-175 | appends `if( <cond> )` and a line break |
| CodeGenerator.Generator.VisitElse | modules/generator.py:179-185 | appends an indented `else` line and a second scope |
| CodeGenerator.Generator.VisitIf | modules/generator.py:171-185 | appends the condition, the scope for the true branch, and the `else` arm exactly when a false branch is present; the level is unchanged |
| CodeGenerator.Generator.VisitProcHead | modules/generator.py:188-194 | appends `void <name>(<params>)` and a line break; the parameters only when present |
| CodeGenerator.Generator.VisitProcBody | modules/generator.py:195-199 | appends one scope holding the local declarations, if any, before the body |
| CodeGenerator.Generator.VisitProc | modules/generator.py:187-199 | appends the procedure header and its scope; the level is unchanged |
| CodeGenerator.Generator.VisitParams | modules/generator.py:201-207 | appends each parameter as `<type> <name>`, separated by `, ` |
| CodeGenerator.Generator.VisitParam | modules/generator.py:205-207 | appends one parameter's type, a space and its name |
| CodeGenerator.Generator.VisitExit | modules/generator.py:209-210 | appends `return;` |
| CodeGenerator.Generator.VisitArrayElem | modules/generator.py:212-216 | appends `<name>[<index>]` |
| CodeGenerator.Generator.VisitArrayDecl | modules/generator.py:218-226 | appends `<type> <name>[N];` with N = end − start + 2 |
| CodeGenerator.Generator.Generate | modules/generator.py:228-230 | the buffer becomes the blank-line-free form of the program text, and the level is that of `visit_Program` |
| Emitter.Emit | modules/generator.py:54-226 | the text the handler for a node appends at a given level. Each node kind is written as its handler writes it: leaves copied or mapped, children visited in source order, and the `for`, `if` and procedure bodies inside an `open_scope`/`close_scope` pair one level deeper (the properties are the lemmas of `Balance` and `EmitterFacts` and the handler methods' ensures) |
| Emitter.ProgramText | modules/generator.py:39-52 | the text of `visit_Program`: the include line, every top-level node (with `int main()` and its scope opened just before the first `Var`/`Block`), an indented `return 0;` and a `close_scope` at the level the loop left (properties in `EmitterFacts.ProgramFrame`, `Balance.ProgramBalance`) |
| Emitter.Indent | modules/generator.py:19-21 | the indentation has max(level, 0) characters, all tabs |
| Emitter.NatToString | modules/generator.py:223-224 | at least one character, all decimal digits, no leading zero |
| Emitter.IntToString | modules/generator.py:223-224 | brace-free, and starts with `-` exactly when the number is negative |
| Emitter.IntToStringRoundTrip | modules/generator.py:223-224 | reading the written digits back gives the number |
| Emitter.NatToStringRoundTrip | modules/generator.py:223-224 | reading the digits of a natural number back gives that number |
| Emitter.TypeName | modules/generator.py:146-150 | `integer` maps to `int` and every other name to itself |
| Emitter.OperatorText | modules/generator.py:113-124 | `=`→` == `, `mod`→` % `, `div`→` / `, `and`→` && `, `or`→` \|\| `, any other symbol s→` s `; the result starts and ends with a space and is never the assignment ` = ` |
| Emitter.ArrayIndicesFit | modules/generator.py:223 | the size is one more than the number of Pascal indices, and every Pascal index is a valid C index exactly when the lower bound is 0 or 1 |
| Emitter.FirstEntry | modules/generator.py:41-43 | the position of the first `Var`/`Block`: no such node before it, one at it unless it is the length |
| Emitter.FirstEntryAppend | modules/generator.py:42-47 | appending a node keeps an existing first entry, and makes the new node the first entry only if there was none and it qualifies |
| Emitter.ProgramLoopStep | modules/generator.py:42-48 | one loop step: `main` has been opened after the step exactly when it had been before or the node is a `Var`/`Block`; the `main` header is appended exactly when the flag is still set and the node is a `Var`/`Block`; the node is then emitted at the start level before `main` and one level deeper after it |
| Emitter.ProgramLevel | modules/generator.py:49-52 | the final level equals the start level exactly when some top-level node is a `Var`/`Block`, and is one below it exactly when none is |
| Normalize.Collapse | modules/generator.py:230 | the substitution: a line break whose following whitespace reaches another line break is dropped together with that whitespace, and every other character is copied; the result is never longer than the input and is empty only for the empty input |
| Normalize.InlineSpaces | modules/generator.py:230 | the length of the longest prefix of whitespace other than line breaks |
| Normalize.CollapseNoBlankLines | modules/generator.py:230 | after the substitution, no line break is followed by only whitespace and another line break |
| Normalize.CollapseKeepsVisible | modules/generator.py:230 | the non-whitespace characters are kept, in order |
| Normalize.CollapseFixesNormalText | modules/generator.py:230 | a text without blank lines is left unchanged |
| Normalize.CollapseIdempotent | modules/generator.py:230 | applying the substitution twice gives the same result as applying it once |
| Normalize.CollapseCount | modules/generator.py:230 | every non-whitespace character occurs as often after the substitution as before |
| Balance.ScopeTextsBalance | modules/generator.py:23-33 | `open_scope` writes one more `{` than `}`, and `close_scope` one more `}` than `{` |
| Balance.EmitBalanced | modules/generator.py:54-226 | the text of every node has as many `}` as `{` |
| Balance.ScopeBalanced | modules/generator.py:167-169 | a scope with its body has as many `}` as `{` |
| Balance.ForBalanced | modules/generator.py:155-169 | a `for` loop's text has as many `}` as `{` |
| Balance.IfBalanced | modules/generator.py:171-185 | an `if`, with or without `else`, has as many `}` as `{` |
| Balance.ProcBalanced | modules/generator.py:187-199 | a procedure's text has as many `}` as `{` |
| Balance.CallBalanced | modules/generator.py:60-88 | a call's text has as many `}` as `{` |
| Balance.ProgramLoopBalance | modules/generator.py:41-48 | the loop's text has one `{` more than `}` if `main` was opened, and as many of each otherwise |
| Balance.ProgramBalance | modules/generator.py:39-52 | the program text has as many `}` as `{` when `main` was opened, and one `}` more than `{` otherwise |
| Balance.CollapseBalance | modules/generator.py:230 | removing blank lines keeps the brace balance |
| Balance.TranslationBalance | modules/generator.py:228-230 | the text `generate` writes has as many `}` as `{` when the program has a top-level `Var`/`Block`, and exactly one `}` more than `{` otherwise |
| EmitterFacts.NonLiterals | modules/generator.py:76-77 | the arguments that are neither `String` nor `Char`: every one of them, and only those |
| EmitterFacts.NonLiteralsAppend | modules/generator.py:76-79 | the selection of a concatenation is the concatenation of the selections, so the selected arguments keep their order and every occurrence, one `, <arg>` each |
| EmitterFacts.FormatStringAppend | modules/generator.py:65-70 | the format string of concatenated argument lists is the concatenation of their format strings |
| EmitterFacts.PrintArgsAreArgs | modules/generator.py:76-79 | after the format string, `printf` gets `, ` followed by the non-literal arguments as an argument list, and nothing if there are none |
| EmitterFacts.ProgramFrame | modules/generator.py:39-52 | started at level 0, a program begins with `#include<stdio.h>` and ends with `\treturn 0;\n}\n` when `main` was opened and with `return 0;\n}\n` otherwise |
| EmitterFacts.NoEntryNoMain | modules/generator.py:41-48 | without a top-level `Var`/`Block`, no `main` header is written and every node is emitted at the start level |
| EmitterFacts.EntryOpensMain | modules/generator.py:41-48 | with one, the nodes before it come before `int main()` at the start level, and it and all later nodes come inside `main` |
| EmitterFacts.ArrayDeclExample | modules/generator.py:218-226 | `a: array[1..5] of integer` becomes `int a[6];` |
| EmitterFacts.ComparisonExample | modules/generator.py:111-125 | `x = 0` becomes `x == 0` |
| EmitterFacts.WriteShape | modules/generator.py:60-90 | `write('p', v, 'q')` becomes `printf("p %d q", v); ` for every text p and q and every variable v |
| EmitterFacts.WritelnShape | modules/generator.py:60-90 | `writeln(v)` becomes `printf(" %d \n", v); `, where `\n` is the two characters `\` and `n` |
| EmitterFacts.ReadlnShape | modules/generator.py:80-90 | `readln(v)` becomes `scanf("%d", &v); ` |

## Left out

- The `Visitor` dispatch of `modules.grapher` is not part of this model. It is
  replaced by the exhaustive `match` in `CodeGenerator.Generator.Visit`, so
  an unknown node kind cannot occur.
- The parser's node classes from `modules.parser` are not part of this model.
  The tree is the `Ast.Node` datatype. `Ast.WellFormed` requires the shapes
  the parser builds: a call's name is an `Id` and its arguments an `Args`,
  a `for` starts with an `Assign`, array bounds are `Int` literals, and a
  parameter is a `Decl` or `ArrayDecl`. Trees the parser never builds are
  excluded by precondition. The source would still emit text for some of
  them, such as a call whose arguments are a single `Id`, or a `for` that
  starts with a `Decl`. That output is not modelled.
- The file write and the returned path in `generate`
  (modules/generator.py:231-233) are I/O and are left out.
  `CodeGenerator.Generator.Generate` ends with the normalised buffer.
- The `str()` coercion in `append` is modelled only for integers: integer
  literals and the array size are rendered by `Emitter.IntToString`. Every
  other appended value is already a string in the model.
- The `parent` argument of every handler carries no behaviour and is dropped.
- The `type(n) is ...` tests become constructor tests, since the model has no
  subclasses.
- Balance.EmitBalanced: the brace balance is proved only for trees whose
  identifiers, literals and operator symbols contain no `{` or `}`
  (`Ast.BraceFreeLeaves`). A string literal holding a brace changes the count
  in the source too.
- Balance.EmitBalanced: like every lemma in `Balance`, it compares the
  number of `{` with the number of `}`. It does not prove that each `}`
  follows its `{`, i.e. that every prefix has at least as many `{` as `}`.
- Normalize.Collapse: `\s` is taken to be the characters `str.isspace`
  accepts. The regular-expression engine itself is not modelled.
