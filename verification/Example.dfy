/** The smallest program that reports something, run through checker, compiler and machine. */
module Example {
  import opened Wrappers
  import opened CStrings
  import opened Ast
  import opened Machine
  import opened Semantics
  import opened Checker
  import opened Correctness
  import opened Arena
  import opened Compiler
  import opened Linking
  import opened Program
  import Codegen
  import Emitter
  import I = Instructions

  const FILE := Schema({OfStruct}, map[], [])
  const KNOWN: Modules := map["file" := FILE]
  const VERSIONS: map<string, nat> := map["file" := 1]
  const TRUE_BODY := Lit(Boolean(true))
  const STATEMENTS := [Import("file"), Declare("always", Some("file"), TRUE_BODY, false)]

  const START := Checker.Progress(true, NO_NAMES, {}, [])
  const AFTER_IMPORT := Checker.Progress(true, map["file" := OtherName], {}, [Import("file")])

  lemma ExampleImported()
    ensures STATEMENTS[..1] == [Import("file")] && CheckStatements(KNOWN, START, 0, STATEMENTS[..1]) == AFTER_IMPORT
    ensures ProperStatements(KNOWN, START, 0, STATEMENTS[..1])
  {
    assert STATEMENTS[..1] == [Import("file")] && STATEMENTS[..1][..0] == [];
    assert CheckStatements(KNOWN, START, 0, STATEMENTS[..1][..0]) == START;
    assert START.statements + [Import("file")] == [Import("file")];
    assert AFTER_IMPORT == CheckStatement(KNOWN, START, 0, Import("file"));
  }

  lemma ExampleDeclared()
    ensures var two := CheckStatement(KNOWN, AFTER_IMPORT, 0, STATEMENTS[1]); two.ok && two.statements == STATEMENTS
    ensures ProperStatement(KNOWN, AFTER_IMPORT.env, 0, STATEMENTS[1])
  {
    var env := AFTER_IMPORT.env["always" := RuleName(Some("file"), 0)];
    assert "file" != "always" by { assert |"file"| != |"always"|; }
    assert CheckBody(KNOWN, env, Some("always"), Some("file"), TRUE_BODY) == CheckedBody(true, TRUE_BODY);
  }

  lemma ExampleChecked()
    ensures var c := CheckFiles(KNOWN, [STATEMENTS]); c.ok && c.statements == STATEMENTS
    ensures ProperFiles(KNOWN, [STATEMENTS])
  {
    hide CheckStatement, ProperStatement;
    ExampleImported();
    ExampleDeclared();
    var files := [STATEMENTS];
    assert files[..0] == [] && CheckFiles(KNOWN, files[..0]) == START;
    assert CheckStatements(KNOWN, START, 0, STATEMENTS) == CheckStatement(KNOWN, AFTER_IMPORT, 0, STATEMENTS[1]);
    assert CheckFiles(KNOWN, files) == CheckFile(KNOWN, START, 0, STATEMENTS);
    assert ProperStatements(KNOWN, START, 0, STATEMENTS);
    assert ProperFiles(KNOWN, files[..0]);
  }

  const NOTHING := StringTable("", map[])
  const IMPORTED := Intern(NOTHING, "file")
  const NAMED := Intern(IMPORTED, "always")

  lemma ExampleStrings()
    ensures GetString(IMPORTED, 0) == Some("file") && GetString(NAMED, 0) == Some("file")
    ensures "always" in NAMED.offsets && NameAt(NAMED, NAMED.offsets["always"]) == "always" && |NAMED.data| == 12
  {
    assert NulFree("file") && NulFree("always");
    InternKeeps(NOTHING, "file");
    GetInterned(IMPORTED, "file");
    assert |IMPORTED.data| == 5;
    InternKeeps(IMPORTED, "always");
    GetInterned(NAMED, "file");
    GetInterned(NAMED, "always");
    assert "always" !in IMPORTED.offsets by { assert |"file"| != |"always"|; }
  }

  lemma ExampleImport()
    ensures ProgramProgress(VERSIONS, STATEMENTS[..1]) == Compiler.Progress(EMPTY.(strings := IMPORTED, modules := [ModuleEntry(1, 1, 4, 0)]), 0)
  {
    assert STATEMENTS[..1] == [Import("file")] && STATEMENTS[..1][..0] == [];
    assert ProgramProgress(VERSIONS, STATEMENTS[..1][..0]) == Compiler.Progress(EMPTY, 0);
    assert [] + [ModuleEntry(1, 1, 4, 0)] == [ModuleEntry(1, 1, 4, 0)];
  }

  lemma ExampleCode(t: StringTable)
    ensures |I.Assemble(Codegen.RuleCode(TRUE_BODY, Some("file"), None, 0), t.offsets)| == 6
    ensures InternAll(t, Emitter.Mentions(TRUE_BODY)) == t
  {
    var listing := Codegen.RuleCode(TRUE_BODY, Some("file"), None, 0);
    assert listing == [I.PushBool(1)] + [I.Halt];
    I.SizeAppend([I.PushBool(1)], [I.Halt]);
    Emitter.AssembleOne(I.PushBool(1), map[]);
    Emitter.AssembleOne(I.Halt, map[]);
  }

  /** What the two statements leave in the tables. */
  lemma ExampleCompiled()
    ensures var p := ProgramProgress(VERSIONS, STATEMENTS);
            && p.error == 0 && Fits(p.out) && |p.out.rules| == |p.out.sources| == 1
            && p.out.sources[0] == Rule("always", Some("file"), TRUE_BODY) && p.out.rules[0].ordinal == 1
  {
    hide I.Assemble, Codegen.RuleCode, InternAll, GetString, Intern;
    ExampleStrings();
    ExampleImport();
    ExampleCode(NAMED);
    var one := ProgramProgress(VERSIONS, STATEMENTS[..1]).out;
    var named := NameRule(one, Some("always"));
    assert named.strings == NAMED;
    assert EventOrdinal(named, Some("file")) == Some(1);
    assert ProgramProgress(VERSIONS, STATEMENTS) == RuleProgress(VERSIONS, one, Some("always"), Some("file"), TRUE_BODY, false);
  }

  /** All conditions of the main theorem hold of it: on an empty stack the machine answers 1 and leaves the stack empty. */
  lemma ExampleRuns(objects: map<string, Object>, x: Externals, k: nat) returns (fuel: nat)
    requires WorldConforms(KNOWN, objects, x)
    ensures var o := ProgramProgress(VERSIONS, STATEMENTS).out;
            |o.rules| == 1 && Exec(ImageOf(o, objects, x), o.rules[0].codeOffset, [], ZERO, fuel) == Stop(0, 1, [], k)
  {
    hide Exec, ProgramProgress, CheckFiles, ProperFiles, WorldConforms, Fits;
    ExampleChecked();
    ExampleCompiled();
    var o := ProgramProgress(VERSIONS, STATEMENTS).out;
    var w := WorldOf(o, objects, x);
    assert RuleDepth(w, 0) == 1;
    ExampleClean();
    fuel := ProgramRuns(KNOWN, VERSIONS, [STATEMENTS], objects, x, 0, [], k);
    assert EvalRule(w, 0) == Val(Num(1), ZERO);
  }

  lemma ExampleClean()
    ensures forall s <- STATEMENTS :: Clean(s)
  {
    assert Emitter.Mentions(TRUE_BODY) == [];
    assert NulFree("file") && NulFree("always");
  }
}
