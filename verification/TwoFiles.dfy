/**
 * Two accepted files with a private rule of the same name: checker and compiler mean different rules
 * by it.  The checker forgets private names at the end of a file, the compiler searches all rules.
 */
module TwoFiles {
  import opened Words
  import opened Wrappers
  import opened CStrings
  import opened Ast
  import opened Machine
  import opened Semantics
  import opened Checker
  import opened Correctness
  import opened Arena
  import opened Compiler
  import opened Linking
  import opened Program
  import opened Example
  import Codegen
  import Emitter
  import I = Instructions

  const FALSE_BODY := Lit(Boolean(false))
  const REFERENCE := Lit(Identifier("p"))
  const FIRST_P := Declare("p", Some("file"), TRUE_BODY, true)
  const SECOND_P := Declare("p", Some("file"), FALSE_BODY, true)
  const READER := Declare("r", Some("file"), REFERENCE, false)
  const FIRST_FILE := [Import("file"), FIRST_P]
  const SECOND_FILE := [SECOND_P, READER]
  const FILES := [FIRST_FILE, SECOND_FILE]
  const ALL := [Import("file"), FIRST_P, SECOND_P, READER]

  lemma NamesDiffer()
    ensures "file" != "p" && "file" != "r" && "p" != "r" && NulFree("file") && NulFree("p") && NulFree("r")
  {
    assert |"file"| == 4 && |"p"| == |"r"| == 1 && "p"[0] != "r"[0];
  }

  // ---------- the checker ----------

  const FILE_ENV: Environment := map["file" := OtherName]
  const FIRST_ENV := FILE_ENV["p" := RuleName(Some("file"), 0)]
  const SECOND_ENV := FILE_ENV["p" := RuleName(Some("file"), 1)]
  const LAST_ENV := SECOND_ENV["r" := RuleName(Some("file"), 1)]
  const BETWEEN := Checker.Progress(true, FILE_ENV, {}, FIRST_FILE)
  const MIDWAY := Checker.Progress(true, SECOND_ENV, {"p"}, FIRST_FILE + [SECOND_P])

  /** A truth value, or the name of a rule, of at most four letters. */
  predicate SmallBody(e: Expr) {
    e.Lit? && (e.literal.Boolean? || (e.literal.Identifier? && |e.literal.name| <= 4 && NulFree(e.literal.name)))
  }

  /** A body that is a truth value or the name of another rule of the same event passes as it is. */
  lemma BodyPasses(env: Environment, self: string, event: Option<string>, e: Expr)
    requires "file" in env && env["file"] == OtherName && event in {None, Some("file")} && SmallBody(e)
    requires e.literal.Identifier? ==> var x := e.literal.name; self != x && x in env && env[x].RuleName? && env[x].event == event
    ensures CheckBody(KNOWN, env, Some(self), event, e) == CheckedBody(true, e)
    ensures ProperBody(KNOWN, env, Some(self), event, e)
  {
    NamesDiffer();
  }

  lemma FirstFileChecked()
    ensures CheckStatements(KNOWN, START, 0, FIRST_FILE) == Checker.Progress(true, FIRST_ENV, {"p"}, FIRST_FILE)
    ensures ProperStatements(KNOWN, START, 0, FIRST_FILE)
  {
    hide CheckBody, ProperBody;
    ExampleImported();
    NamesDiffer();
    BodyPasses(FIRST_ENV, "p", Some("file"), TRUE_BODY);
    assert FIRST_FILE[..1] == STATEMENTS[..1];
    assert CheckStatement(KNOWN, AFTER_IMPORT, 0, FIRST_P).statements == FIRST_FILE;
  }

  lemma SecondFileChecked()
    ensures CheckStatements(KNOWN, BETWEEN, 1, SECOND_FILE) == Checker.Progress(true, LAST_ENV, {"p"}, ALL)
    ensures ProperStatements(KNOWN, BETWEEN, 1, SECOND_FILE)
  {
    hide CheckBody, ProperBody;
    NamesDiffer();
    BodyPasses(SECOND_ENV, "p", Some("file"), FALSE_BODY);
    BodyPasses(LAST_ENV, "r", Some("file"), REFERENCE);
    assert SECOND_FILE[..1] == [SECOND_P] && SECOND_FILE[..1][..0] == [];
    assert CheckStatements(KNOWN, BETWEEN, 1, SECOND_FILE[..1][..0]) == BETWEEN;
    assert CheckStatements(KNOWN, BETWEEN, 1, SECOND_FILE[..1]) == MIDWAY;
    assert ProperStatements(KNOWN, BETWEEN, 1, SECOND_FILE[..1]);
    assert CheckStatement(KNOWN, MIDWAY, 1, READER).statements == ALL;
  }

  lemma BothChecked()
    ensures var c := CheckFiles(KNOWN, FILES); c.ok && c.statements == ALL
    ensures ProperFiles(KNOWN, FILES)
  {
    hide CheckStatements, ProperStatements;
    FirstFileChecked();
    SecondFileChecked();
    assert FILES[..1] == [FIRST_FILE] && FILES[..1][..0] == [];
    assert CheckFiles(KNOWN, FILES[..1][..0]) == START;
    assert FIRST_ENV - {"p"} == FILE_ENV by { NamesDiffer(); }
    assert CheckFiles(KNOWN, FILES[..1]).(privates := {}) == BETWEEN;
    assert ProperFiles(KNOWN, FILES[..1]);
  }

  // ---------- the compiler ----------

  /** The module is imported, and there is room for more rules. */
  ghost predicate Started(mod: string, o: Output, room: nat) {
    && Built(o) && o.modules == [ModuleEntry(1, 1, |mod|, 0)] && mod in o.strings.offsets && o.strings.offsets[mod] == 0
    && |o.code| + room < WORD_LIMIT && |o.strings.data| + room < WORD_LIMIT
  }

  /** The code of such a body has at most two instructions, and mentions at most one name. */
  lemma ShortCode(t: StringTable, e: Expr, mod: Option<string>, b: nat)
    requires SmallBody(e)
    ensures |I.Assemble(Codegen.RuleCode(e, mod, None, b), t.offsets)| <= 10
    ensures |InternAll(t, Emitter.Mentions(e)).data| <= |t.data| + 5 && CleanBody(e)
  {
    var code := Codegen.LiteralCode(e.literal, mod, None);
    var listing := Codegen.RuleCode(e, mod, None, b);
    Emitter.AssembleOne(I.Halt, t.offsets);
    if code == [] {
      assert listing == [I.Halt];
    } else {
      assert listing == [code[0]] + [I.Halt] && listing[1..] == [I.Halt];
      assert I.Assemble(listing, t.offsets) == I.Encode(code[0], t.offsets) + I.Assemble([I.Halt], t.offsets);
    }
    if e.literal.Identifier? {
      assert Emitter.Mentions(e) == [e.literal.name] && Emitter.Mentions(e)[1..] == [];
    } else {
      assert Emitter.Mentions(e) == [];
    }
  }

  lemma OneRule(versions: map<string, nat>, mod: string, o: Output, room: nat, name: string, event: Option<string>, e: Expr, isPrivate: bool)
    requires Started(mod, o, room + 12) && NulFree(name) && |name| <= 4 && SmallBody(e)
    requires event.Some? ==> HasPrefix(event.value, mod) && event.value in versions
    ensures var p := RuleProgress(versions, o, Some(name), event, e, isPrivate); var j := |o.rules|;
            && p.error == 0 && Started(mod, p.out, room) && |p.out.rules| == |p.out.sources| == j + 1
            && p.out.rules[..j] == o.rules && p.out.sources[..j] == o.sources
            && p.out.sources[j] == Rule(name, p.out.moduleName, e) && p.out.moduleName == (if event.Some? then event else o.moduleName)
            && (p.out.rules[j].ordinal != 0 <==> event.Some?) && !p.out.rules[j].inSequence
  {
    hide Built, ValidTable, I.Assemble, Codegen.RuleCode, InternAll, Emitter.Mentions, CleanBody, GetString;
    var named := NameRule(o, Some(name));
    ShortCode(named.strings, e, if event.Some? then event else o.moduleName, |o.code|);
    NamedBuilt(o, name);
    assert GetString(named.strings, 0) == Some(mod) by { ModuleReads(mod, named); }
    if event.Some? {
      PrefixMeans(named.strings, named.modules[0], event.value);
      assert FindOrdinal(named.modules, named.strings, event.value, 0) == Some(1);
    }
    AddedRule(versions, o, Some(name), event, e, isPrivate);
    MentionsExtend(named, e);
  }

  lemma ModuleReads(mod: string, o: Output)
    requires Built(o) && mod in o.strings.offsets && o.strings.offsets[mod] == 0
    ensures GetString(o.strings, 0) == Some(mod)
  {
    GetInterned(o.strings, mod);
  }

  lemma MentionsExtend(o: Output, e: Expr)
    requires Built(o) && CleanBody(e) && |InternAll(o.strings, Emitter.Mentions(e)).data| < WORD_LIMIT
    ensures Extends(InternAll(o.strings, Emitter.Mentions(e)), o.strings)
  {
    InternAllKeeps(o.strings, Emitter.Mentions(e));
  }

  lemma ImportStarts()
    ensures var p := ProgramProgress(VERSIONS, ALL[..1]); p.error == 0 && Started("file", p.out, 62) && p.out.moduleName == None && p.out.rules == [] && p.out.sources == []
  {
    hide Built;
    ExampleImport();
    ExampleStrings();
    assert ALL[..1] == STATEMENTS[..1] && STATEMENTS[..1][..0] == [];
    EmptyInStep(KNOWN);
    NamesDiffer();
    ImportBuilt(VERSIONS, EMPTY, "file");
  }

  /** The three rules in the table: both of one name come before the one that refers to it. */
  lemma BothCompiled()
    ensures var p := ProgramProgress(VERSIONS, ALL);
            && p.error == 0 && Fits(p.out) && |p.out.rules| == 3 && (forall j :: 0 <= j < 3 ==> p.out.rules[j].ordinal != 0 && !p.out.rules[j].inSequence)
            && p.out.sources == [Rule("p", Some("file"), TRUE_BODY), Rule("p", Some("file"), FALSE_BODY), Rule("r", Some("file"), REFERENCE)]
  {
    hide Built, RuleProgress;
    NamesDiffer();
    ImportStarts();
    var o1 := ProgramProgress(VERSIONS, ALL[..1]).out;
    var o2 := RuleProgress(VERSIONS, o1, Some("p"), Some("file"), TRUE_BODY, true).out;
    var o3 := RuleProgress(VERSIONS, o2, Some("p"), Some("file"), FALSE_BODY, true).out;
    OneRule(VERSIONS, "file", o1, 50, "p", Some("file"), TRUE_BODY, true);
    OneRule(VERSIONS, "file", o2, 38, "p", Some("file"), FALSE_BODY, true);
    OneRule(VERSIONS, "file", o3, 26, "r", Some("file"), REFERENCE, false);
    assert ALL[..2][..1] == ALL[..1] && ALL[..3][..2] == ALL[..2] && ALL[..4] == ALL && ALL[..4][..3] == ALL[..3];
    assert ProgramProgress(VERSIONS, ALL[..2]).out == o2;
    assert ProgramProgress(VERSIONS, ALL[..3]).out == o3;
  }

  // ---------- the run ----------

  lemma Verdicts(w: World)
    requires w.rules == [Rule("p", Some("file"), TRUE_BODY), Rule("p", Some("file"), FALSE_BODY), Rule("r", Some("file"), REFERENCE)]
    ensures EmittableWorld(w) && EvalRule(w, 1) == Val(Num(0), ZERO) && EvalRule(w, 2) == Val(Num(1), ZERO) && RuleDepth(w, 2) <= STACK_MAX
  {
    NamesDiffer();
    assert EmittableWorld(w);
    assert IndexOf(w.rules, "p") == Some(0);
    assert EvalRule(w, 0) == Val(Num(1), ZERO) && RuleDepth(w, 0) == 1;
    assert EvalRule(w, 1) == Val(Num(0), ZERO);
    assert Eval(w, 2, Some("file"), None, REFERENCE, ZERO) == Val(Num(1), ZERO);
  }

  lemma RepeatedName(o: Output)
    requires |o.rules| == |o.sources| == 3 && (forall j :: 0 <= j < 3 ==> o.rules[j].ordinal != 0 && !o.rules[j].inSequence)
    requires o.sources[0].ruleName == o.sources[1].ruleName
    ensures !UniqueNames(o)
  {
  }

  /**
   * Rule `r` of the second file refers to `p`, and the `p` of its file is false.  The checker accepts both
   * files, yet the machine answers 1 for `r`: the name leads to the `p` of the first file.
   */
  lemma SecondFileReadsFirst(objects: map<string, Object>, x: Externals, k: nat) returns (fuel: nat)
    requires WorldConforms(KNOWN, objects, x)
    ensures CheckFiles(KNOWN, FILES).ok
    ensures var o := ProgramProgress(VERSIONS, CheckFiles(KNOWN, FILES).statements).out; var w := WorldOf(o, objects, x);
            && |o.rules| == |o.sources| == 3 && !UniqueNames(o) && EmittableWorld(w)
            && o.sources[1] == Rule("p", Some("file"), FALSE_BODY) && EvalRule(w, 1) == Val(Num(0), ZERO)
            && o.sources[2] == Rule("r", Some("file"), REFERENCE)
            && Exec(ImageOf(o, objects, x), o.rules[2].codeOffset, [], ZERO, fuel) == Stop(0, 1, [], k)
  {
    hide Exec, ProgramProgress, CheckFiles, ProperFiles, WorldConforms, Fits;
    BothChecked();
    BothCompiled();
    NamesDiffer();
    AllClean();
    var o := ProgramProgress(VERSIONS, ALL).out;
    var w := WorldOf(o, objects, x);
    Verdicts(w);
    RepeatedName(o);
    hide EvalRule, RuleDepth;
    fuel := ProgramRuns(KNOWN, VERSIONS, FILES, objects, x, 2, [], k);
  }

  lemma AllClean()
    ensures forall s <- ALL :: Clean(s)
  {
    NamesDiffer();
    assert Emitter.Mentions(TRUE_BODY) == [] == Emitter.Mentions(FALSE_BODY) && Emitter.Mentions(REFERENCE) == ["p"];
  }
}
