/**
 * Events whose module is not in scope under its own name: the emitter takes every identifier of that name for
 * the module, the checker for a rule or a loop variable.  It takes a module whose name properly starts the
 * event's, since imports bring their own names into scope.
 */
module Shadows {
  import opened Words
  import opened Wrappers
  import opened CStrings
  import opened Ast
  import opened Machine
  import opened Semantics
  import opened Checker
  import opened Soundness
  import opened Correctness
  import opened Arena
  import opened Compiler
  import opened Linking
  import opened Program
  import opened Example
  import opened TwoFiles
  import Emitter

  // ---------- for every scope ----------

  /** A rule that has the name of its event's module may be referred to; the reference gives the module. */
  lemma RuleShadowed(sc: Scope, w: World, n: nat, m: string, regs: Registers)
    requires sc.event == Some(m) && m in sc.env && sc.env[m].RuleName? && sc.env[m].event == sc.event && sc.self != Some(m)
    requires EmittableWorld(w) && m in w.objects
    ensures AcceptsBody(sc, Ref(m)) && Proper(sc, Ref(m)) && Resolve(sc, Ref(m)).expr == Ref(m)
    ensures Eval(w, n, Some(m), None, Ref(m), regs) == Val(Obj(w.objects[m]), regs)
  {
  }

  /** `for q m in (first..last) : (m == i)` */
  function CountedBy(q: Quantifier, m: string, first: word, last: word, i: word): Expr {
    Range(q, m, Int(first), Int(last), Binary(EqualEqual, Ref(m), Int(i), Number))
  }

  lemma ComparisonAccepted(sc: Scope, m: string, i: word)
    requires m in sc.env && sc.env[m] == Variable && sc.self != Some(m)
    ensures var c := Binary(EqualEqual, Ref(m), Int(i), Number); Resolve(sc, c) == Checked(True, c) && Proper(sc, c)
  {
    assert Resolve(sc, Ref(m)) == Checked(Number, Ref(m)) && Resolve(sc, Int(i)) == Checked(Number, Int(i));
    assert Proper(sc, Ref(m)) && Proper(sc, Int(i));
  }

  /** A loop variable may have the name of the event's module, where that is not in scope. */
  lemma VariableAccepted(sc: Scope, q: Quantifier, m: string, first: word, last: word, i: word)
    requires sc.event == Some(m) && m !in sc.env && sc.self != Some(m)
    ensures var e := CountedBy(q, m, first, last, i); AcceptsBody(sc, e) && Proper(sc, e) && Resolve(sc, e).expr == e
  {
    var sc1 := sc.(env := sc.env[m := Variable]);
    ComparisonAccepted(sc1, m, i);
    assert Resolve(sc, Int(first)) == Checked(Number, Int(first)) && Resolve(sc, Int(last)) == Checked(Number, Int(last));
    assert Proper(sc, Int(first)) && Proper(sc, Int(last));
  }

  /** Comparing it with a number then compares the module, and faults. */
  lemma VariableShadowed(w: World, n: nat, q: Quantifier, m: string, first: word, last: word, i: word)
    requires EmittableWorld(w) && m in w.objects && first < last
    ensures var e := CountedBy(q, m, first, last, i); Emittable(e) && Eval(w, n, Some(m), None, e, ZERO) == Lost(WrongKind)
  {
    hide EvalRule, IndexOf;
    var mod, c := Some(m), Binary(EqualEqual, Ref(m), Int(i), Number);
    var start := ZERO.(r0 := Num(first), r1 := Num(last));
    assert Eval(w, n, mod, mod, Ref(m), start) == Val(Obj(w.objects[m]), start);
    assert Eval(w, n, mod, mod, Int(i), start) == Val(Num(i), start);
    assert Eval(w, n, mod, mod, c, start) == Lost(WrongKind);
    assert Eval(w, n, mod, mod, Int(last), ZERO) == Val(Num(last), ZERO);
    assert Eval(w, n, mod, mod, Int(first), ZERO) == Val(Num(first), ZERO);
    assert Loop(w, n, mod, mod, q, c, start, w.rounds) == Lost(WrongKind);
  }

  // ---------- an accepted program ----------

  const BOTH: Modules := map["fil" := FILE, "file" := FILE]
  const BOTH_VERSIONS: map<string, nat> := map["fil" := 1, "file" := 1]
  const FILE_RULE := Declare("file", Some("file"), TRUE_BODY, false)
  const ITS_READER := Declare("r", Some("file"), Ref("file"), false)
  const SHADOWED := [Import("fil"), FILE_RULE, ITS_READER]

  const FIL_ENV: Environment := map["fil" := OtherName]
  const SHADOW_ENV := FIL_ENV["file" := RuleName(Some("file"), 0)]
  const FIL_IMPORTED := Checker.Progress(true, FIL_ENV, {}, [Import("fil")])
  const FILE_DECLARED := Checker.Progress(true, SHADOW_ENV, {}, [Import("fil"), FILE_RULE])

  lemma ThreeNames()
    ensures "fil" != "file" && "fil" != "r" && "file" != "r" && NulFree("fil") && NulFree("file") && NulFree("r") && HasPrefix("file", "fil")
  {
    assert |"fil"| == 3 && |"file"| == 4 && |"r"| == 1 && "file"[..3] == "fil";
  }

  lemma ShadowedChecked()
    ensures var c := CheckFiles(BOTH, [SHADOWED]); c.ok && c.statements == SHADOWED
  {
    ThreeNames();
    var one, two := SHADOWED[..1], SHADOWED[..2];
    assert one == [Import("fil")] && one[..0] == [] && two == [Import("fil"), FILE_RULE] && two[..1] == one;
    assert CheckStatements(BOTH, START, 0, one[..0]) == START;
    assert CheckStatement(BOTH, START, 0, Import("fil")).statements == [Import("fil")];
    assert CheckStatements(BOTH, START, 0, one) == FIL_IMPORTED;
    assert CheckBody(BOTH, SHADOW_ENV, Some("file"), Some("file"), TRUE_BODY) == CheckedBody(true, TRUE_BODY);
    assert CheckStatement(BOTH, FIL_IMPORTED, 0, FILE_RULE).statements == FILE_DECLARED.statements;
    assert CheckStatements(BOTH, START, 0, two) == FILE_DECLARED;
    var env := SHADOW_ENV["r" := RuleName(Some("file"), 0)];
    assert CheckBody(BOTH, env, Some("r"), Some("file"), Ref("file")) == CheckedBody(true, Ref("file"));
    assert CheckStatement(BOTH, FILE_DECLARED, 0, ITS_READER).statements == SHADOWED;
    assert [SHADOWED][..0] == [] && CheckFiles(BOTH, [SHADOWED][..0]) == START;
  }

  const FIL_INTERNED := Intern(NOTHING, "fil")

  lemma FilImported()
    ensures var p := ProgramProgress(BOTH_VERSIONS, SHADOWED[..1]); p.error == 0 && Started("fil", p.out, 30) && p.out.rules == [] && p.out.sources == []
  {
    hide Built;
    ThreeNames();
    assert SHADOWED[..1] == [Import("fil")] && SHADOWED[..1][..0] == [];
    assert ProgramProgress(BOTH_VERSIONS, SHADOWED[..1][..0]) == Compiler.Progress(EMPTY, 0);
    assert [] + [ModuleEntry(1, 1, 3, 0)] == [ModuleEntry(1, 1, 3, 0)];
    assert |FIL_INTERNED.data| == 4;
    EmptyInStep(KNOWN);
    ImportBuilt(BOTH_VERSIONS, EMPTY, "fil");
  }

  lemma ShadowedCompiled()
    ensures var p := ProgramProgress(BOTH_VERSIONS, SHADOWED);
            && p.error == 0 && Fits(p.out) && |p.out.rules| == 2 && p.out.rules[1].ordinal != 0
            && p.out.sources == [Rule("file", Some("file"), TRUE_BODY), Rule("r", Some("file"), Ref("file"))]
  {
    hide Built, RuleProgress;
    ThreeNames();
    FilImported();
    var o1 := ProgramProgress(BOTH_VERSIONS, SHADOWED[..1]).out;
    var o2 := RuleProgress(BOTH_VERSIONS, o1, Some("file"), Some("file"), TRUE_BODY, false).out;
    OneRule(BOTH_VERSIONS, "fil", o1, 18, "file", Some("file"), TRUE_BODY, false);
    OneRule(BOTH_VERSIONS, "fil", o2, 6, "r", Some("file"), Ref("file"), false);
    assert SHADOWED[..2][..1] == SHADOWED[..1] && SHADOWED[..3] == SHADOWED && SHADOWED[..3][..2] == SHADOWED[..2];
    assert ProgramProgress(BOTH_VERSIONS, SHADOWED[..2]).out == o2;
  }

  /**
   * With modules `fil` and `file`, of which only the first is imported, a rule `file` on events of `file` and a
   * rule that refers to it are accepted and compiled, and the second faults: its name gives the module.
   */
  lemma ShadowedFaults(objects: map<string, Object>, x: Externals, s: seq<Value>, k: nat) returns (fuel: nat)
    requires "file" in objects && |s| < STACK_MAX
    ensures var c := CheckFiles(BOTH, [SHADOWED]); c.ok
    ensures var q := ProgramProgress(BOTH_VERSIONS, CheckFiles(BOTH, [SHADOWED]).statements); var o := q.out;
            && q.error == 0 && |o.rules| == |o.sources| == 2 && o.rules[1].ordinal != 0
            && Exec(ImageOf(o, objects, x), o.rules[1].codeOffset, s, ZERO, fuel) == Fault(WrongKind)
  {
    hide Exec, ProgramProgress, CheckFiles, Fits, Linked;
    ShadowedChecked();
    ShadowedCompiled();
    ThreeNames();
    var o := ProgramProgress(BOTH_VERSIONS, SHADOWED).out;
    var w := WorldOf(o, objects, x);
    assert Emitter.Mentions(TRUE_BODY) == [] && Emitter.Mentions(Ref("file")) == ["file"];
    assert forall st <- SHADOWED :: Clean(st);
    ProgramLinked(BOTH_VERSIONS, SHADOWED, objects, x);
    assert Eval(w, 1, Some("file"), None, Ref("file"), ZERO) == Val(Obj(objects["file"]), ZERO);
    assert EvalRule(w, 1) == Lost(WrongKind) && RuleDepth(w, 1) == 1;
    fuel := RuleCompiled(ImageOf(o, objects, x), w, 1, s, k);
  }
}
