/**
 * Rules compiled before any module name was known: a name in them leaves no code.  They are harmless as long
 * as nothing runs them; two accepted files suffice to make an event run one.
 */
module Nameless {
  import opened Wrappers
  import opened CStrings
  import opened Ast
  import opened Machine
  import opened Semantics
  import opened References
  import opened Checker
  import opened Correctness
  import opened Compiler
  import opened Linking
  import opened Program
  import opened Example
  import opened TwoFiles
  import Codegen
  import Emitter
  import I = Instructions

  // ---------- what the machine does ----------

  /** A rule that is a name without code is a lone halt: it answers with what its caller left on top of the stack, and takes it away. */
  lemma NamelessTakes(img: Image, w: World, i: nat, q: string, s: seq<Value>, k: nat)
    requires Linked(img, w) && i < |w.rules| && w.rules[i].event == None && w.rules[i].body == Ref(q)
    ensures |img.rules| == |w.rules|
    ensures Exec(img, img.rules[i].codeOffset, s, ZERO, k + 1) ==
            if s == [] then Fault(Underflow) else if Top(s).Num? then Stop(0, Top(s).w, Drop(s, 1), k) else Fault(WrongKind)
    ensures !Rooted(w.rules, i)
  {
    hide I.Listed, I.Fetch, GetString;
    var r, b := w.rules[i], img.rules[i].codeOffset;
    assert RuleLinked(img, r, img.rules[i]);
    assert Codegen.RuleCode(r.body, r.event, None, b) == [I.Halt];
    Single(img, b, I.Halt);
    Fire(img, b, I.Halt, s, ZERO, k);
  }

  /** A rule that is a reference to such a rule underflows the empty stack. */
  lemma ReferenceUnderflows(img: Image, w: World, j: nat, p: string, i: nat, q: string, k: nat)
    requires Linked(img, w) && j < |w.rules| && w.rules[j].event.Some? && w.rules[j].event != Some(p) && w.rules[j].body == Ref(p)
    requires IndexOf(w.rules, p) == Some(i) && i < j && w.rules[i].event == None && w.rules[i].body == Ref(q)
    ensures |img.rules| == |w.rules| && Exec(img, img.rules[j].codeOffset, [], ZERO, k + 2) == Fault(Underflow)
    ensures EmittableWorld(w) && EvalRule(w, j) == Lost(NoCode) && !Rooted(w.rules, j)
  {
    hide Exec, I.Listed, I.Fetch, GetString, FindRuleFrom, IndexFrom;
    var r, b := w.rules[j], img.rules[j].codeOffset;
    assert RuleLinked(img, r, img.rules[j]);
    assert Codegen.RuleCode(r.body, r.event, None, b) == [I.RunRule(p)] + [I.Halt];
    Head(img, b, I.RunRule(p), [I.Halt]);
    NamelessTakes(img, w, i, q, [], k);
    FindLinked(img, w, p, 0);
    FireRule(img, b, p, i, [], ZERO, k + 1);
    assert Eval(w, i, None, None, Ref(q), ZERO) == Lost(NoCode);
    assert EvalRule(w, i) == Lost(NoCode);
    assert EvalLiteral(w, j, r.event, None, Identifier(p), ZERO) == Lost(NoCode);
    assert Eval(w, j, r.event, None, Ref(p), ZERO) == Lost(NoCode);
    assert p in Mentioned(r.body, None);
  }

  // ---------- an accepted program ----------

  const Q := Declare("q", None, TRUE_BODY, true)
  const P := Declare("p", None, Ref("q"), true)
  const P_OF_FILE := Declare("p", Some("file"), TRUE_BODY, true)
  const EARLY := [Import("file"), Q, P]
  const LATE := [P_OF_FILE, READER]
  const PAIR := [EARLY, LATE]
  const STATEMENTS_OF_PAIR := [Import("file"), Q, P, P_OF_FILE, READER]

  const Q_ENV := FILE_ENV["q" := RuleName(None, 0)]
  const EARLY_ENV := Q_ENV["p" := RuleName(None, 0)]
  const AFTER_Q := Checker.Progress(true, Q_ENV, {"q"}, [Import("file"), Q])
  const AFTER_EARLY := Checker.Progress(true, FILE_ENV, {}, EARLY)
  const AFTER_P := Checker.Progress(true, SECOND_ENV, {"p"}, EARLY + [P_OF_FILE])

  lemma LettersDiffer()
    ensures "q" != "p" && "q" != "r" && "q" != "file" && NulFree("q")
  {
    assert |"file"| == 4 && |"q"| == 1 && "q"[0] != "r"[0] && "q"[0] != "p"[0];
  }

  lemma EarlyChecked()
    ensures CheckStatements(KNOWN, START, 0, EARLY) == Checker.Progress(true, EARLY_ENV, {"q", "p"}, EARLY)
    ensures ProperStatements(KNOWN, START, 0, EARLY)
  {
    hide CheckBody, ProperBody;
    ExampleImported();
    NamesDiffer();
    LettersDiffer();
    BodyPasses(Q_ENV, "q", None, TRUE_BODY);
    BodyPasses(EARLY_ENV, "p", None, Ref("q"));
    assert EARLY[..2] == [Import("file"), Q] && EARLY[..2][..1] == STATEMENTS[..1];
    assert CheckStatement(KNOWN, AFTER_IMPORT, 0, Q).statements == AFTER_Q.statements;
    assert CheckStatements(KNOWN, START, 0, EARLY[..2]) == AFTER_Q;
    assert ProperStatements(KNOWN, START, 0, EARLY[..2]);
    assert CheckStatement(KNOWN, AFTER_Q, 0, P).statements == EARLY;
    assert {"q"} + {"p"} == {"q", "p"};
  }

  lemma LateChecked()
    ensures var c := CheckStatements(KNOWN, AFTER_EARLY, 1, LATE); c.ok && c.statements == STATEMENTS_OF_PAIR
    ensures ProperStatements(KNOWN, AFTER_EARLY, 1, LATE)
  {
    hide CheckBody, ProperBody;
    NamesDiffer();
    BodyPasses(SECOND_ENV, "p", Some("file"), TRUE_BODY);
    BodyPasses(LAST_ENV, "r", Some("file"), REFERENCE);
    assert LATE[..1] == [P_OF_FILE] && LATE[..1][..0] == [];
    assert CheckStatements(KNOWN, AFTER_EARLY, 1, LATE[..1][..0]) == AFTER_EARLY;
    assert CheckStatements(KNOWN, AFTER_EARLY, 1, LATE[..1]) == AFTER_P;
    assert ProperStatements(KNOWN, AFTER_EARLY, 1, LATE[..1]);
    assert CheckStatement(KNOWN, AFTER_P, 1, READER).statements == STATEMENTS_OF_PAIR;
  }

  lemma PairChecked()
    ensures var c := CheckFiles(KNOWN, PAIR); c.ok && c.statements == STATEMENTS_OF_PAIR
    ensures ProperFiles(KNOWN, PAIR)
  {
    hide CheckStatements, ProperStatements;
    EarlyChecked();
    LateChecked();
    assert PAIR[..1] == [EARLY] && PAIR[..1][..0] == [];
    assert CheckFiles(KNOWN, PAIR[..1][..0]) == START;
    assert EARLY_ENV - {"q", "p"} == FILE_ENV by { NamesDiffer(); LettersDiffer(); }
    assert CheckFiles(KNOWN, PAIR[..1]).(privates := {}) == AFTER_EARLY;
    assert ProperFiles(KNOWN, PAIR[..1]);
  }

  const SOURCES := [Rule("q", None, TRUE_BODY), Rule("p", None, Ref("q")), Rule("p", Some("file"), TRUE_BODY), Rule("r", Some("file"), REFERENCE)]

  lemma PairCompiled()
    ensures var q := ProgramProgress(VERSIONS, STATEMENTS_OF_PAIR);
            q.error == 0 && Fits(q.out) && |q.out.rules| == 4 && q.out.sources == SOURCES && q.out.rules[3].ordinal != 0
  {
    hide Built, RuleProgress;
    NamesDiffer();
    LettersDiffer();
    ImportStarts();
    var all := STATEMENTS_OF_PAIR;
    assert all[..1] == ALL[..1];
    var o1 := ProgramProgress(VERSIONS, all[..1]).out;
    var o2 := RuleProgress(VERSIONS, o1, Some("q"), None, TRUE_BODY, true).out;
    var o3 := RuleProgress(VERSIONS, o2, Some("p"), None, Ref("q"), true).out;
    var o4 := RuleProgress(VERSIONS, o3, Some("p"), Some("file"), TRUE_BODY, true).out;
    OneRule(VERSIONS, "file", o1, 50, "q", None, TRUE_BODY, true);
    OneRule(VERSIONS, "file", o2, 38, "p", None, Ref("q"), true);
    OneRule(VERSIONS, "file", o3, 26, "p", Some("file"), TRUE_BODY, true);
    OneRule(VERSIONS, "file", o4, 14, "r", Some("file"), REFERENCE, false);
    assert all[..2][..1] == all[..1] && all[..3][..2] == all[..2] && all[..4][..3] == all[..3] && all[..5] == all && all[..5][..4] == all[..4];
    assert ProgramProgress(VERSIONS, all[..2]).out == o2;
    assert ProgramProgress(VERSIONS, all[..3]).out == o3;
    assert ProgramProgress(VERSIONS, all[..4]).out == o4;
  }

  lemma PairClean()
    ensures forall s <- STATEMENTS_OF_PAIR :: Clean(s)
    ensures forall r <- SOURCES :: Emittable(r.body)
  {
    NamesDiffer();
    LettersDiffer();
    assert Emitter.Mentions(TRUE_BODY) == [] && Emitter.Mentions(Ref("q")) == ["q"] && Emitter.Mentions(REFERENCE) == ["p"];
  }

  /**
   * Rule `r` of the second file refers to the `p` of its file, which is true.  Both files are accepted and
   * proper, yet the name leads to the `p` of the first file, compiled before any event: the machine underflows
   * its stack.
   */
  lemma PairUnderflows(objects: map<string, Object>, x: Externals, k: nat)
    ensures CheckFiles(KNOWN, PAIR).ok && ProperFiles(KNOWN, PAIR)
    ensures var q := ProgramProgress(VERSIONS, CheckFiles(KNOWN, PAIR).statements); var o := q.out;
            && q.error == 0 && Fits(o) && |o.rules| == |o.sources| == 4 && o.rules[3].ordinal != 0 && !Rooted(o.sources, 3)
            && Exec(ImageOf(o, objects, x), o.rules[3].codeOffset, [], ZERO, k + 2) == Fault(Underflow)
  {
    hide Exec, ProgramProgress, CheckFiles, ProperFiles, Fits, Linked, Rooted;
    PairChecked();
    PairCompiled();
    PairClean();
    NamesDiffer();
    LettersDiffer();
    var o := ProgramProgress(VERSIONS, STATEMENTS_OF_PAIR).out;
    ProgramLinked(VERSIONS, STATEMENTS_OF_PAIR, objects, x);
    var w := WorldOf(o, objects, x);
    assert IndexOf(w.rules, "p") == Some(1) by { assert w.rules[0].ruleName == "q" && w.rules[1].ruleName == "p"; FirstIndex(w.rules, "p", 1); }
    ReferenceUnderflows(ImageOf(o, objects, x), w, 3, "p", 1, "q", k);
  }
}
