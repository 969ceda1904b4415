/**
 * Whole programs, from the checked files to the running machine: an accepted and compiled program
 * whose rules are proper runs every rule to its end, with the verdict the evaluator gives.
 */
module Program {
  import opened Words
  import opened Wrappers
  import opened CStrings
  import opened Ast
  import opened Machine
  import opened Semantics
  import opened Checker
  import opened Soundness
  import opened Correctness
  import opened References
  import opened Arena
  import opened Compiler
  import opened Linking
  import Codegen
  import Emitter

  // ---------- the conditions ----------

  /** The body is proper where it stands, and its event's module is imported under its own name. */
  predicate ProperBody(known: Modules, env: Environment, self: Option<string>, event: Option<string>, body: Expr) {
    var sc := RuleScope(known, env, self, event);
    && sc.Some? && Proper(sc.value, body)
    && (event.Some? ==> event.value != "" && event.value in env && env[event.value] == OtherName)
  }

  predicate ProperMember(known: Modules, env: Environment, m: Member) {
    m.Anonymous? ==> ProperBody(known, env, None, m.event, m.body)
  }

  predicate ProperStatement(known: Modules, env: Environment, file: nat, s: Statement) {
    match s
    case Import(_) => true
    case Declare(name, event, body, _) => ProperBody(known, env[name := RuleName(event, file)], Some(name), event, body)
    case Sequence(name, _, members) => forall m <- members :: ProperMember(known, env[name := OtherName], m)
  }

  predicate ProperStatements(known: Modules, start: Checker.Progress, file: nat, statements: seq<Statement>) {
    statements == [] ||
    var last := |statements| - 1;
    && ProperStatements(known, start, file, statements[..last])
    && ProperStatement(known, CheckStatements(known, start, file, statements[..last]).env, file, statements[last])
  }

  predicate ProperFiles(known: Modules, files: seq<seq<Statement>>) {
    files == [] ||
    var last := |files| - 1;
    && ProperFiles(known, files[..last])
    && ProperStatements(known, CheckFiles(known, files[..last]).(privates := {}), last, files[last])
  }

  /** No earlier entry of the rule table has the name of a declared rule. */
  predicate UniqueNames(o: Output)
    requires |o.rules| == |o.sources|
  {
    forall i, j :: 0 <= i < j < |o.rules| && !o.rules[j].inSequence ==> o.sources[i].ruleName != o.sources[j].ruleName
  }

  // ---------- what checker and compiler know of each other ----------

  /** Rule `i` is the declared rule that `x` stands for. */
  ghost predicate Stands(o: Output, i: nat, x: string, event: Option<string>) {
    && i < |o.rules| && i < |o.sources|
    && o.sources[i].ruleName == x && !o.rules[i].inSequence
    && (event.Some? ==> o.rules[i].ordinal != 0 && o.sources[i].event == event)
  }

  /** Every rule name in scope stands for a compiled rule, other than the one being checked. */
  ghost predicate NamesStand(env: Environment, self: Option<string>, o: Output, n: nat) {
    forall x <- env :: env[x].RuleName? && Some(x) != self ==> exists i :: 0 <= i < n && Stands(o, i, x, env[x].event)
  }

  /**
   * Rule `j` was checked in scope `sc`, where all rule names stand for earlier rules.  A rule without an event
   * has the module name that the emitter had by then, if any; as a name of the scope it is a module's.
   */
  ghost predicate CheckedIn(known: Modules, o: Output, j: nat, sc: Scope, e: Expr) {
    && j < |o.rules| && j < |o.sources|
    && var r := o.sources[j];
    && (sc.event.Some? <==> o.rules[j].ordinal != 0)
    && (match sc.event case Some(m) => r.event == Some(m) && m in known && sc.mod == Some(known[m]) case None => sc.mod == None)
    && ModuleInScope(sc.env, r.event)
    && Proper(sc, e) && AcceptsBody(sc, e) && r.body == Resolve(sc, e).expr
    && (forall x <- sc.env :: !sc.env[x].Variable?)
    && NamesStand(sc.env, sc.self, o, j)
  }

  /** The module name code is compiled under is no rule and no variable of the scope. */
  predicate ModuleInScope(env: Environment, mod: Option<string>) {
    mod.Some? ==> mod.value in env && env[mod.value] == OtherName
  }

  ghost predicate RuleChecked(known: Modules, o: Output, j: nat) {
    exists sc, e :: CheckedIn(known, o, j, sc, e)
  }

  /** The invariant of checking and compiling in step. */
  ghost predicate InStep(known: Modules, env: Environment, o: Output) {
    && Built(o)
    && (forall x <- env :: !env[x].Variable?)
    && NamesStand(env, None, o, |o.rules|) && ModuleInScope(env, o.moduleName)
    && (forall m <- o.modules :: m.ordinal != 0)
    && (forall r <- o.sources :: Emittable(r.body))
    && (forall j :: 0 <= j < |o.rules| ==> RuleChecked(known, o, j))
  }

  /** Everything said about a rule stays true while the tables grow. */
  lemma CheckedStays(known: Modules, o: Output, o': Output, j: nat)
    requires o.rules <= o'.rules && o.sources <= o'.sources && RuleChecked(known, o, j)
    ensures RuleChecked(known, o', j)
  {
    var sc, e :| CheckedIn(known, o, j, sc, e);
    NamesStay(sc.env, sc.self, o, o', j);
    assert CheckedIn(known, o', j, sc, e);
  }

  lemma NamesStay(env: Environment, self: Option<string>, o: Output, o': Output, n: nat)
    requires o.rules <= o'.rules && o.sources <= o'.sources && NamesStand(env, self, o, n)
    ensures NamesStand(env, self, o', n)
  {
    forall x <- env | env[x].RuleName? && Some(x) != self ensures exists i :: 0 <= i < n && Stands(o', i, x, env[x].event) {
      var i :| 0 <= i < n && Stands(o, i, x, env[x].event);
      assert Stands(o', i, x, env[x].event);
    }
  }

  lemma {:induction false} OrdinalNotZero(modules: seq<ModuleEntry>, strings: StringTable, event: string, i: nat)
    requires forall m <- modules :: m.ordinal != 0
    ensures var r := FindOrdinal(modules, strings, event, i); r.Some? ==> r.value != 0
    decreases |modules| - i
  {
    if i < |modules| {
      OrdinalNotZero(modules, strings, event, i + 1);
    }
  }

  /** What the compiled rule looks like in the tables. */
  lemma AddedRule(versions: map<string, nat>, o: Output, name: Option<string>, event: Option<string>, body: Expr, isPrivate: bool)
    requires Built(o) && (name.Some? ==> NulFree(name.value)) && (name.None? ==> o.strings.data != "") && CleanBody(body)
    requires forall m <- o.modules :: m.ordinal != 0
    requires var p := RuleProgress(versions, o, name, event, body, isPrivate); Fits(p.out) && p.error == 0
    ensures var o' := RuleProgress(versions, o, name, event, body, isPrivate).out; var j := |o.rules|;
            && Built(o') && |o'.rules| == |o'.sources| == j + 1 && o'.rules[..j] == o.rules && o'.sources[..j] == o.sources
            && o'.modules == o.modules && o'.sources[j].body == body && o'.rules[j].inSequence == name.None?
            && (name.Some? ==> o'.sources[j].ruleName == name.value)
            && o'.moduleName == o'.sources[j].event == (if event.Some? then event else o.moduleName)
            && (event.Some? ==> o'.rules[j].ordinal != 0 && event.value in versions)
            && (event.None? ==> o'.rules[j].ordinal == 0)
  {
    hide ValidTable, HasOrigin, RuleBuilt, InternAll, Emitter.Mentions, Codegen.RuleCode;
    RuleProgressBuilt(versions, o, name, event, body, isPrivate);
    RuleGrows(versions, o, name, event, body, isPrivate);
    var named := NameRule(o, name);
    if event.Some? {
      OrdinalNotZero(named.modules, named.strings, event.value, 0);
    }
    if name.Some? {
      NamedBuilt(o, name.value);
      InternAllKeeps(named.strings, Emitter.Mentions(body));
      GetInterned(InternAll(named.strings, Emitter.Mentions(body)), name.value);
    }
  }

  /** Checking and compiling one rule keeps the invariant; `env` already holds its name. */
  lemma RuleInStep(known: Modules, versions: map<string, nat>, env: Environment, o: Output,
                   name: Option<string>, event: Option<string>, body: Expr, isPrivate: bool)
    requires Built(o) && (forall x <- env :: !env[x].Variable?) && (forall m <- o.modules :: m.ordinal != 0)
    requires NamesStand(env, name, o, |o.rules|) && ModuleInScope(env, o.moduleName) && (forall r <- o.sources :: Emittable(r.body))
    requires forall j :: 0 <= j < |o.rules| ==> RuleChecked(known, o, j)
    requires (name.Some? ==> NulFree(name.value)) && (name.None? ==> o.strings.data != "")
    requires name.Some? ==> name.value in env && env[name.value].RuleName? && env[name.value].event == event
    requires CheckBody(known, env, name, event, body).ok && ProperBody(known, env, name, event, body)
    requires var body' := CheckBody(known, env, name, event, body).body; var p := RuleProgress(versions, o, name, event, body', isPrivate);
             CleanBody(body') && Fits(p.out) && p.error == 0
    ensures InStep(known, env, RuleProgress(versions, o, name, event, CheckBody(known, env, name, event, body).body, isPrivate).out)
  {
    hide Built, Proper, Resolve, RuleProgress, Fits;
    var sc, j := RuleScope(known, env, name, event).value, |o.rules|;
    var body' := CheckBody(known, env, name, event, body).body;
    AddedRule(versions, o, name, event, body', isPrivate);
    var o' := RuleProgress(versions, o, name, event, body', isPrivate).out;
    assert o.rules <= o'.rules && o.sources <= o'.sources;
    assert |o.sources| == j by { BuiltSizes(o); }
    ProperEmittable(sc, body);
    ResolveShape(sc, body);
    NamesStay(env, name, o, o', j);
    NewNameStands(env, name, event, o', j);
    forall r <- o'.sources ensures Emittable(r.body) {
      assert r in o'.sources[..j] || r == o'.sources[j];
    }
    forall k | 0 <= k <= j ensures RuleChecked(known, o', k) {
      if k < j {
        CheckedStays(known, o, o', k);
      } else {
        assert CheckedIn(known, o', j, sc, body);
      }
    }
  }

  lemma BuiltSizes(o: Output)
    requires Built(o)
    ensures |o.rules| == |o.sources|
  {
  }

  lemma NewNameStands(env: Environment, name: Option<string>, event: Option<string>, o: Output, j: nat)
    requires NamesStand(env, name, o, j) && |o.rules| == |o.sources| == j + 1
    requires name.Some? ==> name.value in env && env[name.value].RuleName? && env[name.value].event == event && Stands(o, j, name.value, event)
    ensures NamesStand(env, None, o, j + 1)
  {
    forall x <- env | env[x].RuleName? ensures exists i :: 0 <= i < j + 1 && Stands(o, i, x, env[x].event) {
      if name == Some(x) {
        assert Stands(o, j, x, env[x].event);
      } else {
        var i :| 0 <= i < j && Stands(o, i, x, env[x].event);
        assert 0 <= i < j + 1;
      }
    }
  }

  /** Interning, importing and adding sequences leave the rules alone. */
  lemma SameRules(known: Modules, env: Environment, o: Output, o': Output)
    requires InStep(known, env, o) && Built(o') && o'.rules == o.rules && o'.sources == o.sources && o'.moduleName == o.moduleName
    requires forall m <- o'.modules :: m.ordinal != 0
    ensures InStep(known, env, o')
  {
    hide Built;
    NamesStay(env, None, o, o', |o.rules|);
    forall j | 0 <= j < |o.rules| ensures RuleChecked(known, o', j) {
      CheckedStays(known, o, o', j);
    }
  }

  /** A new name that is no rule keeps the invariant, and so does dropping names. */
  lemma OtherNames(known: Modules, env: Environment, env': Environment, o: Output)
    requires InStep(known, env, o)
    requires forall x <- env' :: env'[x] == OtherName || (x in env && env'[x] == env[x])
    requires ModuleInScope(env', o.moduleName)
    ensures InStep(known, env', o)
  {
  }

  lemma {:induction false} MembersInStep(known: Modules, versions: map<string, nat>, env: Environment, file: nat, o: Output, members: seq<Member>)
    requires InStep(known, env, o) && o.strings.data != "" && CheckMembers(known, env, file, members).0
    requires forall m <- members :: ProperMember(known, env, m)
    requires var c := CheckMembers(known, env, file, members).1; var g := MembersProgress(versions, o, c);
             (forall m <- c :: CleanMember(m)) && Fits(g.out) && g.error == 0
    ensures var g := MembersProgress(versions, o, CheckMembers(known, env, file, members).1);
            InStep(known, env, g.out) && g.out.strings.data != ""
    decreases |members|
  {
    hide InStep, ProperBody, CheckBody, RuleProgress, FindRuleFrom, Fits;
    if members != [] {
      var last := |members| - 1;
      var c := CheckMembers(known, env, file, members).1;
      assert c[..last] == CheckMembers(known, env, file, members[..last]).1;
      assert CleanMember(c[last]) && ProperMember(known, env, members[last]);
      MembersGrow(versions, o, c, last);
      GrowsFits(MembersProgress(versions, o, c).out, MembersProgress(versions, o, c[..last]).out);
      MembersInStep(known, versions, env, file, o, members[..last]);
      MemberInStep(known, versions, env, file, MembersProgress(versions, o, c[..last]), members[last]);
    }
  }

  lemma GrowsFits(o': Output, o: Output)
    requires Grows(o', o) && Fits(o')
    ensures Fits(o)
  {
  }

  lemma MemberInStep(known: Modules, versions: map<string, nat>, env: Environment, file: nat, g: Gathered, m: Member)
    requires InStep(known, env, g.out) && g.out.strings.data != "" && ProperMember(known, env, m)
    requires var c := CheckMember(known, env, file, m); var g' := MemberProgress(versions, g, c.1);
             c.0 && CleanMember(c.1) && Fits(g'.out) && g'.error == 0
    ensures var g' := MemberProgress(versions, g, CheckMember(known, env, file, m).1);
            InStep(known, env, g'.out) && g'.out.strings.data != ""
  {
    hide Built, ProperBody, CheckBody, RuleProgress, FindRuleFrom, Fits;
    match m
    case Reference(_) =>
    case Anonymous(event, body) =>
      RuleInStep(known, versions, env, g.out, None, event, body, true);
      RuleProgressBuilt(versions, g.out, None, event, CheckBody(known, env, None, event, body).body, true);
  }

  lemma StatementInStep(known: Modules, versions: map<string, nat>, p: Checker.Progress, file: nat, s: Statement, o: Output)
    requires InStep(known, p.env, o) && ProperStatement(known, p.env, file, s)
    requires var c := CheckStatement(known, p, file, s); var s' := c.statements[|c.statements| - 1]; var q := StatementProgress(versions, o, s');
             c.ok && Clean(s') && Fits(q.out) && q.error == 0
    ensures var c := CheckStatement(known, p, file, s);
            InStep(known, c.env, StatementProgress(versions, o, c.statements[|c.statements| - 1]).out)
  {
    hide Built, ProperBody, CheckBody, RuleProgress, FindRuleFrom, Fits, CheckMembers, MembersProgress;
    var c := CheckStatement(known, p, file, s);
    match s
    case Import(name) =>
      ImportBuilt(versions, o, name);
      var o' := ImportProgress(versions, o, name).out;
      forall m <- o'.modules ensures m.ordinal != 0 {
      }
      SameRules(known, p.env, o, o');
      OtherNames(known, p.env, c.env, o');
    case Declare(name, event, body, isPrivate) =>
      NameLater(p.env, c.env, name, o);
      RuleInStep(known, versions, c.env, o, Some(name), event, body, isPrivate);
    case Sequence(name, maxSpan, members) =>
      SequenceInStep(known, versions, p, file, s, o);
  }

  lemma NameLater(env: Environment, env': Environment, name: string, o: Output)
    requires NamesStand(env, None, o, |o.rules|) && env' - {name} == env
    ensures NamesStand(env', Some(name), o, |o.rules|)
  {
    forall x <- env' | env'[x].RuleName? && Some(x) != Some(name) ensures exists i :: 0 <= i < |o.rules| && Stands(o, i, x, env'[x].event) {
      assert x in env' - {name};
      assert env[x] == env'[x];
    }
  }

  lemma SequenceInStep(known: Modules, versions: map<string, nat>, p: Checker.Progress, file: nat, s: Statement, o: Output)
    requires s.Sequence? && InStep(known, p.env, o) && ProperStatement(known, p.env, file, s)
    requires var c := CheckStatement(known, p, file, s); var s' := c.statements[|c.statements| - 1]; var q := StatementProgress(versions, o, s');
             c.ok && Clean(s') && Fits(q.out) && q.error == 0
    ensures var c := CheckStatement(known, p, file, s);
            InStep(known, c.env, StatementProgress(versions, o, c.statements[|c.statements| - 1]).out)
  {
    hide Built, ProperBody, CheckBody, RuleProgress, FindRuleFrom, Fits, CheckMembers, MembersProgress, Extends;
    var c := CheckStatement(known, p, file, s);
    var members := CheckMembers(known, c.env, file, s.members).1;
    var named := NameRule(o, Some(s.seqName));
    var g := MembersProgress(versions, named, members);
    MembersGrow(versions, named, members, 0);
    MembersNone(versions, named, members);
    assert Fits(named) by { FitsParts(g.out, named, StatementProgress(versions, o, Sequence(s.seqName, s.maxSpan, members)).out); }
    FitsParts(g.out, g.out, StatementProgress(versions, o, Sequence(s.seqName, s.maxSpan, members)).out);
    assert Clean(Sequence(s.seqName, s.maxSpan, members));
    NamedFits(o, s.seqName);
    NamedBuilt(o, s.seqName);
    SameRules(known, p.env, o, named);
    OtherNames(known, p.env, c.env, named);
    MembersInStep(known, versions, c.env, file, named, s.members);
    var o' := StatementProgress(versions, o, Sequence(s.seqName, s.maxSpan, members)).out;
    SequenceEntryKeeps(g.out, o');
    SameRules(known, c.env, g.out, o');
  }

  lemma FitsParts(g: Output, o: Output, o': Output)
    requires Grows(g, o) && o'.(sequences := g.sequences) == g && Fits(o')
    ensures Fits(o) && Fits(g)
  {
  }

  lemma NamedFits(o: Output, name: string)
    requires Fits(NameRule(o, Some(name)))
    ensures |Intern(o.strings, name).data| < WORD_LIMIT
  {
  }

  lemma {:induction false} StatementsInStep(known: Modules, versions: map<string, nat>, start: Checker.Progress, file: nat,
                                            statements: seq<Statement>, o0: Output)
    requires start.ok && o0 == ProgramProgress(versions, start.statements).out && InStep(known, start.env, o0)
    requires ProperStatements(known, start, file, statements)
    requires var c := CheckStatements(known, start, file, statements); var q := ProgramProgress(versions, c.statements);
             c.ok && (forall s <- c.statements :: Clean(s)) && Fits(q.out) && q.error == 0
    ensures var c := CheckStatements(known, start, file, statements);
            InStep(known, c.env, ProgramProgress(versions, c.statements).out)
    decreases |statements|
  {
    hide InStep, CheckStatement, StatementProgress, ProperStatement, Fits, Clean;
    if statements != [] {
      var last := |statements| - 1;
      var before := CheckStatements(known, start, file, statements[..last]);
      var c := CheckStatements(known, start, file, statements);
      AddsOne(known, before, file, statements[last]);
      var n := |before.statements|;
      assert c.statements[..n] == before.statements;
      forall s <- before.statements ensures Clean(s) {
        assert s in c.statements;
      }
      ProgramGrows(versions, c.statements, n);
      GrowsFits(ProgramProgress(versions, c.statements).out, ProgramProgress(versions, before.statements).out);
      StatementsInStep(known, versions, start, file, statements[..last], o0);
      StatementInStep(known, versions, before, file, statements[last], ProgramProgress(versions, before.statements).out);
    }
  }

  lemma AddsOne(known: Modules, p: Checker.Progress, file: nat, s: Statement)
    ensures var c := CheckStatement(known, p, file, s); (c.ok ==> p.ok) && |c.statements| == |p.statements| + 1 && p.statements <= c.statements
  {
    hide CheckBody, CheckMembers;
  }

  lemma {:induction false} StatementsAccumulate(known: Modules, start: Checker.Progress, file: nat, statements: seq<Statement>)
    ensures var c := CheckStatements(known, start, file, statements); start.statements <= c.statements && (c.ok ==> start.ok)
    decreases |statements|
  {
    hide CheckStatement;
    if statements != [] {
      var last := |statements| - 1;
      StatementsAccumulate(known, start, file, statements[..last]);
      AddsOne(known, CheckStatements(known, start, file, statements[..last]), file, statements[last]);
    }
  }

  /** The names that go out of scope at the end of a file are names of rules. */
  lemma {:induction false} PrivatesAreRules(known: Modules, start: Checker.Progress, file: nat, statements: seq<Statement>)
    requires start.privates == {}
    ensures var c := CheckStatements(known, start, file, statements); RuleNames(c.env, c.privates)
    decreases |statements|
  {
    hide CheckStatement, RuleNames;
    if statements == [] {
      NoRuleNames(start.env);
    } else {
      var last := |statements| - 1;
      PrivatesAreRules(known, start, file, statements[..last]);
      StatementPrivates(known, CheckStatements(known, start, file, statements[..last]), file, statements[last]);
    }
  }

  predicate RuleNames(env: Environment, names: set<string>) {
    forall x <- names :: x in env && env[x].RuleName?
  }

  lemma NoRuleNames(env: Environment)
    ensures RuleNames(env, {})
  {
  }

  lemma StatementPrivates(known: Modules, p: Checker.Progress, file: nat, s: Statement)
    requires RuleNames(p.env, p.privates)
    ensures var c := CheckStatement(known, p, file, s); RuleNames(c.env, c.privates)
  {
    hide CheckBody, CheckMembers;
  }

  lemma ModuleStays(known: Modules, env: Environment, privates: set<string>, o: Output)
    requires InStep(known, env, o) && RuleNames(env, privates)
    ensures ModuleInScope(env - privates, o.moduleName)
  {
  }

  /** Checking and compiling all files keeps checker and compiler in step. */
  lemma {:induction false} FilesInStep(known: Modules, versions: map<string, nat>, files: seq<seq<Statement>>)
    requires ProperFiles(known, files)
    requires var c := CheckFiles(known, files); var q := ProgramProgress(versions, c.statements);
             c.ok && (forall s <- c.statements :: Clean(s)) && Fits(q.out) && q.error == 0
    ensures var c := CheckFiles(known, files); InStep(known, c.env, ProgramProgress(versions, c.statements).out)
    decreases |files|
  {
    hide InStep, CheckStatements, StatementProgress, ProperStatements, Fits, Clean;
    if files == [] {
      EmptyInStep(known);
    } else {
      var last := |files| - 1;
      var before := CheckFiles(known, files[..last]).(privates := {});
      var c := CheckStatements(known, before, last, files[last]);
      StatementsAccumulate(known, before, last, files[last]);
      var n := |before.statements|;
      assert c.statements[..n] == before.statements;
      forall s <- before.statements ensures Clean(s) {
        assert s in c.statements;
      }
      ProgramGrows(versions, c.statements, n);
      GrowsFits(ProgramProgress(versions, c.statements).out, ProgramProgress(versions, before.statements).out);
      FilesInStep(known, versions, files[..last]);
      StatementsInStep(known, versions, before, last, files[last], ProgramProgress(versions, before.statements).out);
      PrivatesAreRules(known, before, last, files[last]);
      ModuleStays(known, c.env, c.privates, ProgramProgress(versions, c.statements).out);
      OtherNames(known, c.env, c.env - c.privates, ProgramProgress(versions, c.statements).out);
    }
  }

  lemma EmptyInStep(known: Modules)
    ensures InStep(known, NO_NAMES, EMPTY)
  {
  }

  // ---------- running ----------

  /** The modules loaded at run time are those the checker knew. */
  ghost predicate WorldConforms(known: Modules, objects: map<string, Object>, x: Externals) {
    forall m <- known :: m in objects ==> StructConforms(objects[m], known[m], x)
  }

  /** A name leads to rule `i` of that name exactly if no earlier rule has it; otherwise it leads to an earlier one. */
  lemma FirstIndex(rules: seq<Rule>, x: string, i: nat)
    requires i < |rules| && rules[i].ruleName == x
    ensures IndexOf(rules, x).Some? && IndexOf(rules, x).value <= i && rules[IndexOf(rules, x).value].ruleName == x
    ensures IndexOf(rules, x) == Some(i) <==> forall k :: 0 <= k < i ==> rules[k].ruleName != x
  {
  }

  /** Names are unique exactly if every declared rule is the one its name leads to. */
  lemma OwnNamesReached(o: Output)
    requires |o.rules| == |o.sources|
    ensures UniqueNames(o) <==> forall j :: 0 <= j < |o.rules| && !o.rules[j].inSequence ==> IndexOf(o.sources, o.sources[j].ruleName) == Some(j)
  {
    forall j | 0 <= j < |o.rules| ensures IndexOf(o.sources, o.sources[j].ruleName) == Some(j) <==>
                                        forall k :: 0 <= k < j ==> o.sources[k].ruleName != o.sources[j].ruleName {
      FirstIndex(o.sources, o.sources[j].ruleName, j);
    }
  }

  /** A rule name in the scope of a rule leads to an earlier rule. */
  lemma ReferenceRuns(known: Modules, o: Output, j: nat, sc: Scope, e: Expr, y: string)
    requires |o.rules| == |o.sources| && CheckedIn(known, o, j, sc, e)
    requires y in sc.env && sc.env[y].RuleName? && sc.self != Some(y)
    ensures var i := IndexOf(o.sources, y); i.Some? && i.value < j
  {
    hide Proper, Resolve, IndexOf;
    var i :| 0 <= i < j && Stands(o, i, y, sc.env[y].event);
    FirstIndex(o.sources, y, i);
  }

  /**
   * Every rule of the table is safe, also those without an event: it meets no wrong kind and no missing thing,
   * and every rule it refers to comes earlier in the table.
   */
  lemma {:induction false} RuleSafe(known: Modules, o: Output, objects: map<string, Object>, x: Externals, j: nat)
    requires Built(o) && |o.rules| == |o.sources| && WorldConforms(known, objects, x)
    requires forall r <- o.sources :: Emittable(r.body)
    requires forall k :: 0 <= k < |o.rules| ==> RuleChecked(known, o, k)
    requires j < |o.rules|
    ensures var w := WorldOf(o, objects, x); EmittableWorld(w) && Safe(EvalRule(w, j))
    decreases j
  {
    hide Built, StructConforms, Proper, Resolve, Eval, EvalRule, IndexOf, NamesStand;
    var w := WorldOf(o, objects, x);
    assert RuleChecked(known, o, j);
    var sc, e :| CheckedIn(known, o, j, sc, e);
    var mod := o.sources[j].event;
    forall y <- sc.env | sc.env[y].RuleName? && sc.env[y].event == sc.event && sc.self != Some(y)
      ensures IndexOf(w.rules, y).Some? && IndexOf(w.rules, y).value < j && Safe(EvalRule(w, IndexOf(w.rules, y).value))
    {
      ReferenceRuns(known, o, j, sc, e, y);
      RuleSafe(known, o, objects, x, IndexOf(w.rules, y).value);
    }
    assert InScope(sc, w, j, mod, None);
    Sound(sc, w, j, mod, None, e, ZERO);
    SafeVerdict(w, j, Resolve(sc, e).tag);
  }

  lemma SafeVerdict(w: World, j: nat, t: Tag)
    requires EmittableWorld(w) && j < |w.rules| && IsBoolean(t)
    requires Good(Eval(w, j, w.rules[j].event, None, w.rules[j].body, ZERO), t)
    ensures Safe(EvalRule(w, j))
  {
    hide Eval;
  }

  /**
   * The main theorem.  Take files that the checker accepts and the compiler compiles, whose bodies are
   * proper, and modules that look as declared.  Then the machine, started on any rule of the table, declared,
   * private or in a sequence, with or without an event, on any stack with room for the rule's depth, halts:
   * with the evaluator's verdict and the stack as it was, with the error the evaluator gives, or on undefined
   * arithmetic.  No operand is missing or of the wrong kind, and no rule runs forever.  Only where the rule
   * reaches an identifier that was compiled before any module name was known, nothing is said.
   */
  lemma ProgramRuns(known: Modules, versions: map<string, nat>, files: seq<seq<Statement>>, objects: map<string, Object>, x: Externals,
                    j: nat, s: seq<Value>, k: nat)
    returns (fuel: nat)
    requires var c := CheckFiles(known, files); var q := ProgramProgress(versions, c.statements);
             && c.ok && ProperFiles(known, files)
             && (forall s <- c.statements :: Clean(s)) && Fits(q.out) && q.error == 0
             && j < |q.out.sources| && |s| + RuleDepth(WorldOf(q.out, objects, x), j) <= STACK_MAX
    requires WorldConforms(known, objects, x)
    ensures var o := ProgramProgress(versions, CheckFiles(known, files).statements).out;
            var w := WorldOf(o, objects, x);
            && |o.rules| == |o.sources| && EmittableWorld(w)
            && var r := Exec(ImageOf(o, objects, x), o.rules[j].codeOffset, s, ZERO, fuel);
               match EvalRule(w, j)
               case Val(v, _) => v.Num? && r == Stop(0, v.w, s, k)
               case Err(e) => r.Stop? && r.error == e && r.result == 0 && s <= r.stack
               case Lost(reason) =>
                 || (reason == UndefinedArithmetic && r == Fault(UndefinedArithmetic))
                 || (reason == NoCode && !Rooted(o.sources, j))
  {
    hide Exec, EvalRule, RuleDepth, Linked, RuleBuilt, RuleChecked, CheckFiles, ProgramProgress, WorldConforms, Rooted;
    var c := CheckFiles(known, files);
    var o := ProgramProgress(versions, c.statements).out;
    FilesInStep(known, versions, files);
    RuleSafe(known, o, objects, x, j);
    ProgramLinked(versions, c.statements, objects, x);
    var w := WorldOf(o, objects, x);
    fuel := 0;
    if Rooted(o.sources, j) {
      RootedMeans(w, j);
    }
    if HasMeaning(EvalRule(w, j)) {
      fuel := RuleCompiled(ImageOf(o, objects, x), w, j, s, k);
    }
  }
}
