/**
 * Names in the tables: in an accepted file every declared rule is found under its own name, and every
 * entry of a sequence leads to the rule its member stands for.
 */
module Names {
  import opened Words
  import opened Wrappers
  import opened CStrings
  import opened Ast
  import opened Machine
  import opened Semantics
  import opened Checker
  import opened Arena
  import opened Compiler
  import opened Linking
  import opened Program
  import Codegen
  import Emitter

  // ---------- unique names ----------

  /** Every name in the rule table is in scope, also the one that rules in sequences share. */
  ghost predicate Named(env: Environment, o: Output) {
    && Built(o) && UniqueNames(o) && (forall m <- o.modules :: m.ordinal != 0)
    && (forall r <- o.sources :: r.ruleName in env)
    && (o.strings.data != "" ==> NameAt(o.strings, 0) in env)
  }

  lemma OriginStays(t: StringTable, t': StringTable)
    requires ValidTable(t) && HasOrigin(t) && t.data != "" && ValidTable(t') && Extends(t', t)
    ensures t'.data != "" && NameAt(t', 0) == NameAt(t, 0)
  {
    OriginName(t);
    GetInterned(t', NameAt(t, 0));
  }

  lemma NamedOrigin(o: Output, name: string)
    requires Built(o) && NulFree(name) && |Intern(o.strings, name).data| < WORD_LIMIT
    ensures NameAt(NameRule(o, Some(name)).strings, 0) == if o.strings.data == "" then name else NameAt(o.strings, 0)
  {
    hide RuleBuilt, ValidTable, HasOrigin;
    NamedBuilt(o, name);
    var t := NameRule(o, Some(name)).strings;
    if o.strings.data == "" {
      NothingStored(o.strings);
      GetInterned(t, name);
    } else {
      OriginStays(o.strings, t);
    }
  }

  lemma NothingStored(t: StringTable)
    requires ValidTable(t) && t.data == ""
    ensures t.offsets == map[]
  {
    assert forall s <- t.offsets :: !StoredAt(t.data, t.offsets[s], s);
  }

  /** The name an entry is given, and the name that stays at offset 0. */
  lemma RuleOrigin(versions: map<string, nat>, o: Output, name: Option<string>, event: Option<string>, body: Expr, isPrivate: bool)
    requires Built(o) && (name.Some? ==> NulFree(name.value)) && (name.None? ==> o.strings.data != "") && CleanBody(body)
    requires var p := RuleProgress(versions, o, name, event, body, isPrivate); Fits(p.out) && p.error == 0
    ensures var o' := RuleProgress(versions, o, name, event, body, isPrivate).out; var named := NameRule(o, name);
            && NameAt(o'.strings, 0) == NameAt(named.strings, 0) && o'.strings.data != ""
            && (name.None? ==> |o'.sources| == |o.sources| + 1 && o'.sources[|o.sources|].ruleName == NameAt(o.strings, 0))
  {
    hide RuleBuilt, ValidTable, HasOrigin, Extends, Codegen.RuleCode, InternAll, Emitter.Mentions;
    RuleGrows(versions, o, name, event, body, isPrivate);
    if name.Some? {
      NamedBuilt(o, name.value);
    }
    var named := NameRule(o, name);
    InternAllKeeps(named.strings, Emitter.Mentions(body));
    OriginStays(named.strings, InternAll(named.strings, Emitter.Mentions(body)));
  }

  lemma RuleNamed(versions: map<string, nat>, env: Environment, env': Environment, o: Output,
                  name: Option<string>, event: Option<string>, body: Expr, isPrivate: bool)
    requires Named(env, o) && (name.Some? ==> NulFree(name.value) && name.value !in env) && (name.None? ==> o.strings.data != "")
    requires CleanBody(body) && (forall x <- env :: x in env') && (name.Some? ==> name.value in env')
    requires var p := RuleProgress(versions, o, name, event, body, isPrivate); Fits(p.out) && p.error == 0
    ensures Named(env', RuleProgress(versions, o, name, event, body, isPrivate).out)
    ensures RuleProgress(versions, o, name, event, body, isPrivate).out.strings.data != ""
  {
    hide Built, RuleProgress, Fits, NameAt;
    AddedRule(versions, o, name, event, body, isPrivate);
    RuleOrigin(versions, o, name, event, body, isPrivate);
    if name.Some? {
      RuleFits(versions, o, name.value, event, body, isPrivate);
      NamedOrigin(o, name.value);
    }
    BuiltSizes(o);
    var o', j := RuleProgress(versions, o, name, event, body, isPrivate).out, |o.rules|;
    forall i, k | 0 <= i < k < |o'.rules| && !o'.rules[k].inSequence ensures o'.sources[i].ruleName != o'.sources[k].ruleName {
      assert o'.sources[i] == o.sources[i];
      if k < j {
        assert o'.sources[k] == o.sources[k] && o'.rules[k] == o.rules[k];
      }
    }
    forall r <- o'.sources ensures r.ruleName in env || Some(r.ruleName) == name {
      assert r in o'.sources[..j] || r == o'.sources[j];
    }
  }

  lemma RuleFits(versions: map<string, nat>, o: Output, name: string, event: Option<string>, body: Expr, isPrivate: bool)
    requires Fits(RuleProgress(versions, o, Some(name), event, body, isPrivate).out)
    ensures |Intern(o.strings, name).data| < WORD_LIMIT
  {
    RuleGrows(versions, o, Some(name), event, body, isPrivate);
  }

  lemma {:induction false} MembersNamed(versions: map<string, nat>, env: Environment, o: Output, members: seq<Member>)
    requires Named(env, o) && o.strings.data != "" && (forall m <- members :: CleanMember(m))
    requires var g := MembersProgress(versions, o, members); Fits(g.out) && g.error == 0
    ensures var g := MembersProgress(versions, o, members); Named(env, g.out) && g.out.strings.data != ""
    decreases |members|
  {
    hide Named, RuleProgress, FindRuleFrom, Fits;
    if members != [] {
      var last := |members| - 1;
      MembersGrow(versions, o, members, last);
      GrowsFits(MembersProgress(versions, o, members).out, MembersProgress(versions, o, members[..last]).out);
      assert CleanMember(members[last]);
      assert MembersProgress(versions, o, members).error == 0 ==> MembersProgress(versions, o, members[..last]).error == 0;
      MembersNamed(versions, env, o, members[..last]);
      if members[last].Anonymous? {
        RuleNamed(versions, env, env, MembersProgress(versions, o, members[..last]).out, None, members[last].event, members[last].body, true);
      }
    }
  }

  lemma InternNamed(env: Environment, o: Output, name: string, v: Name)
    requires Named(env, o) && NulFree(name) && |Intern(o.strings, name).data| < WORD_LIMIT
    ensures Named(env[name := v], NameRule(o, Some(name))) && NameRule(o, Some(name)).strings.data != ""
  {
    hide RuleBuilt, ValidTable, HasOrigin, NameAt;
    NamedBuilt(o, name);
    NamedOrigin(o, name);
  }

  lemma StatementNamed(known: Modules, versions: map<string, nat>, p: Checker.Progress, file: nat, s: Statement, o: Output)
    requires Named(p.env, o)
    requires var c := CheckStatement(known, p, file, s); var s' := c.statements[|c.statements| - 1]; var q := StatementProgress(versions, o, s');
             c.ok && Clean(s') && Fits(q.out) && q.error == 0
    ensures var c := CheckStatement(known, p, file, s);
            Named(c.env, StatementProgress(versions, o, c.statements[|c.statements| - 1]).out)
  {
    hide Built, CheckBody, RuleProgress, Fits, CheckMembers, MembersProgress, NameAt, Extends;
    var c := CheckStatement(known, p, file, s);
    match s
    case Import(name) => ImportNamed(versions, p.env, o, name);
    case Declare(name, event, body, isPrivate) =>
      RuleNamed(versions, p.env, c.env, o, Some(name), event, CheckBody(known, c.env, Some(name), event, body).body, isPrivate);
    case Sequence(name, maxSpan, members) =>
      var cm := CheckMembers(known, c.env, file, members).1;
      var named := NameRule(o, Some(name));
      var g, o' := MembersProgress(versions, named, cm), StatementProgress(versions, o, Sequence(name, maxSpan, cm)).out;
      assert Clean(Sequence(name, maxSpan, cm));
      MembersGrow(versions, named, cm, 0);
      MembersNone(versions, named, cm);
      FitsParts(g.out, named, o');
      NamedFits(o, name);
      InternNamed(p.env, o, name, OtherName);
      MembersNamed(versions, c.env, named, cm);
      SequenceEntryKeeps(g.out, o');
  }

  lemma ImportNamed(versions: map<string, nat>, env: Environment, o: Output, name: string)
    requires Named(env, o) && NulFree(name) && Fits(ImportProgress(versions, o, name).out)
    ensures Named(env[name := OtherName], ImportProgress(versions, o, name).out)
    ensures name in env ==> Named(env, ImportProgress(versions, o, name).out)
  {
    hide RuleBuilt, ValidTable, HasOrigin, NameAt, Intern;
    ImportBuilt(versions, o, name);
    if name !in o.strings.offsets {
      InternNamed(env, o, name, OtherName);
    }
  }

  lemma {:induction false} StatementsNamed(known: Modules, versions: map<string, nat>, file: nat, statements: seq<Statement>)
    requires var c := CheckStatements(known, Checker.Progress(true, NO_NAMES, {}, []), file, statements); var q := ProgramProgress(versions, c.statements);
             c.ok && (forall s <- c.statements :: Clean(s)) && Fits(q.out) && q.error == 0
    ensures var c := CheckStatements(known, Checker.Progress(true, NO_NAMES, {}, []), file, statements);
            Named(c.env, ProgramProgress(versions, c.statements).out)
    decreases |statements|
  {
    hide Named, CheckStatement, StatementProgress, Fits, Clean;
    var start := Checker.Progress(true, NO_NAMES, {}, []);
    if statements == [] {
      EmptyNamed();
    } else {
      var last := |statements| - 1;
      var before := CheckStatements(known, start, file, statements[..last]);
      var c := CheckStatements(known, start, file, statements);
      AddsOne(known, before, file, statements[last]);
      var n := |before.statements|;
      assert c.statements[..n] == before.statements;
      forall s <- before.statements ensures Clean(s) {
        assert s in c.statements;
      }
      ProgramGrows(versions, c.statements, n);
      GrowsFits(ProgramProgress(versions, c.statements).out, ProgramProgress(versions, before.statements).out);
      StatementsNamed(known, versions, file, statements[..last]);
      StatementNamed(known, versions, before, file, statements[last], ProgramProgress(versions, before.statements).out);
    }
  }

  lemma EmptyNamed()
    ensures Named(NO_NAMES, EMPTY)
  {
  }

  /** In a program of one accepted file, rule names are unique. */
  lemma SingleFileUnique(known: Modules, versions: map<string, nat>, statements: seq<Statement>)
    requires var c := CheckFiles(known, [statements]); var q := ProgramProgress(versions, c.statements);
             c.ok && (forall s <- c.statements :: Clean(s)) && Fits(q.out) && q.error == 0
    ensures var o := ProgramProgress(versions, CheckFiles(known, [statements]).statements).out;
            |o.rules| == |o.sources| && UniqueNames(o)
  {
    hide CheckStatements, ProgramProgress, Fits, Clean, Built;
    assert [statements][..0] == [];
    StatementsNamed(known, versions, 0, statements);
    BuiltSizes(ProgramProgress(versions, CheckFiles(known, [statements]).statements).out);
  }

  // ---------- sequences ----------

  /** Index `i` is that of the rule the member stands for: the first of its name, or the one written in place. */
  ghost predicate MemberPlaced(o: Output, m: Member, i: nat) {
    && i < |o.rules| && i < |o.sources|
    && match m
       case Reference(name) => Stands(o, i, name, None) && IndexOf(o.sources, name) == Some(i)
       case Anonymous(event, body) =>
         && o.sources[i].body == body && o.rules[i].inSequence
         && (if event.Some? then o.sources[i].event == event && o.rules[i].ordinal != 0 else o.rules[i].ordinal == 0)
  }

  ghost predicate MembersPlaced(o: Output, members: seq<Member>, indices: seq<nat>) {
    |indices| == |members| && forall k :: 0 <= k < |members| ==> MemberPlaced(o, members[k], indices[k])
  }

  lemma {:induction false} IndexGrows(rules: seq<Rule>, rules': seq<Rule>, name: string, i: nat)
    requires rules <= rules' && IndexFrom(rules, name, i).Some?
    ensures IndexFrom(rules', name, i) == IndexFrom(rules, name, i)
    decreases |rules| - i
  {
    if i < |rules| && rules[i].ruleName != name {
      IndexGrows(rules, rules', name, i + 1);
    }
  }

  lemma PlacedGrows(o: Output, o': Output, members: seq<Member>, indices: seq<nat>)
    requires o.rules <= o'.rules && o.sources <= o'.sources && MembersPlaced(o, members, indices)
    ensures MembersPlaced(o', members, indices)
  {
    forall k | 0 <= k < |members| ensures MemberPlaced(o', members[k], indices[k]) {
      assert MemberPlaced(o, members[k], indices[k]);
      if members[k].Reference? {
        IndexGrows(o.sources, o'.sources, members[k].name, 0);
      }
    }
  }

  /** Looking a name up in the compiled table is looking it up among the rules. */
  lemma {:induction false} FindBuilt(o: Output, name: string, i: nat)
    requires Built(o)
    ensures FindRuleFrom(o.strings, o.rules, name, i) == IndexFrom(o.sources, name, i)
    decreases |o.rules| - i
  {
    hide ValidTable, HasOrigin, Codegen.RuleCode, GetString;
    if i < |o.rules| {
      assert RuleBuilt(o.code, o.strings, o.sources[i], o.rules[i]);
      GetInterned(o.strings, o.sources[i].ruleName);
      FindBuilt(o, name, i + 1);
    }
  }

  lemma MemberIsPlaced(known: Modules, versions: map<string, nat>, env: Environment, file: nat, g: Gathered, m: Member)
    requires InStep(known, env, g.out) && g.out.strings.data != "" && UniqueNames(g.out)
    requires var c := CheckMember(known, env, file, m); var g' := MemberProgress(versions, g, c.1);
             c.0 && CleanMember(c.1) && Fits(g'.out) && g'.error == 0
    ensures var c := CheckMember(known, env, file, m).1; var g' := MemberProgress(versions, g, c);
            MemberPlaced(g'.out, c, g'.indices[|g.indices|])
  {
    hide Built, CheckBody, RuleProgress, Fits, IndexFrom, FindRuleFrom;
    BuiltSizes(g.out);
    match m
    case Reference(name) =>
      var i :| 0 <= i < |g.out.rules| && Stands(g.out, i, name, env[name].event);
      FirstIndex(g.out.sources, name, i);
      FindBuilt(g.out, name, 0);
    case Anonymous(event, body) =>
      AddedRule(versions, g.out, None, event, CheckBody(known, env, None, event, body).body, true);
  }

  /** Every declared rule is the first of its name. */
  ghost predicate OwnNames(o: Output) {
    |o.rules| == |o.sources| && UniqueNames(o)
  }

  lemma OwnNamesBefore(o: Output, o': Output)
    requires OwnNames(o') && o.rules <= o'.rules && o.sources <= o'.sources && |o.rules| == |o.sources|
    ensures OwnNames(o)
  {
    forall i, j | 0 <= i < j < |o.rules| && !o.rules[j].inSequence ensures o.sources[i].ruleName != o.sources[j].ruleName {
      assert o'.sources[i] == o.sources[i] && o'.sources[j] == o.sources[j] && o'.rules[j] == o.rules[j];
    }
  }

  lemma {:induction false} MembersArePlaced(known: Modules, versions: map<string, nat>, env: Environment, file: nat, o: Output, members: seq<Member>)
    requires InStep(known, env, o) && o.strings.data != "" && CheckMembers(known, env, file, members).0
    requires forall m <- members :: ProperMember(known, env, m)
    requires var c := CheckMembers(known, env, file, members).1; var g := MembersProgress(versions, o, c);
             (forall m <- c :: CleanMember(m)) && Fits(g.out) && g.error == 0 && OwnNames(g.out)
    ensures var c := CheckMembers(known, env, file, members).1; var g := MembersProgress(versions, o, c);
            MembersPlaced(g.out, c, g.indices)
    decreases |members|
  {
    hide InStep, ProperBody, CheckBody, MemberProgress, Fits, MemberPlaced, UniqueNames;
    if members != [] {
      var last := |members| - 1;
      var c := CheckMembers(known, env, file, members).1;
      assert c[..last] == CheckMembers(known, env, file, members[..last]).1;
      assert CleanMember(c[last]) && ProperMember(known, env, members[last]);
      var g, g' := MembersProgress(versions, o, c[..last]), MembersProgress(versions, o, c);
      MembersGrow(versions, o, c, last);
      GrowsFits(g'.out, g.out);
      MemberKeepsOthers(versions, g, c[last]);
      MembersInStep(known, versions, env, file, o, members[..last]);
      InStepSizes(known, env, g.out);
      OwnNamesBefore(g.out, g'.out);
      MembersArePlaced(known, versions, env, file, o, members[..last]);
      MemberIsPlaced(known, versions, env, file, g, members[last]);
      PlacedGrows(g.out, g'.out, c[..last], g.indices);
    }
  }

  lemma InStepSizes(known: Modules, env: Environment, o: Output)
    requires InStep(known, env, o)
    ensures |o.rules| == |o.sources|
  {
    hide RuleBuilt;
  }

  lemma MemberKeepsOthers(versions: map<string, nat>, g: Gathered, m: Member)
    ensures var g' := MemberProgress(versions, g, m); |g'.indices| == |g.indices| + 1 && g'.indices[..|g.indices|] == g.indices && (g'.error == 0 ==> g.error == 0)
  {
    hide RuleProgress, FindRuleFrom;
  }

  /** An entry of the sequence table leads to the rules of the sequence's members, in order, and to its span. */
  ghost predicate EntryPlaced(o: Output, s: Statement, entry: SequenceEntry) {
    s.Sequence? && entry.maxSpan == s.maxSpan && MembersPlaced(o, s.members, entry.indices)
  }

  /** The entry compiled for an accepted sequence leads to the rules of its members. */
  lemma SequencePlaced(known: Modules, versions: map<string, nat>, p: Checker.Progress, file: nat, s: Statement, o: Output)
    requires s.Sequence? && InStep(known, p.env, o) && ProperStatement(known, p.env, file, s)
    requires var c := CheckStatement(known, p, file, s); var s' := c.statements[|c.statements| - 1]; var q := StatementProgress(versions, o, s');
             c.ok && Clean(s') && Fits(q.out) && q.error == 0 && OwnNames(q.out)
    ensures var c := CheckStatement(known, p, file, s); var s' := c.statements[|c.statements| - 1]; var o' := StatementProgress(versions, o, s').out;
            && |o'.sequences| == |o.sequences| + 1 && o.sequences <= o'.sequences
            && EntryPlaced(o', s', o'.sequences[|o.sequences|])
  {
    hide Built, InStep, ProperBody, CheckBody, RuleProgress, FindRuleFrom, Fits, CheckMembers, MembersProgress, Extends, MemberPlaced, UniqueNames;
    var c := CheckStatement(known, p, file, s);
    var members := CheckMembers(known, c.env, file, s.members).1;
    var named := NameRule(o, Some(s.seqName));
    var g, o' := MembersProgress(versions, named, members), StatementProgress(versions, o, Sequence(s.seqName, s.maxSpan, members)).out;
    MembersGrow(versions, named, members, 0);
    MembersNone(versions, named, members);
    MembersKeepSequences(versions, named, members);
    FitsParts(g.out, named, o');
    assert Clean(Sequence(s.seqName, s.maxSpan, members));
    NamedFits(o, s.seqName);
    InStepBuilt(known, p.env, o);
    NamedBuilt(o, s.seqName);
    SameRules(known, p.env, o, named);
    OtherNames(known, p.env, c.env, named);
    OwnNamesBefore(g.out, o');
    MembersArePlaced(known, versions, c.env, file, named, s.members);
    PlacedGrows(g.out, o', members, g.indices);
  }

  lemma InStepBuilt(known: Modules, env: Environment, o: Output)
    requires InStep(known, env, o)
    ensures Built(o) && ModuleInScope(env, o.moduleName) && forall m <- o.modules :: m.ordinal != 0
  {
  }

  lemma {:induction false} MembersKeepSequences(versions: map<string, nat>, o: Output, members: seq<Member>)
    ensures MembersProgress(versions, o, members).out.sequences == o.sequences
    decreases |members|
  {
    hide FindRuleFrom, Codegen.RuleCode, InternAll;
    if members != [] {
      MembersKeepSequences(versions, o, members[..|members| - 1]);
    }
  }

  // ---------- the whole sequence table ----------

  /** The sequences of a program, in order. */
  function SequencesOf(statements: seq<Statement>): seq<Statement> {
    if statements == [] then []
    else
      var last := statements[|statements| - 1];
      SequencesOf(statements[..|statements| - 1]) + if last.Sequence? then [last] else []
  }

  /** The table has an entry for every sequence, in order, and each is placed. */
  ghost predicate AllPlaced(o: Output, statements: seq<Statement>) {
    && |o.sequences| == |SequencesOf(statements)|
    && forall k :: 0 <= k < |o.sequences| ==> EntryPlaced(o, SequencesOf(statements)[k], o.sequences[k])
  }

  lemma AllPlacedGrows(o: Output, o': Output, statements: seq<Statement>)
    requires AllPlaced(o, statements) && o.rules <= o'.rules && o.sources <= o'.sources && o'.sequences == o.sequences
    ensures AllPlaced(o', statements)
  {
    hide MembersPlaced;
    forall k | 0 <= k < |o.sequences| ensures EntryPlaced(o', SequencesOf(statements)[k], o.sequences[k]) {
      PlacedGrows(o, o', SequencesOf(statements)[k].members, o.sequences[k].indices);
    }
  }

  /** One more statement keeps the table placed. */
  lemma StatementKeepsPlaced(known: Modules, versions: map<string, nat>, p: Checker.Progress, file: nat, s: Statement, o: Output)
    requires InStep(known, p.env, o) && AllPlaced(o, p.statements) && ProperStatement(known, p.env, file, s)
    requires var c := CheckStatement(known, p, file, s); var s' := c.statements[|c.statements| - 1]; var q := StatementProgress(versions, o, s');
             c.ok && Clean(s') && Fits(q.out) && q.error == 0 && OwnNames(q.out)
    ensures var c := CheckStatement(known, p, file, s);
            AllPlaced(StatementProgress(versions, o, c.statements[|c.statements| - 1]).out, c.statements)
  {
    hide Built, InStep, ProperBody, CheckBody, RuleProgress, Fits, CheckMembers, MembersProgress, MembersPlaced, UniqueNames, ProperStatement;
    var c := CheckStatement(known, p, file, s);
    var n := |p.statements|;
    var o' := StatementProgress(versions, o, c.statements[n]).out;
    assert c.statements[..n] == p.statements && |c.statements| == n + 1;
    StatementGrows(versions, o, c.statements[n]);
    if s.Sequence? {
      SequencePlaced(known, versions, p, file, s, o);
      AllPlacedGrows(o, o'.(sequences := o.sequences), p.statements);
      PlacedOverall(o', o, p.statements, c.statements[n]);
    } else {
      OnlySequencesAdd(versions, o, c.statements[n]);
      AllPlacedGrows(o, o', p.statements);
    }
  }

  lemma OnlySequencesAdd(versions: map<string, nat>, o: Output, s: Statement)
    requires !s.Sequence?
    ensures StatementProgress(versions, o, s).out.sequences == o.sequences
  {
    hide Codegen.RuleCode, InternAll;
  }

  lemma PlacedOverall(o': Output, o: Output, statements: seq<Statement>, s: Statement)
    requires AllPlaced(o'.(sequences := o.sequences), statements) && s.Sequence?
    requires |o'.sequences| == |o.sequences| + 1 && o.sequences <= o'.sequences && EntryPlaced(o', s, o'.sequences[|o.sequences|])
    ensures AllPlaced(o', statements + [s])
  {
    var all := statements + [s];
    assert all[..|all| - 1] == statements;
    var o1 := o'.(sequences := o.sequences);
    forall k | 0 <= k < |o'.sequences| ensures EntryPlaced(o', SequencesOf(all)[k], o'.sequences[k]) {
      if k < |o.sequences| {
        assert EntryPlaced(o1, SequencesOf(statements)[k], o.sequences[k]);
        PlacedGrows(o1, o', SequencesOf(statements)[k].members, o.sequences[k].indices);
      }
    }
  }

  lemma {:induction false} StatementsPlaced(known: Modules, versions: map<string, nat>, start: Checker.Progress, file: nat, statements: seq<Statement>)
    requires start.ok && InStep(known, start.env, ProgramProgress(versions, start.statements).out)
    requires AllPlaced(ProgramProgress(versions, start.statements).out, start.statements)
    requires ProperStatements(known, start, file, statements)
    requires var c := CheckStatements(known, start, file, statements); var q := ProgramProgress(versions, c.statements);
             c.ok && (forall s <- c.statements :: Clean(s)) && Fits(q.out) && q.error == 0 && OwnNames(q.out)
    ensures var c := CheckStatements(known, start, file, statements); AllPlaced(ProgramProgress(versions, c.statements).out, c.statements)
    decreases |statements|
  {
    hide InStep, AllPlaced, OwnNames, CheckStatement, StatementProgress, ProperStatement, Fits, Clean;
    if statements != [] {
      var last := |statements| - 1;
      var before := CheckStatements(known, start, file, statements[..last]);
      var c := CheckStatements(known, start, file, statements);
      AddsOne(known, before, file, statements[last]);
      PrefixFits(known, versions, before.statements, c.statements);
      StatementsInStep(known, versions, start, file, statements[..last], ProgramProgress(versions, start.statements).out);
      PrefixOwnNames(known, versions, before, c.statements);
      StatementsPlaced(known, versions, start, file, statements[..last]);
      assert c.statements[..|c.statements| - 1] == before.statements;
      StatementKeepsPlaced(known, versions, before, file, statements[last], ProgramProgress(versions, before.statements).out);
    }
  }

  /** What holds of a program's size, strings and errors holds of its first statements. */
  lemma PrefixFits(known: Modules, versions: map<string, nat>, before: seq<Statement>, all: seq<Statement>)
    requires before <= all && (forall s <- all :: Clean(s))
    requires var q := ProgramProgress(versions, all); Fits(q.out) && q.error == 0
    ensures (forall s <- before :: Clean(s))
    ensures var q := ProgramProgress(versions, before); Fits(q.out) && q.error == 0
  {
    hide StatementProgress, Fits, Clean;
    assert all[..|before|] == before;
    forall s <- before ensures Clean(s) {
      assert s in all;
    }
    ProgramGrows(versions, all, |before|);
    GrowsFits(ProgramProgress(versions, all).out, ProgramProgress(versions, before).out);
  }

  lemma PrefixOwnNames(known: Modules, versions: map<string, nat>, before: Checker.Progress, all: seq<Statement>)
    requires before.statements <= all && InStep(known, before.env, ProgramProgress(versions, before.statements).out)
    requires OwnNames(ProgramProgress(versions, all).out)
    ensures OwnNames(ProgramProgress(versions, before.statements).out)
  {
    hide StatementProgress, UniqueNames, InStep;
    assert all[..|before.statements|] == before.statements;
    ProgramGrows(versions, all, |before.statements|);
    InStepSizes(known, before.env, ProgramProgress(versions, before.statements).out);
    OwnNamesBefore(ProgramProgress(versions, before.statements).out, ProgramProgress(versions, all).out);
  }

  /**
   * In an accepted and compiled program with unique names the sequence table has one entry for every
   * sequence, in order, with its span and the rules of its members.
   */
  lemma {:induction false} SequencesPlaced(known: Modules, versions: map<string, nat>, files: seq<seq<Statement>>)
    requires ProperFiles(known, files)
    requires var c := CheckFiles(known, files); var q := ProgramProgress(versions, c.statements);
             c.ok && (forall s <- c.statements :: Clean(s)) && Fits(q.out) && q.error == 0 && OwnNames(q.out)
    ensures var c := CheckFiles(known, files); AllPlaced(ProgramProgress(versions, c.statements).out, c.statements)
    decreases |files|
  {
    hide InStep, AllPlaced, OwnNames, CheckStatements, StatementProgress, ProperStatements, Fits, Clean;
    if files == [] {
      NothingPlaced();
    } else {
      var last := |files| - 1;
      var before := CheckFiles(known, files[..last]).(privates := {});
      var c := CheckStatements(known, before, last, files[last]);
      StatementsAccumulate(known, before, last, files[last]);
      PrefixFits(known, versions, before.statements, c.statements);
      FilesInStep(known, versions, files[..last]);
      PrefixOwnNames(known, versions, before, c.statements);
      SequencesPlaced(known, versions, files[..last]);
      StatementsPlaced(known, versions, before, last, files[last]);
    }
  }

  lemma NothingPlaced()
    ensures AllPlaced(EMPTY, [])
  {
  }

  /** In a program of one accepted file the names are unique, so its sequence table is placed without more ado. */
  lemma SingleFilePlaced(known: Modules, versions: map<string, nat>, statements: seq<Statement>)
    requires ProperFiles(known, [statements])
    requires var c := CheckFiles(known, [statements]); var q := ProgramProgress(versions, c.statements);
             c.ok && (forall s <- c.statements :: Clean(s)) && Fits(q.out) && q.error == 0
    ensures var c := CheckFiles(known, [statements]); AllPlaced(ProgramProgress(versions, c.statements).out, c.statements)
  {
    hide CheckFiles, ProgramProgress, Fits, Clean, ProperFiles, AllPlaced, UniqueNames;
    SingleFileUnique(known, versions, statements);
    SequencesPlaced(known, versions, [statements]);
  }
}
