/**
 * The rule table of a compiled program, entry by entry, against its statements: declared rules and those
 * written in place, in the order of the text, with the flags they were declared with; and which of them an
 * event reports.
 */
module RuleTable {
  import opened Wrappers
  import opened CStrings
  import opened Ast
  import opened Machine
  import opened Compiler
  import opened Linking
  import opened Program
  import E = Events
  import S = Sequences

  /** What the text says of a rule; one that is written in place in a sequence has no name. */
  datatype Written = Written(name: Option<string>, event: Option<string>, body: Expr, isPrivate: bool)

  function InPlace(members: seq<Member>): seq<Written> {
    if members == [] then []
    else
      var m := members[|members| - 1];
      InPlace(members[..|members| - 1]) + if m.Anonymous? then [Written(None, m.event, m.body, true)] else []
  }

  function RulesOf(s: Statement): seq<Written> {
    match s
    case Import(_) => []
    case Declare(name, event, body, isPrivate) => [Written(Some(name), event, body, isPrivate)]
    case Sequence(_, _, members) => InPlace(members)
  }

  /** The rules of a program in the order of the text. */
  function AllRules(statements: seq<Statement>): seq<Written> {
    if statements == [] then [] else AllRules(statements[..|statements| - 1]) + RulesOf(statements[|statements| - 1])
  }

  /** The entry and its source say what the text says. */
  predicate Records(entry: RuleEntry, source: Rule, r: Written) {
    && entry.isPrivate == r.isPrivate && (entry.inSequence <==> r.name == None)
    && source.body == r.body
    && (r.name.Some? ==> source.ruleName == r.name.value)
    && (if r.event.Some? then entry.ordinal != 0 && source.event == r.event else entry.ordinal == 0)
  }

  /** The tables hold the rules, one entry each, in order. */
  predicate Lists(o: Output, rs: seq<Written>) {
    && |o.rules| == |o.sources| == |rs|
    && forall j :: 0 <= j < |rs| ==> Records(o.rules[j], o.sources[j], rs[j])
  }

  ghost predicate Sane(o: Output) {
    Built(o) && forall m <- o.modules :: m.ordinal != 0
  }

  lemma RuleListed(versions: map<string, nat>, o: Output, rs: seq<Written>, r: Written)
    requires Sane(o) && Lists(o, rs)
    requires (r.name.Some? ==> NulFree(r.name.value)) && (r.name.None? ==> o.strings.data != "") && CleanBody(r.body)
    requires var p := RuleProgress(versions, o, r.name, r.event, r.body, r.isPrivate); Fits(p.out) && p.error == 0
    ensures var o' := RuleProgress(versions, o, r.name, r.event, r.body, r.isPrivate).out;
            Sane(o') && Lists(o', rs + [r]) && o'.strings.data != ""
  {
    hide Built, Fits, CleanBody;
    AddedRule(versions, o, r.name, r.event, r.body, r.isPrivate);
    RuleProgressBuilt(versions, o, r.name, r.event, r.body, r.isPrivate);
    EntryFlag(versions, o, r);
    hide RuleProgress;
    var o' := RuleProgress(versions, o, r.name, r.event, r.body, r.isPrivate).out;
    var j := |rs|;
    forall k | 0 <= k <= j ensures Records(o'.rules[k], o'.sources[k], (rs + [r])[k]) {
      if k < j {
        assert o'.rules[k] == o'.rules[..j][k] && o'.sources[k] == o'.sources[..j][k];
      }
    }
  }

  lemma EntryFlag(versions: map<string, nat>, o: Output, r: Written)
    requires RuleProgress(versions, o, r.name, r.event, r.body, r.isPrivate).error == 0
    ensures var o' := RuleProgress(versions, o, r.name, r.event, r.body, r.isPrivate).out;
            |o'.rules| == |o.rules| + 1 && o'.rules[|o.rules|].isPrivate == r.isPrivate
  {
  }

  lemma {:induction false} MembersListed(versions: map<string, nat>, o: Output, members: seq<Member>, rs: seq<Written>)
    requires Sane(o) && Lists(o, rs) && o.strings.data != "" && forall m <- members :: CleanMember(m)
    requires var g := MembersProgress(versions, o, members); Fits(g.out) && g.error == 0
    ensures var g := MembersProgress(versions, o, members);
            Sane(g.out) && Lists(g.out, rs + InPlace(members)) && g.out.strings.data != ""
    decreases |members|
  {
    hide Sane, Lists, Fits, CleanBody, RuleProgress, FindRuleFrom;
    if members == [] {
      assert rs + [] == rs;
    } else {
      var last := |members| - 1;
      var m, most := members[last], InPlace(members[..last]);
      MembersGrow(versions, o, members, last);
      GrowsFits(MembersProgress(versions, o, members).out, MembersProgress(versions, o, members[..last]).out);
      assert CleanMember(m);
      MembersListed(versions, o, members[..last], rs);
      var g := MembersProgress(versions, o, members[..last]);
      if m.Anonymous? {
        RuleListed(versions, g.out, rs + most, Written(None, m.event, m.body, true));
        assert rs + (most + [Written(None, m.event, m.body, true)]) == rs + most + [Written(None, m.event, m.body, true)];
      } else {
        assert rs + (most + []) == rs + most;
      }
    }
  }

  lemma StatementListed(versions: map<string, nat>, o: Output, s: Statement, rs: seq<Written>)
    requires Sane(o) && Lists(o, rs) && Clean(s)
    requires var p := StatementProgress(versions, o, s); Fits(p.out) && p.error == 0
    ensures var p := StatementProgress(versions, o, s); Sane(p.out) && Lists(p.out, rs + RulesOf(s))
  {
    hide Built, Fits, RuleProgress, MembersProgress, CleanBody, Records;
    match s
    case Import(name) =>
      ImportBuilt(versions, o, name);
      assert rs + [] == rs;
    case Declare(name, event, body, isPrivate) => RuleListed(versions, o, rs, Written(Some(name), event, body, isPrivate));
    case Sequence(name, _, members) =>
      var named := NameRule(o, Some(name));
      MembersGrow(versions, named, members, 0);
      MembersNone(versions, named, members);
      var g := MembersProgress(versions, named, members);
      FitsParts(g.out, named, StatementProgress(versions, o, s).out);
      NamedFits(o, name);
      NamedBuilt(o, name);
      MembersListed(versions, named, members, rs);
      SequenceEntryKeeps(g.out, StatementProgress(versions, o, s).out);
  }

  /**
   * A program that compiles without an error has one entry for every rule of its text, in order, with the
   * rule's name, body, event and flags.
   */
  lemma {:induction false} ProgramListed(versions: map<string, nat>, statements: seq<Statement>)
    requires forall s <- statements :: Clean(s)
    requires var p := ProgramProgress(versions, statements); Fits(p.out) && p.error == 0
    ensures var o := ProgramProgress(versions, statements).out; Sane(o) && Lists(o, AllRules(statements))
    decreases |statements|
  {
    hide Sane, Lists, Fits, Clean, StatementProgress;
    if statements == [] {
      EmptySane();
    } else {
      var last := |statements| - 1;
      ProgramGrows(versions, statements, last);
      var before := ProgramProgress(versions, statements[..last]);
      GrowsFits(ProgramProgress(versions, statements).out, before.out);
      ProgramListed(versions, statements[..last]);
      assert Clean(statements[last]);
      StatementListed(versions, before.out, statements[last], AllRules(statements[..last]));
    }
  }

  lemma EmptySane()
    ensures Sane(EMPTY) && Lists(EMPTY, [])
  {
    ProgramBuiltEmpty();
  }

  lemma ProgramBuiltEmpty()
    ensures Built(EMPTY)
  {
    ProgramBuilt(map[], []);
    assert ProgramProgress(map[], []).out == EMPTY;
  }

  // ---------- the module table ----------

  /** Entry `k` is that of an import in the text, with the number `k + 1` and the version of the module. */
  predicate ImportedBy(versions: map<string, nat>, m: ModuleEntry, k: nat, s: Statement) {
    && s.Import? && s.moduleName in versions
    && m.ordinal == k + 1 && m.version == versions[s.moduleName] && m.nameLength == |s.moduleName|
  }

  predicate Imported(versions: map<string, nat>, m: ModuleEntry, k: nat, statements: seq<Statement>) {
    exists i :: 0 <= i < |statements| && ImportedBy(versions, m, k, statements[i])
  }

  lemma ImportedLater(versions: map<string, nat>, m: ModuleEntry, k: nat, statements: seq<Statement>, s: Statement)
    requires Imported(versions, m, k, statements) || ImportedBy(versions, m, k, s)
    ensures Imported(versions, m, k, statements + [s])
  {
    if Imported(versions, m, k, statements) {
      var i :| 0 <= i < |statements| && ImportedBy(versions, m, k, statements[i]);
      assert ImportedBy(versions, m, k, (statements + [s])[i]);
    } else {
      assert ImportedBy(versions, m, k, (statements + [s])[|statements|]);
    }
  }

  lemma {:induction false} MembersKeepModules(versions: map<string, nat>, o: Output, members: seq<Member>)
    ensures MembersProgress(versions, o, members).out.modules == o.modules
    decreases |members|
  {
    hide FindRuleFrom;
    if members != [] {
      MembersKeepModules(versions, o, members[..|members| - 1]);
    }
  }

  predicate AllImported(versions: map<string, nat>, modules: seq<ModuleEntry>, statements: seq<Statement>) {
    forall k :: 0 <= k < |modules| ==> Imported(versions, modules[k], k, statements)
  }

  /** After any statements, failed ones included, every module in the table was imported. */
  lemma {:induction false} ModulesListed(versions: map<string, nat>, statements: seq<Statement>)
    ensures AllImported(versions, ProgramProgress(versions, statements).out.modules, statements)
    decreases |statements|
  {
    hide StatementProgress, ImportedBy, Imported;
    if statements != [] {
      var last := |statements| - 1;
      var s, o, o' := statements[last], ProgramProgress(versions, statements[..last]).out, ProgramProgress(versions, statements).out;
      ModulesListed(versions, statements[..last]);
      ModuleAdded(versions, o, s);
      assert statements[..last] + [s] == statements;
      forall k | 0 <= k < |o'.modules| ensures Imported(versions, o'.modules[k], k, statements) {
        ImportedLater(versions, o'.modules[k], k, statements[..last], s);
      }
    }
  }

  lemma ModuleAdded(versions: map<string, nat>, o: Output, s: Statement)
    ensures var o' := StatementProgress(versions, o, s).out;
            && |o.modules| <= |o'.modules|
            && forall k :: 0 <= k < |o'.modules| ==> if k < |o.modules| then o'.modules[k] == o.modules[k] else ImportedBy(versions, o'.modules[k], k, s)
  {
    hide MembersProgress;
    if s.Sequence? {
      MembersKeepModules(versions, NameRule(o, Some(s.seqName)), s.members);
    }
  }

  // ---------- what is reported of a program ----------

  /**
   * Of a compiled program an event reports exactly the rules that trigger and were declared with a name and
   * without the word `private`; a rule without an event does not.
   */
  lemma DeclaredReported(versions: map<string, nat>, statements: seq<Statement>, t: E.Setting, before: seq<S.Trigger>, j: nat)
    requires forall s <- statements :: Clean(s)
    requires var p := ProgramProgress(versions, statements); Fits(p.out) && p.error == 0 && t.image.rules == p.out.rules
    requires E.ValidSetting(t) && j < |t.runs|
    ensures j < |AllRules(statements)|
    ensures var r := AllRules(statements)[j];
            (exists sec :: E.RuleReport(j, sec) in E.Reports(t, before, |t.runs|)) <==> E.Triggers(t, j) && r.name.Some? && !r.isPrivate
    ensures AllRules(statements)[j].event == None ==> !E.Triggers(t, j)
  {
    hide Sane, Clean, Fits, ProgramProgress, AllRules, E.Reports;
    ProgramListed(versions, statements);
    E.RulesReported(t, before, |t.runs|, j);
    assert Records(t.image.rules[j], ProgramProgress(versions, statements).out.sources[j], AllRules(statements)[j]);
    var sec := t.e.clock(j).sec;
    assert E.RuleReport(j, sec) in E.Reports(t, before, |t.runs|) <==> E.Triggers(t, j) && !t.image.rules[j].isPrivate && !t.image.rules[j].inSequence;
  }

  lemma {:induction false} RulesPrefix(statements: seq<Statement>, i: nat)
    requires i <= |statements|
    ensures AllRules(statements[..i]) <= AllRules(statements)
    decreases |statements|
  {
    if i == |statements| {
      assert statements[..i] == statements;
    } else {
      var most := statements[..|statements| - 1];
      RulesPrefix(most, i);
      assert most[..i] == statements[..i];
    }
  }

  /** Every declaration is among the rules, with its flag, behind all rules of the statements before it. */
  lemma DeclarationPlace(statements: seq<Statement>, i: nat)
    requires i < |statements| && statements[i].Declare?
    ensures var j := |AllRules(statements[..i])|; var s := statements[i];
            j < |AllRules(statements)| && AllRules(statements)[j] == Written(Some(s.ruleName), s.event, s.body, s.isPrivate)
  {
    RulesPrefix(statements, i + 1);
    var most := statements[..i + 1];
    assert most[..i] == statements[..i];
    assert AllRules(most) == AllRules(statements[..i]) + RulesOf(statements[i]);
    hide AllRules;
  }
}
