/**
 * Which rules an event runs.  A rule is given the ordinal of the first imported module whose name its event
 * starts with, and an event runs the rules of every module whose name starts with the event's type: that a
 * rule is run on exactly the events it is declared for holds exactly where no module's name starts another's.
 */
module Dispatch {
  import opened Words
  import opened Wrappers
  import opened CStrings
  import opened Ast
  import opened Checker
  import opened Arena
  import opened Compiler
  import opened Linking
  import opened Program
  import Emitter
  import E = Events

  // ---------- names that start others ----------

  /** No name of the table starts another. */
  predicate PrefixFree(names: seq<string>) {
    forall a, b :: 0 <= a < |names| && 0 <= b < |names| && a != b ==> !HasPrefix(names[a], names[b])
  }

  /** Module `k` is the first whose name `event` starts with. */
  predicate FirstOf(names: seq<string>, event: string, k: nat) {
    k < |names| && HasPrefix(event, names[k]) && forall h :: 0 <= h < k ==> !HasPrefix(event, names[h])
  }

  lemma {:induction false} FirstExists(names: seq<string>, event: string, a: nat) returns (k: nat)
    requires a < |names| && HasPrefix(event, names[a])
    ensures k <= a && FirstOf(names, event, k)
    decreases a
  {
    k := a;
    if h: nat :| h < a && HasPrefix(event, names[h]) {
      k := FirstExists(names, event, h);
    }
  }

  /** A rule declared for module `a` is run on an event of module `b`. */
  predicate RunOn(names: seq<string>, a: nat, b: nat)
    requires a < |names| && b < |names|
  {
    exists k :: 0 <= k < |names| && FirstOf(names, names[a], k) && HasPrefix(names[k], names[b])
  }

  /** Rules are run on their own events, and on no others, exactly if no name starts another. */
  lemma DispatchExactly(names: seq<string>)
    ensures (forall a, b :: 0 <= a < |names| && 0 <= b < |names| ==> (RunOn(names, a, b) <==> a == b)) <==> PrefixFree(names)
  {
    if PrefixFree(names) {
      forall a, b | 0 <= a < |names| && 0 <= b < |names| ensures RunOn(names, a, b) <==> a == b {
        assert FirstOf(names, names[a], a);
      }
    }
    if forall a, b :: 0 <= a < |names| && 0 <= b < |names| ==> (RunOn(names, a, b) <==> a == b) {
      forall i, j | 0 <= i < |names| && 0 <= j < |names| && i != j ensures !HasPrefix(names[i], names[j]) {
        if HasPrefix(names[i], names[j]) {
          StartsMisdirect(names, i, j);
        }
      }
    }
  }

  /** If the name of module `j` starts that of `i`, some rule is run on a foreign event or not on its own. */
  lemma StartsMisdirect(names: seq<string>, i: nat, j: nat)
    requires i < |names| && j < |names| && i != j && HasPrefix(names[i], names[j])
    ensures exists a, b :: 0 <= a < |names| && 0 <= b < |names| && (RunOn(names, a, b) != (a == b))
  {
    var k := FirstExists(names, names[i], j);
    if k == i {
      assert RunOn(names, i, j);
    } else if HasPrefix(names[k], names[i]) {
      assert names[k] == names[i];
      assert RunOn(names, i, k);
    } else {
      OnlyFirst(names, names[i], k);
      assert !RunOn(names, i, i);
    }
  }

  lemma OnlyFirst(names: seq<string>, event: string, k: nat)
    requires FirstOf(names, event, k)
    ensures forall h :: FirstOf(names, event, h) ==> h == k
  {
  }

  // ---------- the tables ----------

  /** The names of the imported modules, in order. */
  function NamesOf(o: Output): (r: seq<string>)
    ensures |r| == |o.modules|
  {
    seq(|o.modules|, k requires 0 <= k < |o.modules| => NameAt(o.strings, o.modules[k].nameOffset))
  }

  /** Module `k` has its name interned, the length of its name and the ordinal `k + 1`. */
  ghost predicate ModuleNamed(o: Output, k: nat) {
    && k < |o.modules| && o.modules[k].ordinal == k + 1
    && var name := NamesOf(o)[k];
       name in o.strings.offsets && o.strings.offsets[name] == o.modules[k].nameOffset && o.modules[k].nameLength == |name|
  }

  /** Rule `j` has no event, or the ordinal of the first module that its event starts with. */
  ghost predicate RuleBound(o: Output, j: nat) {
    && j < |o.rules| && j < |o.sources|
    && (o.rules[j].ordinal != 0 ==>
          o.sources[j].event.Some? && exists k: nat :: FirstOf(NamesOf(o), o.sources[j].event.value, k) && o.rules[j].ordinal == k + 1)
  }

  ghost predicate Dispatched(o: Output) {
    Built(o) && (forall k :: 0 <= k < |o.modules| ==> ModuleNamed(o, k)) && (forall j :: 0 <= j < |o.rules| ==> RuleBound(o, j))
  }

  /** More strings and more modules change neither the names nor the ordinals. */
  lemma NamesStay(o: Output, o': Output)
    requires ValidTable(o.strings) && ValidTable(o'.strings) && Extends(o'.strings, o.strings) && o.modules <= o'.modules
    requires forall k :: 0 <= k < |o.modules| ==> ModuleNamed(o, k)
    ensures NamesOf(o) <= NamesOf(o') && forall k :: 0 <= k < |o.modules| ==> ModuleNamed(o', k)
  {
    hide ValidTable, GetString;
    forall k | 0 <= k < |o.modules| ensures NamesOf(o')[k] == NamesOf(o)[k] && ModuleNamed(o', k) {
      assert ModuleNamed(o, k);
      GetInterned(o'.strings, NamesOf(o)[k]);
    }
  }

  lemma BoundStays(o: Output, o': Output, j: nat)
    requires RuleBound(o, j) && NamesOf(o) <= NamesOf(o') && o.rules <= o'.rules && o.sources <= o'.sources
    ensures RuleBound(o', j)
  {
    if o.rules[j].ordinal != 0 {
      var k: nat :| FirstOf(NamesOf(o), o.sources[j].event.value, k) && o.rules[j].ordinal == k + 1;
      assert FirstOf(NamesOf(o'), o'.sources[j].event.value, k);
    }
  }

  lemma DispatchedStays(o: Output, o': Output)
    requires Dispatched(o) && Built(o') && Extends(o'.strings, o.strings)
    requires o'.modules == o.modules && o'.rules == o.rules && o'.sources == o.sources
    ensures Dispatched(o') && NamesOf(o') == NamesOf(o)
  {
    hide RuleBuilt, ModuleNamed, RuleBound, Extends, HasOrigin;
    NamesStay(o, o');
    forall j | 0 <= j < |o.rules| ensures RuleBound(o', j) {
      BoundStays(o, o', j);
    }
  }

  /** Searching the module table for an event's name finds the first name that the event starts with. */
  lemma OrdinalNames(o: Output, event: string)
    requires ValidTable(o.strings) && forall k :: 0 <= k < |o.modules| ==> ModuleNamed(o, k)
    ensures var r := FindOrdinal(o.modules, o.strings, event, 0);
            && (r.None? <==> forall k :: 0 <= k < |o.modules| ==> !HasPrefix(event, NamesOf(o)[k]))
            && (r.Some? ==> exists k: nat :: FirstOf(NamesOf(o), event, k) && r.value == k + 1)
  {
    hide FindOrdinal, ValidTable;
    forall k | 0 <= k < |o.modules| ensures Prefixes(o.strings, o.modules[k], event) <==> HasPrefix(event, NamesOf(o)[k]) {
      assert ModuleNamed(o, k);
      GetInterned(o.strings, NamesOf(o)[k]);
      PrefixMeans(o.strings, o.modules[k], event);
    }
    var r := FindOrdinal(o.modules, o.strings, event, 0);
    if r.Some? {
      var k: nat :| FirstPrefix(o.modules, o.strings, event, 0, k) && o.modules[k].ordinal == r.value;
      assert ModuleNamed(o, k);
      assert FirstOf(NamesOf(o), event, k);
    }
  }

  lemma RuleDispatched(versions: map<string, nat>, o: Output, name: Option<string>, event: Option<string>, body: Expr, isPrivate: bool)
    requires Dispatched(o) && (name.Some? ==> NulFree(name.value)) && (name.None? ==> o.strings.data != "") && CleanBody(body)
    requires Fits(RuleProgress(versions, o, name, event, body, isPrivate).out)
    ensures var o' := RuleProgress(versions, o, name, event, body, isPrivate).out;
            Dispatched(o') && o'.strings.data != "" && NamesOf(o') == NamesOf(o) && Extends(o'.strings, o.strings)
  {
    hide Built, ValidTable, ModuleNamed, RuleBound, FindOrdinal, Linking.HasOrigin, InternAll, Emitter.Mentions;
    var p := RuleProgress(versions, o, name, event, body, isPrivate);
    RuleProgressBuilt(versions, o, name, event, body, isPrivate);
    RuleGrows(versions, o, name, event, body, isPrivate);
    var named := NameRule(o, name);
    if name.Some? {
      NamedBuilt(o, name.value);
    }
    DispatchedStays(o, named);
    if p.error == 0 {
      RuleExtends(named, body, p.out.strings);
      RuleAdded(versions, o, name, event, body, isPrivate);
    }
  }

  lemma RuleExtends(o: Output, body: Expr, t: StringTable)
    requires Built(o) && CleanBody(body) && t == InternAll(o.strings, Emitter.Mentions(body)) && |t.data| < WORD_LIMIT
    ensures Extends(t, o.strings)
  {
    InternAllKeeps(o.strings, Emitter.Mentions(body));
  }

  lemma RuleAdded(versions: map<string, nat>, o: Output, name: Option<string>, event: Option<string>, body: Expr, isPrivate: bool)
    requires var p := RuleProgress(versions, o, name, event, body, isPrivate);
             p.error == 0 && Built(p.out) && Extends(p.out.strings, NameRule(o, name).strings)
    requires Dispatched(NameRule(o, name))
    ensures var o' := RuleProgress(versions, o, name, event, body, isPrivate).out; Dispatched(o') && NamesOf(o') == NamesOf(NameRule(o, name))
  {
    hide RuleBuilt, ModuleNamed, RuleBound, FindOrdinal, HasOrigin, InternAll, Emitter.Mentions, Extends, NameAt;
    var named, o' := NameRule(o, name), RuleProgress(versions, o, name, event, body, isPrivate).out;
    NamesStay(named, o');
    var j := |named.rules|;
    forall i | 0 <= i <= j ensures RuleBound(o', i) {
      if i < j {
        BoundStays(named, o', i);
      } else {
        NewRuleBound(versions, o, name, event, body, isPrivate);
      }
    }
  }

  lemma NewRuleBound(versions: map<string, nat>, o: Output, name: Option<string>, event: Option<string>, body: Expr, isPrivate: bool)
    requires RuleProgress(versions, o, name, event, body, isPrivate).error == 0
    requires Dispatched(NameRule(o, name))
    requires NamesOf(RuleProgress(versions, o, name, event, body, isPrivate).out) == NamesOf(NameRule(o, name))
    ensures RuleBound(RuleProgress(versions, o, name, event, body, isPrivate).out, |o.rules|)
  {
    hide RuleBuilt, ModuleNamed, FindOrdinal, HasOrigin, InternAll, Emitter.Mentions, NameAt, NamesOf;
    if event.Some? {
      OrdinalNames(NameRule(o, name), event.value);
    }
  }

  // ---------- any program ----------

  lemma ImportDispatched(versions: map<string, nat>, o: Output, name: string)
    requires Dispatched(o) && NulFree(name) && Fits(ImportProgress(versions, o, name).out)
    ensures var o' := ImportProgress(versions, o, name).out;
            && Dispatched(o') && Extends(o'.strings, o.strings) && name in o'.strings.offsets
            && NamesOf(o') == if name !in o.strings.offsets && name in versions then NamesOf(o) + [name] else NamesOf(o)
  {
    hide RuleBuilt, ValidTable, HasOrigin, ModuleNamed, RuleBound, GetString, FirstOf;
    ImportBuilt(versions, o, name);
    var o' := ImportProgress(versions, o, name).out;
    if name !in o.strings.offsets {
      NamedBuilt(o, name);
      NamesStay(o, o');
      if name in versions {
        GetInterned(o'.strings, name);
        assert NamesOf(o')[|o.modules|] == name;
        LastModuleNamed(o');
      }
      forall j | 0 <= j < |o.rules| ensures RuleBound(o', j) {
        BoundStays(o, o', j);
      }
    }
  }

  lemma LastModuleNamed(o: Output)
    requires o.modules != []
    requires var k := |o.modules| - 1; var m := o.modules[k]; var name := NamesOf(o)[k];
             m.ordinal == k + 1 && name in o.strings.offsets && o.strings.offsets[name] == m.nameOffset && m.nameLength == |name|
    ensures ModuleNamed(o, |o.modules| - 1)
  {
  }

  lemma {:induction false} MembersDispatched(versions: map<string, nat>, o: Output, members: seq<Member>)
    requires Dispatched(o) && o.strings.data != "" && (forall m <- members :: CleanMember(m)) && Fits(MembersProgress(versions, o, members).out)
    ensures var o' := MembersProgress(versions, o, members).out;
            Dispatched(o') && o'.strings.data != "" && NamesOf(o') == NamesOf(o) && Extends(o'.strings, o.strings)
    decreases |members|
  {
    hide Dispatched, RuleProgress, NamesOf;
    if members != [] {
      var last := |members| - 1;
      MembersGrow(versions, o, members, last);
      assert CleanMember(members[last]);
      MembersDispatched(versions, o, members[..last]);
      var g := MembersProgress(versions, o, members[..last]);
      if members[last].Anonymous? {
        RuleDispatched(versions, g.out, None, members[last].event, members[last].body, true);
      }
    }
  }

  lemma StatementDispatched(versions: map<string, nat>, o: Output, s: Statement)
    requires Dispatched(o) && Clean(s) && Fits(StatementProgress(versions, o, s).out)
    ensures var o' := StatementProgress(versions, o, s).out; Dispatched(o') && Extends(o'.strings, o.strings)
    ensures !s.Import? ==> NamesOf(StatementProgress(versions, o, s).out) == NamesOf(o)
  {
    hide Built, ModuleNamed, RuleBound, RuleProgress, MembersProgress, ImportProgress;
    match s
    case Import(name) => ImportDispatched(versions, o, name);
    case Declare(name, event, body, isPrivate) => RuleDispatched(versions, o, Some(name), event, body, isPrivate);
    case Sequence(name, maxSpan, members) =>
      var named := NameRule(o, Some(name));
      MembersGrow(versions, named, members, 0);
      MembersNone(versions, named, members);
      NamedBuilt(o, name);
      DispatchedStays(o, named);
      MembersDispatched(versions, named, members);
      var g, o' := MembersProgress(versions, named, members).out, StatementProgress(versions, o, s).out;
      SequenceEntryKeeps(g, o');
      DispatchedStays(g, o');
  }

  /** After any statements, failed ones included, every rule is bound to the first module that its event starts with. */
  lemma {:induction false} ProgramDispatched(versions: map<string, nat>, statements: seq<Statement>)
    requires (forall s <- statements :: Clean(s)) && Fits(ProgramProgress(versions, statements).out)
    ensures Dispatched(ProgramProgress(versions, statements).out)
    decreases |statements|
  {
    hide StatementProgress, ModuleNamed, RuleBound;
    if statements != [] {
      var last := |statements| - 1;
      ProgramGrows(versions, statements, last);
      assert Clean(statements[last]);
      ProgramDispatched(versions, statements[..last]);
      StatementDispatched(versions, ProgramProgress(versions, statements[..last]).out, statements[last]);
    }
  }

  // ---------- events ----------

  /** The event names the modules as the program imported them. */
  predicate NamesModules(o: Output, e: E.Event) {
    && (forall k :: 0 <= k < |o.modules| ==> k + 1 in e.names && e.names[k + 1] == NamesOf(o)[k])
    && e.length == |e.eventType|
  }

  /** Exactly when a rule is run: the event's type starts the name of the first module that the rule's event starts with. */
  lemma DueExactly(o: Output, j: nat, e: E.Event) returns (k: nat)
    requires Dispatched(o) && j < |o.rules| && o.rules[j].ordinal != 0 && NamesModules(o, e)
    ensures |o.rules| == |o.sources| && o.sources[j].event.Some? && FirstOf(NamesOf(o), o.sources[j].event.value, k)
    ensures E.Due(o.rules[j], e) <==> HasPrefix(NamesOf(o)[k], e.eventType)
  {
    hide RuleBuilt, ModuleNamed;
    assert RuleBound(o, j);
    k :| FirstOf(NamesOf(o), o.sources[j].event.value, k) && o.rules[j].ordinal == k + 1;
  }

  /** Where no imported name starts another, a rule is run exactly on the events of the module it is declared for. */
  lemma DueOnItsEvents(o: Output, j: nat, e: E.Event)
    requires Dispatched(o) && j < |o.rules| && o.rules[j].ordinal != 0 && NamesModules(o, e) && PrefixFree(NamesOf(o))
    requires |o.rules| == |o.sources| && o.sources[j].event.Some? && o.sources[j].event.value in NamesOf(o) && e.eventType in NamesOf(o)
    ensures E.Due(o.rules[j], e) <==> o.sources[j].event == Some(e.eventType)
  {
    hide Dispatched, E.Due;
    var k := DueExactly(o, j, e);
    var a: nat :| a < |o.modules| && NamesOf(o)[a] == o.sources[j].event.value;
    var b: nat :| b < |o.modules| && NamesOf(o)[b] == e.eventType;
    assert k == a;
  }

  /** Of `fil` and `file` the later import misdirects: a rule for `file` is bound to `fil`, or run on events of `fil`. */
  lemma ShortNameMisdirects()
    ensures RunOn(["file", "fil"], 0, 1) && RunOn(["fil", "file"], 1, 0) && !RunOn(["fil", "file"], 1, 1)
  {
    assert "file"[..3] == "fil";
    assert FirstOf(["file", "fil"], "file", 0);
    assert FirstOf(["fil", "file"], "file", 0);
    OnlyFirst(["fil", "file"], "file", 0);
  }

  // ---------- the module of an event is in scope ----------

  /** Every name in scope is interned, and every imported module is in scope under its own name. */
  ghost predicate Imported(env: Environment, o: Output) {
    env.Keys <= o.strings.offsets.Keys && forall n <- NamesOf(o) :: n in env && env[n] == OtherName
  }

  lemma ImportedGrows(env: Environment, env': Environment, name: string, o: Output, o': Output)
    requires Imported(env, o) && Extends(o'.strings, o.strings) && NamesOf(o') == NamesOf(o)
    requires env' - {name} == env - {name} && name !in env && name in o'.strings.offsets
    ensures Imported(env', o')
  {
    forall n <- NamesOf(o') ensures n in env' && env'[n] == OtherName {
      assert n in env - {name};
      assert (env' - {name})[n] == (env - {name})[n];
    }
    forall n <- env' ensures n in o'.strings.offsets {
      if n != name {
        assert n in env' - {name};
      }
    }
  }

  lemma StatementImported(known: Modules, versions: map<string, nat>, p: Checker.Progress, file: nat, s: Statement, o: Output)
    requires Dispatched(o) && Imported(p.env, o)
    requires var c := CheckStatement(known, p, file, s); var s' := c.statements[|c.statements| - 1];
             c.ok && Clean(s') && Fits(StatementProgress(versions, o, s').out)
    ensures var c := CheckStatement(known, p, file, s); Imported(c.env, StatementProgress(versions, o, c.statements[|c.statements| - 1]).out)
  {
    hide Dispatched, CheckBody, CheckMembers, RuleProgress, MembersProgress, ImportProgress, NamesOf, Imported, Fits, Extends;
    var c := CheckStatement(known, p, file, s);
    var s' := c.statements[|c.statements| - 1];
    var o' := StatementProgress(versions, o, s').out;
    StatementDispatched(versions, o, s');
    match s
    case Import(name) =>
      ImportDispatched(versions, o, name);
      ImportImported(p.env, c.env, name, o, o');
    case Declare(name, event, body, isPrivate) =>
      NameInterned(versions, o, s', name);
      assert c.env - {name} == p.env - {name};
      ImportedGrows(p.env, c.env, name, o, o');
    case Sequence(name, maxSpan, members) =>
      NameInterned(versions, o, s', name);
      assert c.env - {name} == p.env - {name};
      ImportedGrows(p.env, c.env, name, o, o');
  }

  lemma ImportImported(env: Environment, env': Environment, name: string, o: Output, o': Output)
    requires Imported(env, o) && Extends(o'.strings, o.strings) && name in o'.strings.offsets
    requires env' == if name in env then env else env[name := OtherName]
    requires NamesOf(o') == NamesOf(o) || (name !in o.strings.offsets && NamesOf(o') == NamesOf(o) + [name])
    ensures Imported(env', o')
  {
    hide NamesOf;
  }

  /** A declared name is interned before anything else. */
  lemma NameInterned(versions: map<string, nat>, o: Output, s: Statement, name: string)
    requires Dispatched(o) && Clean(s) && Fits(StatementProgress(versions, o, s).out)
    requires (s.Declare? && s.ruleName == name) || (s.Sequence? && s.seqName == name)
    ensures name in StatementProgress(versions, o, s).out.strings.offsets
  {
    hide ModuleNamed, RuleBound, RuleProgress, MembersProgress, HasOrigin, ValidTable, RuleBuilt, NamesOf;
    var named := NameRule(o, Some(name));
    match s
    case Declare(_, event, body, isPrivate) =>
      RuleGrows(versions, o, Some(name), event, body, isPrivate);
      NamedBuilt(o, name);
      DispatchedStays(o, named);
      DeclaredInterned(versions, o, name, event, body, isPrivate);
    case Sequence(_, _, members) =>
      MembersGrow(versions, named, members, 0);
      MembersNone(versions, named, members);
      NamedBuilt(o, name);
      DispatchedStays(o, named);
      MembersDispatched(versions, named, members);
  }

  lemma DeclaredInterned(versions: map<string, nat>, o: Output, name: string, event: Option<string>, body: Expr, isPrivate: bool)
    requires Built(NameRule(o, Some(name))) && CleanBody(body) && name in NameRule(o, Some(name)).strings.offsets
    requires Fits(RuleProgress(versions, o, Some(name), event, body, isPrivate).out)
    ensures name in RuleProgress(versions, o, Some(name), event, body, isPrivate).out.strings.offsets
  {
    hide Built, InternAll, Emitter.Mentions, CleanBody;
    var p := RuleProgress(versions, o, Some(name), event, body, isPrivate);
    if p.error == 0 {
      RuleExtends(NameRule(o, Some(name)), body, p.out.strings);
    }
  }

  lemma {:induction false} StatementsImported(known: Modules, versions: map<string, nat>, start: Checker.Progress, file: nat, statements: seq<Statement>)
    requires Dispatched(ProgramProgress(versions, start.statements).out) && Imported(start.env, ProgramProgress(versions, start.statements).out)
    requires var c := CheckStatements(known, start, file, statements);
             c.ok && (forall s <- c.statements :: Clean(s)) && Fits(ProgramProgress(versions, c.statements).out)
    ensures var c := CheckStatements(known, start, file, statements); Imported(c.env, ProgramProgress(versions, c.statements).out)
    decreases |statements|
  {
    hide Dispatched, Imported, CheckStatement, StatementProgress, Fits, Clean;
    if statements != [] {
      var last := |statements| - 1;
      var before := CheckStatements(known, start, file, statements[..last]);
      var c := CheckStatements(known, start, file, statements);
      AddsOne(known, before, file, statements[last]);
      var n := |before.statements|;
      assert c.statements[..n] == before.statements;
      forall s <- before.statements ensures Clean(s) {
        assert s in c.statements;
      }
      ProgramGrows(versions, c.statements, n);
      GrowsFits(ProgramProgress(versions, c.statements).out, ProgramProgress(versions, before.statements).out);
      ProgramDispatched(versions, before.statements);
      StatementsImported(known, versions, start, file, statements[..last]);
      assert Clean(c.statements[n]);
      StatementImported(known, versions, before, file, statements[last], ProgramProgress(versions, before.statements).out);
    }
  }

  /** At every point of an accepted program, in every file, every imported module is in scope under its own name. */
  lemma {:induction false} FilesImported(known: Modules, versions: map<string, nat>, files: seq<seq<Statement>>)
    requires var c := CheckFiles(known, files); c.ok && (forall s <- c.statements :: Clean(s)) && Fits(ProgramProgress(versions, c.statements).out)
    ensures var c := CheckFiles(known, files); Imported(c.env, ProgramProgress(versions, c.statements).out)
    decreases |files|
  {
    hide Dispatched, Imported, CheckStatements, StatementProgress, Fits, Clean;
    if files == [] {
      NothingImported();
    } else {
      var last := |files| - 1;
      var before := CheckFiles(known, files[..last]).(privates := {});
      var c := CheckStatements(known, before, last, files[last]);
      StatementsAccumulate(known, before, last, files[last]);
      var n := |before.statements|;
      assert c.statements[..n] == before.statements;
      forall s <- before.statements ensures Clean(s) {
        assert s in c.statements;
      }
      ProgramGrows(versions, c.statements, n);
      GrowsFits(ProgramProgress(versions, c.statements).out, ProgramProgress(versions, before.statements).out);
      FilesImported(known, versions, files[..last]);
      ProgramDispatched(versions, before.statements);
      StatementsImported(known, versions, before, last, files[last]);
      PrivatesAreRules(known, before, last, files[last]);
      ImportedKept(c.env, c.privates, ProgramProgress(versions, c.statements).out);
    }
  }

  lemma NothingImported()
    ensures Imported(NO_NAMES, EMPTY)
  {
  }

  lemma ImportedKept(env: Environment, privates: set<string>, o: Output)
    requires Imported(env, o) && RuleNames(env, privates)
    ensures Imported(env - privates, o)
  {
  }

  /**
   * So the event of a rule that compiles has its module in scope under its own name, unless an imported name
   * properly starts the event's.
   */
  lemma EventInScope(env: Environment, o: Output, name: Option<string>, event: string)
    requires Dispatched(NameRule(o, name)) && Imported(env, o) && NamesOf(NameRule(o, name)) == NamesOf(o)
    requires EventOrdinal(NameRule(o, name), Some(event)).Some?
    requires forall n <- NamesOf(o) :: HasPrefix(event, n) ==> n == event
    ensures event in env && env[event] == OtherName
  {
    hide RuleBuilt, ModuleNamed, NamesOf, FindOrdinal;
    OrdinalNames(NameRule(o, name), event);
  }
}
