/**
 * The compiler driver: statement by statement it fills the module, rule and sequence tables, the
 * code and the data section.  `Progress` functions say what each step makes of them.
 */
module Compiler {
  import opened Words
  import opened Wrappers
  import opened CStrings
  import opened Ast
  import opened Machine
  import opened Codegen
  import opened Arena
  import opened Emitter
  import I = Instructions

  const ERROR_UNSUCCESSFUL: ErrorCode := 1

  datatype ModuleEntry = ModuleEntry(ordinal: nat, version: nat, nameLength: nat, nameOffset: word)

  datatype SequenceEntry = SequenceEntry(maxSpan: word, nameOffset: word, indices: seq<nat>)

  /** Everything the compiler has produced; `sources` repeats the rule table in source form. */
  datatype Output = Output(
    code: seq<byte>,
    strings: StringTable,
    moduleName: Option<string>,
    modules: seq<ModuleEntry>,
    rules: seq<RuleEntry>,
    sequences: seq<SequenceEntry>,
    sources: seq<Rule>)

  const EMPTY := Output([], StringTable("", map[]), None, [], [], [], [])

  /** The output after a step, and the last error, 0 being none. */
  datatype Progress = Progress(out: Output, error: nat)

  /** The members of a sequence compiled so far, with their places in the rule table. */
  datatype Gathered = Gathered(out: Output, error: nat, indices: seq<nat>)

  // ---------- what the steps compute ----------

  /**
   * The ordinal of the first imported module whose name the event's name starts with: only as many
   * characters as the module's name has are compared.
   */
  function FindOrdinal(modules: seq<ModuleEntry>, strings: StringTable, event: string, i: nat): (r: Option<nat>)
    ensures r.None? <==> forall k: nat :: i <= k < |modules| ==> !Prefixes(strings, modules[k], event)
    ensures r.Some? ==> exists k: nat :: FirstPrefix(modules, strings, event, i, k) && modules[k].ordinal == r.value
    decreases |modules| - i
  {
    if i >= |modules| then None
    else if Prefixes(strings, modules[i], event) then
      assert FirstPrefix(modules, strings, event, i, i);
      Some(modules[i].ordinal)
    else
      var r := FindOrdinal(modules, strings, event, i + 1);
      assert forall k: nat :: FirstPrefix(modules, strings, event, i + 1, k) ==> FirstPrefix(modules, strings, event, i, k);
      r
  }

  /** The module's name and the event's agree on as many characters as the entry says. */
  predicate Prefixes(strings: StringTable, m: ModuleEntry, event: string) {
    var s := GetString(strings, m.nameOffset);
    s.Some? && Cut(s.value, m.nameLength) == Cut(event, m.nameLength)
  }

  /** For an entry that has the full length of its name: the event starts with the name. */
  lemma PrefixMeans(strings: StringTable, m: ModuleEntry, event: string)
    requires var s := GetString(strings, m.nameOffset); s.Some? && m.nameLength == |s.value|
    ensures var s := GetString(strings, m.nameOffset).value; Prefixes(strings, m, event) <==> |s| <= |event| && event[..|s|] == s
  {
    var s := GetString(strings, m.nameOffset).value;
    assert s[..|s|] == s;
  }

  /** Entry `k` is the first from `i` on whose name agrees with the event's. */
  predicate FirstPrefix(modules: seq<ModuleEntry>, strings: StringTable, event: string, i: nat, k: nat) {
    i <= k < |modules| && Prefixes(strings, modules[k], event) && forall h :: i <= h < k ==> !Prefixes(strings, modules[h], event)
  }

  /** An import adds a module unless its name has been interned already, whatever for. */
  function ImportProgress(known: map<string, nat>, o: Output, name: string): Progress {
    if name in o.strings.offsets then Progress(o, 0)
    else
      var strings := Intern(o.strings, name);
      if name !in known then Progress(o.(strings := strings), ERROR_MODULE)
      else
        var entry := ModuleEntry(|o.modules| + 1, known[name], |name|, strings.offsets[name]);
        Progress(o.(strings := strings, modules := o.modules + [entry]), 0)
  }

  /** A rule in a sequence has no name: its name offset is 0, where the first string of the program is. */
  function NameRule(o: Output, name: Option<string>): Output {
    if name.Some? then o.(strings := Intern(o.strings, name.value)) else o
  }

  function NameOffset(o: Output, name: Option<string>): word {
    if name.Some? then I.OffsetOf(NameRule(o, name).strings.offsets, name.value) else 0
  }

  function EventOrdinal(o: Output, event: Option<string>): Option<nat> {
    match event
    case Some(e) => FindOrdinal(o.modules, o.strings, e, 0)
    case None => Some(0)
  }

  function RuleProgress(known: map<string, nat>, o: Output, name: Option<string>, event: Option<string>, body: Expr,
                        isPrivate: bool): Progress
  {
    var named := NameRule(o, name);
    var ordinal := EventOrdinal(named, event);
    if ordinal.None? then Progress(named, ERROR_UNSUCCESSFUL)
    else if event.Some? && event.value !in known then Progress(named, ERROR_MODULE)
    else Progress(AddRule(named, event, body, RuleEntry(|o.code|, NameOffset(o, name), ordinal.value, isPrivate, name.None?)), 0)
  }

  /** Emits the body and appends the entry; a rule without an event inherits the emitter's module name. */
  function AddRule(o: Output, event: Option<string>, body: Expr, entry: RuleEntry): Output {
    var mod := if event.Some? then event else o.moduleName;
    var strings := InternAll(o.strings, Mentions(body));
    var listing := RuleCode(body, mod, None, |o.code|);
    o.(code := o.code + I.Assemble(listing, strings.offsets),
       strings := strings,
       moduleName := mod,
       rules := o.rules + [entry],
       sources := o.sources + [Rule(NameAt(strings, entry.nameOffset), mod, body)])
  }

  function NameAt(strings: StringTable, offset: nat): string {
    match GetString(strings, offset) case Some(s) => s case None => ""
  }

  /** One member of a sequence; a reference that is not found leaves index 0 and no error. */
  function MemberProgress(known: map<string, nat>, g: Gathered, m: Member): Gathered {
    match m
    case Reference(name) =>
      var found := FindRuleFrom(g.out.strings, g.out.rules, name, 0);
      g.(indices := g.indices + [if found.Some? then found.value else 0])
    case Anonymous(event, body) =>
      var p := RuleProgress(known, g.out, None, event, body, true);
      Gathered(p.out, if p.error != 0 then p.error else g.error, g.indices + [if p.error == 0 then |g.out.rules| else 0])
  }

  function MembersProgress(known: map<string, nat>, o: Output, members: seq<Member>): (g: Gathered)
    ensures |g.indices| == |members|
  {
    if members == [] then Gathered(o, 0, [])
    else MemberProgress(known, MembersProgress(known, o, members[..|members| - 1]), members[|members| - 1])
  }

  function SequenceProgress(known: map<string, nat>, o: Output, name: string, maxSpan: word, members: seq<Member>): Progress {
    var named := NameRule(o, Some(name));
    var g := MembersProgress(known, named, members);
    Progress(g.out.(sequences := g.out.sequences + [SequenceEntry(maxSpan, NameOffset(o, Some(name)), g.indices)]), g.error)
  }

  function StatementProgress(known: map<string, nat>, o: Output, s: Statement): Progress {
    match s
    case Import(name) => ImportProgress(known, o, name)
    case Declare(name, event, body, isPrivate) => RuleProgress(known, o, Some(name), event, body, isPrivate)
    case Sequence(name, maxSpan, members) => SequenceProgress(known, o, name, maxSpan, members)
  }

  /** All statements in order; compilation goes on after an error, and the last one is returned. */
  function ProgramProgress(known: map<string, nat>, statements: seq<Statement>): Progress {
    if statements == [] then Progress(EMPTY, 0)
    else
      var before := ProgramProgress(known, statements[..|statements| - 1]);
      var p := StatementProgress(known, before.out, statements[|statements| - 1]);
      Progress(p.out, if p.error != 0 then p.error else before.error)
  }

  // ---------- room ----------

  /** Code and data fit 32-bit offsets. */
  predicate Fits(o: Output) {
    |o.code| < WORD_LIMIT && |o.strings.data| < WORD_LIMIT
  }

  /** The strings of C programs hold no NUL character. */
  predicate CleanBody(body: Expr) {
    forall s <- Mentions(body) :: NulFree(s)
  }

  predicate CleanMember(m: Member) {
    match m
    case Reference(name) => NulFree(name)
    case Anonymous(_, body) => CleanBody(body)
  }

  predicate Clean(s: Statement) {
    match s
    case Import(name) => NulFree(name)
    case Declare(name, _, body, _) => NulFree(name) && CleanBody(body)
    case Sequence(name, _, members) => NulFree(name) && forall m <- members :: CleanMember(m)
  }

  /** Nothing that was produced is taken back or moved. */
  ghost predicate Grows(o': Output, o: Output) {
    && o.code <= o'.code && |o.strings.data| <= |o'.strings.data|
    && o.rules <= o'.rules && o.sources <= o'.sources && o.modules <= o'.modules && o.sequences <= o'.sequences
  }

  lemma InternGrows(t: StringTable, s: string)
    ensures |t.data| <= |Intern(t, s).data|
  {
  }

  lemma RuleGrows(known: map<string, nat>, o: Output, name: Option<string>, event: Option<string>, body: Expr, isPrivate: bool)
    ensures Grows(RuleProgress(known, o, name, event, body, isPrivate).out, o)
    ensures |NameRule(o, name).strings.data| <= |RuleProgress(known, o, name, event, body, isPrivate).out.strings.data|
  {
    InternAllGrows(NameRule(o, name).strings, Mentions(body));
  }

  lemma {:induction false} MembersGrow(known: map<string, nat>, o: Output, members: seq<Member>, n: nat)
    requires n <= |members|
    ensures Grows(MembersProgress(known, o, members).out, MembersProgress(known, o, members[..n]).out)
    decreases |members|
  {
    hide RuleProgress, FindRuleFrom;
    if n == |members| {
      assert members[..n] == members;
    } else {
      var most := members[..|members| - 1];
      assert most[..n] == members[..n];
      MembersGrow(known, o, most, n);
      var g, m := MembersProgress(known, o, most), members[|members| - 1];
      if m.Anonymous? {
        RuleGrows(known, g.out, None, m.event, m.body, true);
      }
    }
  }

  lemma StatementGrows(known: map<string, nat>, o: Output, s: Statement)
    ensures Grows(StatementProgress(known, o, s).out, o)
  {
    hide RuleProgress, MembersProgress;
    match s
    case Import(_) =>
    case Declare(name, event, body, isPrivate) => RuleGrows(known, o, Some(name), event, body, isPrivate);
    case Sequence(name, _, members) =>
      var named := NameRule(o, Some(name));
      MembersGrow(known, named, members, 0);
      MembersNone(known, named, members);
  }

  lemma MembersNone(known: map<string, nat>, o: Output, members: seq<Member>)
    ensures MembersProgress(known, o, members[..0]) == Gathered(o, 0, [])
  {
  }

  lemma {:induction false} ProgramGrows(known: map<string, nat>, statements: seq<Statement>, n: nat)
    requires n <= |statements|
    ensures Grows(ProgramProgress(known, statements).out, ProgramProgress(known, statements[..n]).out)
    ensures ProgramProgress(known, statements).error == 0 ==> ProgramProgress(known, statements[..n]).error == 0
    decreases |statements|
  {
    hide StatementProgress;
    if n == |statements| {
      assert statements[..n] == statements;
    } else {
      var most := statements[..|statements| - 1];
      assert most[..n] == statements[..n];
      ProgramGrows(known, most, n);
      StatementGrows(known, ProgramProgress(known, most).out, statements[|statements| - 1]);
    }
  }

  // ---------- the driver ----------

  class CompilerState {
    const known: map<string, nat>
    const builder: Builder
    var modules: seq<ModuleEntry>
    var rules: seq<RuleEntry>
    var sequences: seq<SequenceEntry>
    ghost var sources: seq<Rule>

    ghost function Repr(): set<object>
      reads this, builder, builder.code, builder.data, builder.data.buffer
    {
      {this} + builder.Repr()
    }

    ghost predicate Valid()
      reads this, builder, builder.code, builder.code.data, builder.data, builder.data.buffer, builder.data.buffer.data
    {
      builder.Valid() && builder.iter == None
    }

    ghost function Out(): Output
      reads this, builder, builder.code, builder.code.data, builder.data, builder.data.buffer, builder.data.buffer.data
      requires Valid()
    {
      Output(builder.Bytes(), builder.Table(), builder.moduleName, modules, rules, sequences, sources)
    }

    constructor (known: map<string, nat>)
      ensures Valid() && Out() == EMPTY && this.known == known && fresh(Repr())
    {
      this.known := known;
      builder := new Builder();
      modules, rules, sequences, sources := [], [], [], [];
    }

    method FindModuleOrdinal(event: string) returns (r: Option<nat>)
      requires Valid()
      ensures r == FindOrdinal(modules, builder.Table(), event, 0)
    {
      var i := 0;
      while i < |modules|
        invariant i <= |modules| && FindOrdinal(modules, builder.Table(), event, i) == FindOrdinal(modules, builder.Table(), event, 0)
      {
        var name := builder.data.Get(modules[i].nameOffset);
        if name.Some? && Cut(name.value, modules[i].nameLength) == Cut(event, modules[i].nameLength) {
          return Some(modules[i].ordinal);
        }
        i := i + 1;
      }
      r := None;
    }

    method FindRuleIndex(name: string) returns (r: Option<nat>)
      requires Valid()
      ensures r == FindRuleFrom(builder.Table(), rules, name, 0)
    {
      var i := 0;
      while i < |rules|
        invariant i <= |rules| && FindRuleFrom(builder.Table(), rules, name, i) == FindRuleFrom(builder.Table(), rules, name, 0)
      {
        var found := builder.data.Get(rules[i].nameOffset);
        if found == Some(name) {
          return Some(i);
        }
        i := i + 1;
      }
      r := None;
    }

    method CompileImport(name: string) returns (error: nat)
      requires Valid() && NulFree(name) && Fits(ImportProgress(known, Out(), name).out)
      modifies Repr()
      ensures Valid() && fresh(Repr() - old(Repr()))
      ensures Progress(Out(), error) == old(ImportProgress(known, Out(), name))
    {
      hide ValidTable, Room;
      error := 0;
      var present := builder.data.Find(name);
      if present.None? {
        var offset := builder.AddName(name);
        if name !in known {
          return ERROR_MODULE;
        }
        modules := modules + [ModuleEntry(|modules| + 1, known[name], |name|, offset)];
      }
    }

    method CompileRule(name: Option<string>, event: Option<string>, body: Expr, isPrivate: bool) returns (error: nat, index: nat)
      requires Valid() && (name.Some? ==> NulFree(name.value)) && CleanBody(body)
      requires Fits(RuleProgress(known, Out(), name, event, body, isPrivate).out)
      modifies Repr()
      ensures Valid() && fresh(Repr() - old(Repr()))
      ensures Progress(Out(), error) == old(RuleProgress(known, Out(), name, event, body, isPrivate))
      ensures index == if error == 0 then |old(rules)| else 0
    {
      hide ValidTable, FindOrdinal, FirstPrefix, Prefixes, AddRule, Intern;
      ghost var o := Out();
      RuleGrows(known, o, name, event, body, isPrivate);
      var start, offset, ordinal := builder.code.size, 0, 0;
      error, index := 0, 0;
      if name.Some? {
        offset := builder.AddName(name.value);
      }
      if event.Some? {
        var found := FindModuleOrdinal(event.value);
        if found.None? {
          return ERROR_UNSUCCESSFUL, 0;
        }
        ordinal := found.value;
        if event.value !in known {
          return ERROR_MODULE, 0;
        }
      }
      index := |rules|;
      Append(event, body, RuleEntry(start, offset, ordinal, isPrivate, name.None?));
    }

    /** Emits the body of a rule and appends its entry. */
    method Append(event: Option<string>, body: Expr, entry: RuleEntry)
      requires Valid() && CleanBody(body) && Fits(AddRule(Out(), event, body, entry))
      modifies Repr()
      ensures Valid() && fresh(Repr() - old(Repr())) && Out() == old(AddRule(Out(), event, body, entry))
    {
      hide ValidTable, InternAll, Mentions, RuleCode, I.Assemble, NameAt, Room;
      RoomForRule(builder.Table(), builder.Bytes(), if event.Some? then event else builder.moduleName, body);
      builder.EmitRule(event, body);
      IterNone(body);
      rules := rules + [entry];
      sources := sources + [Rule(NameAt(builder.Table(), entry.nameOffset), builder.moduleName, body)];
    }

    /** A member of a sequence: looked up if it is declared elsewhere, else compiled here. */
    method CompileMember(m: Member, ghost g: Gathered) returns (error: nat, index: nat)
      requires Valid() && CleanMember(m) && g.out == Out() && Fits(MemberProgress(known, g, m).out)
      modifies Repr()
      ensures Valid() && fresh(Repr() - old(Repr()))
      ensures Gathered(Out(), if error != 0 then error else g.error, g.indices + [index]) == MemberProgress(known, g, m)
    {
      hide ValidTable, RuleProgress, FindRuleFrom;
      error, index := 0, 0;
      match m
      case Reference(name) =>
        var found := FindRuleIndex(name);
        if found.Some? {
          index := found.value;
        }
      case Anonymous(event, body) =>
        error, index := CompileRule(None, event, body, true);
    }

    method CompileSequence(name: string, maxSpan: word, members: seq<Member>) returns (error: nat)
      requires Valid() && NulFree(name) && (forall m <- members :: CleanMember(m))
      requires Fits(SequenceProgress(known, Out(), name, maxSpan, members).out)
      modifies Repr()
      ensures Valid() && fresh(Repr() - old(Repr()))
      ensures Progress(Out(), error) == old(SequenceProgress(known, Out(), name, maxSpan, members))
    {
      hide ValidTable, MemberProgress, Intern;
      ghost var o := Out();
      ghost var named := NameRule(o, Some(name));
      MembersGrow(known, named, members, 0);
      MembersNone(known, named, members);
      var offset := builder.AddName(name);
      var indices := [];
      error := 0;
      for i := 0 to |members|
        invariant Valid() && fresh(Repr() - old(Repr()))
        invariant Gathered(Out(), error, indices) == MembersProgress(known, named, members[..i])
      {
        MembersGrow(known, named, members, i + 1);
        assert members[..i + 1][..i] == members[..i];
        assert CleanMember(members[i]);
        var rc, idx := CompileMember(members[i], Gathered(Out(), error, indices));
        if rc != 0 {
          error := rc;
        }
        indices := indices + [idx];
      }
      assert members[..|members|] == members;
      sequences := sequences + [SequenceEntry(maxSpan, offset, indices)];
    }

    /** `compiler_compile_statements` on a new compiler. */
    method CompileStatements(statements: seq<Statement>) returns (error: nat)
      requires Valid() && Out() == EMPTY && (forall s <- statements :: Clean(s))
      requires Fits(ProgramProgress(known, statements).out)
      modifies Repr()
      ensures Valid() && Progress(Out(), error) == ProgramProgress(known, statements)
    {
      hide ImportProgress, RuleProgress, SequenceProgress;
      error := 0;
      for i := 0 to |statements|
        invariant Valid() && fresh(Repr() - old(Repr()))
        invariant Progress(Out(), error) == ProgramProgress(known, statements[..i])
      {
        ProgramGrows(known, statements, i + 1);
        assert statements[..i + 1][..i] == statements[..i];
        assert Clean(statements[i]);
        var code := 0;
        match statements[i] {
          case Import(name) => code := CompileImport(name);
          case Declare(name, event, body, isPrivate) =>
            var index;
            code, index := CompileRule(Some(name), event, body, isPrivate);
          case Sequence(name, maxSpan, members) => code := CompileSequence(name, maxSpan, members);
        }
        if code != 0 {
          error := code;
        }
      }
      assert statements[..|statements|] == statements;
    }
  }

  /** What the emitter asks for before it emits a rule. */
  lemma RoomForRule(t: StringTable, code: seq<byte>, mod: Option<string>, body: Expr)
    requires CleanBody(body)
    requires |InternAll(t, Mentions(body)).data| < WORD_LIMIT
    requires |code + I.Assemble(RuleCode(body, mod, None, |code|), InternAll(t, Mentions(body)).offsets)| < WORD_LIMIT
    ensures Room(t, Mentions(body)) && |code| + I.Size(RuleCode(body, mod, None, |code|)) < WORD_LIMIT
  {
  }

  lemma IterNone(body: Expr)
    ensures IterAfter(body, None) == None
  {
  }
}
