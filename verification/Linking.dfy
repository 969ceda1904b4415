/**
 * What the compiler leaves behind is an image of the rules it was given: every entry of the rule
 * table leads to the name of its rule and to its code, whatever was compiled and interned later.
 */
module Linking {
  import opened Words
  import opened Wrappers
  import opened CStrings
  import opened Ast
  import opened Machine
  import opened Codegen
  import opened Semantics
  import opened Correctness
  import opened Arena
  import opened Emitter
  import opened ControlFlow
  import opened Compiler
  import I = Instructions

  /** An entry leads to the name and the bytes of its rule. */
  ghost predicate RuleBuilt(code: seq<byte>, t: StringTable, r: Rule, entry: RuleEntry) {
    && r.ruleName in t.offsets && t.offsets[r.ruleName] == entry.nameOffset
    && var x := RuleCode(r.body, r.event, None, entry.codeOffset);
       I.AllInterned(x, t) && I.Placed(code, entry.codeOffset, I.Assemble(x, t.offsets))
  }

  /** Once a string is interned, one is at offset 0. */
  ghost predicate HasOrigin(t: StringTable) {
    t.data != "" ==> exists s :: s in t.offsets && t.offsets[s] == 0
  }

  ghost predicate Built(o: Output) {
    && ValidTable(o.strings) && HasOrigin(o.strings) && |o.rules| == |o.sources|
    && forall j :: 0 <= j < |o.rules| ==> RuleBuilt(o.code, o.strings, o.sources[j], o.rules[j])
  }

  lemma BuiltStable(code: seq<byte>, t: StringTable, code': seq<byte>, t': StringTable, r: Rule, entry: RuleEntry)
    requires RuleBuilt(code, t, r, entry) && code <= code' && Extends(t', t)
    ensures RuleBuilt(code', t', r, entry)
  {
    hide I.Assemble, RuleCode;
    var x := RuleCode(r.body, r.event, None, entry.codeOffset);
    I.AssembleStable(x, t, t');
    var bytes := I.Assemble(x, t.offsets);
    assert code'[entry.codeOffset..entry.codeOffset + |bytes|] == code[entry.codeOffset..entry.codeOffset + |bytes|];
    forall i <- x ensures I.Interned(i, t') {
      assert I.Interned(i, t);
    }
  }

  /** More code and more strings leave what was built in place. */
  lemma BuiltGrows(o: Output, o': Output)
    requires Built(o) && ValidTable(o'.strings) && HasOrigin(o'.strings) && Extends(o'.strings, o.strings)
    requires o.code <= o'.code && o'.rules == o.rules && o'.sources == o.sources
    ensures Built(o')
  {
    hide RuleBuilt, ValidTable, Extends, HasOrigin;
    forall j | 0 <= j < |o.rules| ensures RuleBuilt(o'.code, o'.strings, o'.sources[j], o'.rules[j]) {
      BuiltStable(o.code, o.strings, o'.code, o'.strings, o.sources[j], o.rules[j]);
    }
  }

  lemma InternOrigin(t: StringTable, s: string)
    requires ValidTable(t) && HasOrigin(t)
    ensures HasOrigin(Intern(t, s)) && Intern(t, s).data != ""
  {
    if s in t.offsets {
      assert StoredAt(t.data, t.offsets[s], s);
    } else if t.data == "" {
      assert Intern(t, s).offsets[s] == 0;
    } else {
      var r :| r in t.offsets && t.offsets[r] == 0;
      assert Intern(t, s).offsets[r] == 0;
    }
  }

  lemma {:induction false} InternAllOrigin(t: StringTable, strings: seq<string>)
    requires ValidTable(t) && HasOrigin(t) && (forall s <- strings :: NulFree(s)) && |InternAll(t, strings).data| < WORD_LIMIT
    ensures HasOrigin(InternAll(t, strings)) && (t.data != "" ==> InternAll(t, strings).data != "")
    decreases |strings|
  {
    hide ValidTable, HasOrigin;
    InternAllKeeps(t, strings);
    if strings != [] {
      InternAllGrows(Intern(t, strings[0]), strings[1..]);
      InternKeeps(t, strings[0]);
      InternOrigin(t, strings[0]);
      InternAllOrigin(Intern(t, strings[0]), strings[1..]);
    }
  }

  /** The string at offset 0 is an interned one. */
  lemma OriginName(t: StringTable)
    requires ValidTable(t) && HasOrigin(t) && t.data != ""
    ensures NameAt(t, 0) in t.offsets && t.offsets[NameAt(t, 0)] == 0
  {
    var s :| s in t.offsets && t.offsets[s] == 0;
    GetInterned(t, s);
  }

  lemma NamedBuilt(o: Output, name: string)
    requires Built(o) && NulFree(name) && |Intern(o.strings, name).data| < WORD_LIMIT
    ensures var o' := NameRule(o, Some(name));
            && Built(o') && o'.strings.data != "" && name in o'.strings.offsets && Extends(o'.strings, o.strings)
            && NameOffset(o, Some(name)) == o'.strings.offsets[name]
  {
    hide ValidTable, HasOrigin, RuleBuilt;
    InternGrows(o.strings, name);
    InternKeeps(o.strings, name);
    InternOrigin(o.strings, name);
    BuiltGrows(o, NameRule(o, Some(name)));
  }

  /** What `AddRule` adds is built, and the rest stays. */
  lemma AddedBuilt(o: Output, event: Option<string>, body: Expr, entry: RuleEntry)
    requires Built(o) && CleanBody(body) && Fits(AddRule(o, event, body, entry)) && entry.codeOffset == |o.code|
    requires o.strings.data != "" && (entry.nameOffset == 0 || exists s :: s in o.strings.offsets && o.strings.offsets[s] == entry.nameOffset)
    ensures Built(AddRule(o, event, body, entry))
  {
    hide ValidTable, HasOrigin, RuleBuilt, I.Assemble, RuleCode, InternAll, Extends, Mentions;
    var o' := AddRule(o, event, body, entry);
    InternAllKeeps(o.strings, Mentions(body));
    InternAllOrigin(o.strings, Mentions(body));
    BuiltGrows(o, o'.(rules := o.rules, sources := o.sources));
    NewRuleBuilt(o, event, body, entry);
  }

  lemma NewRuleBuilt(o: Output, event: Option<string>, body: Expr, entry: RuleEntry)
    requires Built(o) && CleanBody(body) && entry.codeOffset == |o.code|
    requires var t := AddRule(o, event, body, entry).strings;
             && ValidTable(t) && HasOrigin(t) && t.data != "" && Extends(t, o.strings) && forall s <- Mentions(body) :: s in t.offsets
    requires entry.nameOffset == 0 || exists s :: s in o.strings.offsets && o.strings.offsets[s] == entry.nameOffset
    ensures var o' := AddRule(o, event, body, entry); RuleBuilt(o'.code, o'.strings, o'.sources[|o.sources|], entry)
  {
    hide ValidTable, HasOrigin, I.Assemble, RuleCode, InternAll, Mentions, GetString;
    var o' := AddRule(o, event, body, entry);
    var mod := if event.Some? then event else o.moduleName;
    if entry.nameOffset == 0 {
      OriginName(o'.strings);
    } else {
      var s :| s in o.strings.offsets && o.strings.offsets[s] == entry.nameOffset;
      GetInterned(o'.strings, s);
    }
    RuleInterned(body, mod, |o.code|, o'.strings);
  }

  lemma RuleProgressBuilt(known: map<string, nat>, o: Output, name: Option<string>, event: Option<string>, body: Expr, isPrivate: bool)
    requires Built(o) && (name.Some? ==> NulFree(name.value)) && (name.None? ==> o.strings.data != "") && CleanBody(body)
    requires Fits(RuleProgress(known, o, name, event, body, isPrivate).out)
    ensures Built(RuleProgress(known, o, name, event, body, isPrivate).out)
    ensures RuleProgress(known, o, name, event, body, isPrivate).out.strings.data != ""
  {
    hide ValidTable, HasOrigin, RuleBuilt, AddRule, Extends, Mentions, InternAll;
    RuleGrows(known, o, name, event, body, isPrivate);
    if name.Some? {
      NamedBuilt(o, name.value);
    }
    var named := NameRule(o, name);
    var p := RuleProgress(known, o, name, event, body, isPrivate);
    if p.error == 0 {
      var ordinal := EventOrdinal(named, event).value;
      AddedBuilt(named, event, body, RuleEntry(|o.code|, NameOffset(o, name), ordinal, isPrivate, name.None?));
    }
  }

  lemma {:induction false} MembersBuilt(known: map<string, nat>, o: Output, members: seq<Member>)
    requires Built(o) && o.strings.data != "" && (forall m <- members :: CleanMember(m)) && Fits(MembersProgress(known, o, members).out)
    ensures Built(MembersProgress(known, o, members).out) && MembersProgress(known, o, members).out.strings.data != ""
    decreases |members|
  {
    hide Built, RuleProgress, FindRuleFrom;
    if members != [] {
      var last := |members| - 1;
      MembersGrow(known, o, members, last);
      assert CleanMember(members[last]);
      MembersBuilt(known, o, members[..last]);
      var g := MembersProgress(known, o, members[..last]);
      if members[last].Anonymous? {
        RuleProgressBuilt(known, g.out, None, members[last].event, members[last].body, true);
      }
    }
  }

  lemma StatementBuilt(known: map<string, nat>, o: Output, s: Statement)
    requires Built(o) && Clean(s) && Fits(StatementProgress(known, o, s).out)
    ensures Built(StatementProgress(known, o, s).out)
  {
    hide Built, RuleProgress, MembersProgress, Extends;
    match s
    case Import(name) => ImportBuilt(known, o, name);
    case Declare(name, event, body, isPrivate) => RuleProgressBuilt(known, o, Some(name), event, body, isPrivate);
    case Sequence(name, maxSpan, members) =>
      var named := NameRule(o, Some(name));
      MembersGrow(known, named, members, 0);
      MembersNone(known, named, members);
      NamedBuilt(o, name);
      MembersBuilt(known, named, members);
      SequenceEntryKeeps(MembersProgress(known, named, members).out, StatementProgress(known, o, s).out);
  }

  lemma SequenceEntryKeeps(o: Output, o': Output)
    requires Built(o) && o'.(sequences := o.sequences) == o
    ensures Built(o')
  {
  }

  lemma ImportBuilt(known: map<string, nat>, o: Output, name: string)
    requires Built(o) && NulFree(name) && Fits(ImportProgress(known, o, name).out)
    ensures Built(ImportProgress(known, o, name).out)
  {
    hide ValidTable, HasOrigin, RuleBuilt, Extends;
    if name !in o.strings.offsets {
      NamedBuilt(o, name);
    }
  }

  /** After any list of statements, failed ones included, everything in the rule table is built. */
  lemma {:induction false} ProgramBuilt(known: map<string, nat>, statements: seq<Statement>)
    requires (forall s <- statements :: Clean(s)) && Fits(ProgramProgress(known, statements).out)
    ensures Built(ProgramProgress(known, statements).out)
    decreases |statements|
  {
    hide StatementProgress;
    if statements != [] {
      var last := |statements| - 1;
      ProgramGrows(known, statements, last);
      assert Clean(statements[last]);
      ProgramBuilt(known, statements[..last]);
      StatementBuilt(known, ProgramProgress(known, statements[..last]).out, statements[last]);
    }
  }

  function ImageOf(o: Output, objects: map<string, Object>, x: Externals): Image {
    Image(o.code, o.strings, o.rules, objects, x)
  }

  function WorldOf(o: Output, objects: map<string, Object>, x: Externals): World {
    World(o.sources, objects, x, 0)
  }

  /** Decoding the compiled image gives back the rules. */
  lemma BuiltLinked(o: Output, objects: map<string, Object>, x: Externals)
    requires Built(o) && Fits(o) && forall r <- o.sources :: Emittable(r.body)
    ensures Linked(ImageOf(o, objects, x), WorldOf(o, objects, x))
  {
    hide ValidTable, HasOrigin, I.Listed, I.Assemble, RuleCode;
    forall j | 0 <= j < |o.rules| ensures RuleLinked(ImageOf(o, objects, x), o.sources[j], o.rules[j]) {
      var r, entry := o.sources[j], o.rules[j];
      GetInterned(o.strings, r.ruleName);
      I.AssembledListed(o.code, o.strings, entry.codeOffset, RuleCode(r.body, r.event, None, entry.codeOffset));
    }
  }

  lemma ProgramLinked(known: map<string, nat>, statements: seq<Statement>, objects: map<string, Object>, x: Externals)
    requires (forall s <- statements :: Clean(s)) && Fits(ProgramProgress(known, statements).out)
    requires forall r <- ProgramProgress(known, statements).out.sources :: Emittable(r.body)
    ensures var o := ProgramProgress(known, statements).out; Linked(ImageOf(o, objects, x), WorldOf(o, objects, x))
  {
    hide Built, ProgramProgress, Fits;
    ProgramBuilt(known, statements);
    BuiltLinked(ProgramProgress(known, statements).out, objects, x);
  }

  /** Control-flow integrity of a whole image: every jump of every compiled rule lands on an instruction of that rule. */
  lemma ProgramJumps(known: map<string, nat>, statements: seq<Statement>, j: nat, i: I.Instr)
    requires (forall s <- statements :: Clean(s)) && Fits(ProgramProgress(known, statements).out)
    requires var o := ProgramProgress(known, statements).out; j < |o.rules| && j < |o.sources|
    requires var o := ProgramProgress(known, statements).out; var b := o.rules[j].codeOffset;
             i in RuleCode(o.sources[j].body, o.sources[j].event, None, b) && IsJump(i)
    ensures var o := ProgramProgress(known, statements).out; var b := o.rules[j].codeOffset;
            var x := RuleCode(o.sources[j].body, o.sources[j].event, None, b);
            && b <= i.target < b + I.Size(x) <= |o.code| && StartsAt(x, b, i.target)
            && exists k <- x :: I.Fetch(o.code, o.strings, i.target) == I.Found(k)
  {
    hide ValidTable, HasOrigin, I.Listed, I.Assemble, RuleCode, ProgramProgress, StartsAt, I.Fetch, I.Size;
    ProgramBuilt(known, statements);
    var o := ProgramProgress(known, statements).out;
    var r, b := o.sources[j], o.rules[j].codeOffset;
    assert RuleBuilt(o.code, o.strings, r, o.rules[j]);
    I.AssembledListed(o.code, o.strings, b, RuleCode(r.body, r.event, None, b));
    JumpsStayInside(o.code, o.strings, r.body, r.event, b, i);
  }
}
