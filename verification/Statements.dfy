/** Statements as the parser reads them, and that printing a program and parsing it gives it back. */
module Statements {
  import opened Words
  import opened Wrappers
  import opened Ast
  import opened Tokens
  import opened Grammar

  const SPAN_MINUTE := 60

  datatype ParsedStatement = ParsedStatement(statement: Option<Statement>, pos: nat, error: nat)

  datatype ParsedMembers = ParsedMembers(members: Option<seq<Member>>, pos: nat, error: nat)

  datatype ParsedEvent = ParsedEvent(ok: bool, event: Option<string>, pos: nat)

  /** An expression in braces. */
  function ParseBody(ts: seq<Token>, pos: nat, error: nat): (r: Parsed)
    requires pos <= |ts|
    ensures Forward(ts, pos, error, r)
  {
    if !At(ts, pos, LBrace) then Parsed(Null, pos, UNEXPECTED_TOKEN)
    else
      var r := ParseAt(ts, 0, pos + 1, error);
      if r.expr.Null? then r
      else if At(ts, r.pos, RBrace) then r.(pos := r.pos + 1) else Parsed(Null, r.pos, INVALID_SYNTAX)
  }

  /** The optional event of a rule, after a colon. */
  function ParseEvent(ts: seq<Token>, pos: nat): (r: ParsedEvent)
    requires pos <= |ts|
    ensures pos <= r.pos <= |ts|
  {
    if !At(ts, pos, Colon) then ParsedEvent(true, None, pos)
    else if pos + 1 < |ts| && ts[pos + 1].Ident? then ParsedEvent(true, Some(ts[pos + 1].name), pos + 2)
    else ParsedEvent(false, None, pos + 1)
  }

  function ParseRule(ts: seq<Token>, isPrivate: bool, pos: nat, error: nat): (r: ParsedStatement)
    requires pos <= |ts|
    ensures pos <= r.pos <= |ts| && (error != 0 ==> r.error != 0) && (r.statement.None? ==> r.error != 0)
  {
    if !(pos < |ts| && ts[pos].Ident?) then ParsedStatement(None, pos, UNEXPECTED_TOKEN)
    else
      var event := ParseEvent(ts, pos + 1);
      if !event.ok then ParsedStatement(None, event.pos, UNEXPECTED_TOKEN)
      else
        var body := ParseBody(ts, event.pos, error);
        ParsedStatement(if body.expr.Null? then None else Some(Declare(ts[pos].name, event.event, body.expr, isPrivate)), body.pos, body.error)
  }

  predicate StartsMember(ts: seq<Token>, pos: nat) {
    pos < |ts| && (ts[pos].Ident? || ts[pos] == LBrace || ts[pos] == Colon)
  }

  /** The members of a sequence, each of which a comma may follow. */
  function ParseMembers(ts: seq<Token>, pos: nat, error: nat): (r: ParsedMembers)
    requires pos <= |ts|
    ensures pos <= r.pos <= |ts| && (error != 0 ==> r.error != 0) && (r.members.None? ==> r.error != 0)
    decreases |ts| - pos, 0
  {
    if !StartsMember(ts, pos) then ParsedMembers(Some([]), pos, error)
    else if ts[pos].Ident? then MoreMembers(ts, Reference(ts[pos].name), pos, pos + 1, error)
    else
      var event := ParseEvent(ts, pos);
      if !event.ok then ParsedMembers(None, event.pos, UNEXPECTED_TOKEN)
      else
        var body := ParseBody(ts, event.pos, error);
        if body.expr.Null? then ParsedMembers(None, body.pos, body.error)
        else MoreMembers(ts, Anonymous(event.event, body.expr), pos, body.pos, body.error)
  }

  function MoreMembers(ts: seq<Token>, m: Member, start: nat, pos: nat, error: nat): (r: ParsedMembers)
    requires start < pos <= |ts|
    ensures pos <= r.pos <= |ts| && (error != 0 ==> r.error != 0) && (r.members.None? ==> r.error != 0)
    decreases |ts| - pos, 1
  {
    Prepend([m], ParseMembers(ts, if At(ts, pos, Comma) then pos + 1 else pos, error))
  }

  function Prepend(before: seq<Member>, r: ParsedMembers): ParsedMembers {
    if r.members.None? then r else r.(members := Some(before + r.members.value))
  }

  datatype ParsedSpan = ParsedSpan(span: Option<word>, pos: nat)

  /** The optional time limit of a sequence, in seconds or minutes; minutes may wrap around. */
  function ParseSpan(ts: seq<Token>, pos: nat): (r: ParsedSpan)
    requires pos <= |ts|
    ensures pos <= r.pos <= |ts|
  {
    if !At(ts, pos, Colon) then ParsedSpan(Some(0), pos)
    else if !(pos + 1 < |ts| && ts[pos + 1].Number?) then ParsedSpan(None, pos + 1)
    else if !(pos + 2 < |ts| && ts[pos + 2].Ident?) then ParsedSpan(None, pos + 2)
    else
      var n, unit := ts[pos + 1].value, ts[pos + 2].name;
      ParsedSpan(if unit == "s" then Some(n) else if unit == "m" then Some(Wrap(n * SPAN_MINUTE)) else None, pos + 3)
  }

  function ParseSequence(ts: seq<Token>, pos: nat, error: nat): (r: ParsedStatement)
    requires pos <= |ts|
    ensures pos <= r.pos <= |ts| && (error != 0 ==> r.error != 0) && (r.statement.None? ==> r.error != 0)
  {
    if !(pos < |ts| && ts[pos].Ident?) then ParsedStatement(None, pos, UNEXPECTED_TOKEN)
    else
      var span := ParseSpan(ts, pos + 1);
      if span.span.None? then ParsedStatement(None, span.pos, UNEXPECTED_TOKEN)
      else if !At(ts, span.pos, LBracket) then ParsedStatement(None, span.pos, UNEXPECTED_TOKEN)
      else
        var ms := ParseMembers(ts, span.pos + 1, error);
        if ms.members.None? then ParsedStatement(None, ms.pos, ms.error)
        else if !At(ts, ms.pos, RBracket) then ParsedStatement(None, ms.pos, INVALID_SYNTAX)
        else ParsedStatement(Some(Sequence(ts[pos].name, span.span.value, ms.members.value)), ms.pos + 1, ms.error)
  }

  function ParseStatement(ts: seq<Token>, pos: nat, error: nat): (r: ParsedStatement)
    requires pos <= |ts|
    ensures pos <= r.pos <= |ts| && (error != 0 ==> r.error != 0)
    ensures if r.statement.None? then r.error != 0 else pos < r.pos
  {
    if At(ts, pos, RuleWord) then ParseRule(ts, false, pos + 1, error)
    else if At(ts, pos, PrivateWord) then
      if At(ts, pos + 1, RuleWord) then ParseRule(ts, true, pos + 2, error) else ParsedStatement(None, pos + 1, UNEXPECTED_TOKEN)
    else if At(ts, pos, SequenceWord) then ParseSequence(ts, pos + 1, error)
    else if At(ts, pos, EventWord) then
      if pos + 1 < |ts| && ts[pos + 1].Ident? then ParsedStatement(Some(Import(ts[pos + 1].name)), pos + 2, error)
      else ParsedStatement(None, pos + 1, UNEXPECTED_TOKEN)
    else ParsedStatement(None, pos, UNEXPECTED_TOKEN)
  }

  /** Statements up to the end-of-file token.  With an error there is no tree. */
  function ParseProgram(ts: seq<Token>, pos: nat, error: nat): (r: Option<seq<Statement>>)
    requires pos <= |ts|
    ensures error != 0 ==> r.None?
    decreases |ts| - pos
  {
    if At(ts, pos, EndOfFile) then if error == 0 then Some([]) else None
    else
      var r := ParseStatement(ts, pos, error);
      if r.statement.None? then None else Joined([r.statement.value], ParseProgram(ts, r.pos, r.error))
  }

  function Joined(before: seq<Statement>, rest: Option<seq<Statement>>): Option<seq<Statement>> {
    if rest.None? then None else Some(before + rest.value)
  }

  // ---------- printing ----------

  function PrintEvent(event: Option<string>): seq<Token> {
    match event case None => [] case Some(e) => [Colon, Ident(e)]
  }

  function PrintBody(body: Expr): seq<Token> {
    [LBrace] + Print(body) + [RBrace]
  }

  function PrintMember(m: Member): seq<Token> {
    match m
    case Reference(name) => [Ident(name)]
    case Anonymous(event, body) => PrintEvent(event) + PrintBody(body)
  }

  /** The members, each followed by a comma, and the closing bracket. */
  function PrintMembers(ms: seq<Member>): seq<Token> {
    if ms == [] then [RBracket] else PrintMember(ms[0]) + [Comma] + PrintMembers(ms[1..])
  }

  function PrintSpan(span: word): seq<Token> {
    if span == 0 then [] else [Colon, Token.Number(span), Ident("s")]
  }

  function PrintStatement(s: Statement): seq<Token> {
    match s
    case Import(name) => [EventWord, Ident(name)]
    case Declare(name, event, body, isPrivate) =>
      (if isPrivate then [PrivateWord, RuleWord, Ident(name)] else [RuleWord, Ident(name)]) + (PrintEvent(event) + PrintBody(body))
    case Sequence(name, span, members) => [SequenceWord, Ident(name)] + (PrintSpan(span) + ([LBracket] + PrintMembers(members)))
  }

  function PrintProgram(ss: seq<Statement>): seq<Token> {
    if ss == [] then [EndOfFile] else PrintStatement(ss[0]) + PrintProgram(ss[1..])
  }

  predicate CanonicalMember(m: Member) {
    m.Anonymous? ==> Canonical(m.body, 0)
  }

  predicate CanonicalStatement(s: Statement) {
    match s
    case Import(_) => true
    case Declare(_, _, body, _) => Canonical(body, 0)
    case Sequence(_, _, members) => forall m <- members :: CanonicalMember(m)
  }

  // ---------- parsing what was printed ----------

  lemma BodyPrinted(ts: seq<Token>, pos: nat, error: nat, body: Expr)
    requires pos <= |ts| && Canonical(body, 0) && Here(ts, pos, PrintBody(body))
    ensures ParseBody(ts, pos, error) == Parsed(body, pos + |PrintBody(body)|, error) && !body.Null?
  {
    hide ParseAt, Print, Canonical;
    HereSplit(ts, pos, [LBrace] + Print(body), [RBrace]);
    HereSplit(ts, pos, [LBrace], Print(body));
    HereOne(ts, pos, LBrace);
    HereOne(ts, pos + 1 + |Print(body)|, RBrace);
    ParsePrinted(ts, 0, pos + 1, error, body);
    Starts(body, 0);
  }

  lemma EventPrinted(ts: seq<Token>, pos: nat, event: Option<string>, body: Expr)
    requires pos <= |ts| && Here(ts, pos, PrintEvent(event) + PrintBody(body))
    ensures ParseEvent(ts, pos) == ParsedEvent(true, event, pos + |PrintEvent(event)|)
    ensures Here(ts, pos + |PrintEvent(event)|, PrintBody(body))
    ensures pos < |ts| && (ts[pos] == LBrace || ts[pos] == Colon)
  {
    hide Print;
    HereSplit(ts, pos, PrintEvent(event), PrintBody(body));
    HereFirst(ts, pos + |PrintEvent(event)|, PrintBody(body));
    if event.Some? {
      TwoHere(ts, pos, Colon, Ident(event.value));
    }
  }

  lemma TwoHere(ts: seq<Token>, pos: nat, t0: Token, t1: Token)
    requires Here(ts, pos, [t0, t1])
    ensures At(ts, pos, t0) && At(ts, pos + 1, t1)
  {
    assert ts[pos] == ts[pos..pos + 2][0] && ts[pos + 1] == ts[pos..pos + 2][1];
  }

  lemma NoMembers(ts: seq<Token>, pos: nat, error: nat)
    requires At(ts, pos, RBracket)
    ensures ParseMembers(ts, pos, error) == ParsedMembers(Some([]), pos, error)
  {
  }

  lemma {:induction false} MembersPrinted(ts: seq<Token>, pos: nat, error: nat, ms: seq<Member>)
    requires pos <= |ts| && (forall m <- ms :: CanonicalMember(m)) && Here(ts, pos, PrintMembers(ms))
    ensures ParseMembers(ts, pos, error) == ParsedMembers(Some(ms), pos + |PrintMembers(ms)| - 1, error)
    ensures At(ts, pos + |PrintMembers(ms)| - 1, RBracket)
    decreases |ms|
  {
    hide ParseMembers, CanonicalMember, PrintMember, Here;
    if ms == [] {
      HereOne(ts, pos, RBracket);
      NoMembers(ts, pos, error);
    } else {
      var m, rest := ms[0], ms[1..];
      MembersSplit(ts, pos, ms);
      var p := pos + |PrintMember(m)|;
      MembersPrinted(ts, p + 1, error, rest);
      MemberPrinted(ts, pos, error, m);
      assert ms == [m] + rest;
    }
  }

  lemma MembersSplit(ts: seq<Token>, pos: nat, ms: seq<Member>)
    requires ms != [] && pos <= |ts| && Here(ts, pos, PrintMembers(ms))
    ensures var p := pos + |PrintMember(ms[0])|;
            && Here(ts, pos, PrintMember(ms[0])) && At(ts, p, Comma) && Here(ts, p + 1, PrintMembers(ms[1..]))
            && |PrintMembers(ms)| == |PrintMember(ms[0])| + 1 + |PrintMembers(ms[1..])|
            && |PrintMember(ms[0])| > 0
  {
    hide Here, PrintMember, PrintMembers;
    MemberNotEmpty(ms[0]);
    MembersTokens(ms);
    var x, rest := PrintMember(ms[0]), PrintMembers(ms[1..]);
    HereSplit(ts, pos, x + [Comma], rest);
    HereSplit(ts, pos, x, [Comma]);
    HereOne(ts, pos + |x|, Comma);
  }

  lemma MembersTokens(ms: seq<Member>)
    requires ms != []
    ensures PrintMembers(ms) == PrintMember(ms[0]) + [Comma] + PrintMembers(ms[1..])
  {
    hide PrintMember;
  }

  lemma MemberNotEmpty(m: Member)
    ensures |PrintMember(m)| > 0
  {
    hide Print;
  }

  lemma MemberPrinted(ts: seq<Token>, pos: nat, error: nat, m: Member)
    requires pos <= |ts| && CanonicalMember(m) && Here(ts, pos, PrintMember(m)) && |PrintMember(m)| > 0
    ensures ParseMembers(ts, pos, error) == MoreMembers(ts, m, pos, pos + |PrintMember(m)|, error)
  {
    hide Here, Print, ParseAt, Canonical, MoreMembers, ParseBody, ParseEvent;
    match m
    case Reference(name) => HereOne(ts, pos, Ident(name));
    case Anonymous(event, body) =>
      EventPrinted(ts, pos, event, body);
      BodyPrinted(ts, pos + |PrintEvent(event)|, error, body);
  }

  lemma SpanPrinted(ts: seq<Token>, pos: nat, span: word, x: seq<Token>)
    requires pos <= |ts| && Here(ts, pos, PrintSpan(span) + ([LBracket] + x))
    ensures ParseSpan(ts, pos) == ParsedSpan(Some(span), pos + |PrintSpan(span)|)
    ensures At(ts, pos + |PrintSpan(span)|, LBracket) && Here(ts, pos + |PrintSpan(span)| + 1, x)
  {
    HereSplit(ts, pos, PrintSpan(span), [LBracket] + x);
    HereSplit(ts, pos + |PrintSpan(span)|, [LBracket], x);
    HereOne(ts, pos + |PrintSpan(span)|, LBracket);
    if span != 0 {
      ThreeHere(ts, pos, Colon, Token.Number(span), Ident("s"));
    }
  }

  lemma StatementPrinted(ts: seq<Token>, pos: nat, error: nat, s: Statement)
    requires pos <= |ts| && CanonicalStatement(s) && Here(ts, pos, PrintStatement(s))
    ensures ParseStatement(ts, pos, error) == ParsedStatement(Some(s), pos + |PrintStatement(s)|, error)
    ensures |PrintStatement(s)| > 0 && PrintStatement(s)[0] != EndOfFile
  {
    hide Here, ParseStatement, CanonicalStatement, PrintMembers, PrintSpan, PrintEvent, PrintBody;
    match s
    case Import(name) => ImportPrinted(ts, pos, error, name);
    case Declare(_, _, _, _) => RulePrinted(ts, pos, error, s);
    case Sequence(_, _, _) => SequencePrinted(ts, pos, error, s);
  }

  lemma ImportPrinted(ts: seq<Token>, pos: nat, error: nat, name: string)
    requires pos <= |ts| && Here(ts, pos, [EventWord, Ident(name)])
    ensures ParseStatement(ts, pos, error) == ParsedStatement(Some(Import(name)), pos + 2, error)
  {
    hide Here, ParseRule, ParseSequence;
    TwoHere(ts, pos, EventWord, Ident(name));
  }

  /** The first words of a rule and of a sequence. */
  lemma StatementTurn(ts: seq<Token>, pos: nat, error: nat)
    requires pos <= |ts|
    ensures At(ts, pos, RuleWord) ==> ParseStatement(ts, pos, error) == ParseRule(ts, false, pos + 1, error)
    ensures At(ts, pos, PrivateWord) && At(ts, pos + 1, RuleWord) ==> ParseStatement(ts, pos, error) == ParseRule(ts, true, pos + 2, error)
    ensures At(ts, pos, SequenceWord) ==> ParseStatement(ts, pos, error) == ParseSequence(ts, pos + 1, error)
  {
    hide ParseRule, ParseSequence;
  }

  lemma RulePrinted(ts: seq<Token>, pos: nat, error: nat, s: Statement)
    requires s.Declare? && pos <= |ts| && CanonicalStatement(s) && Here(ts, pos, PrintStatement(s))
    ensures ParseStatement(ts, pos, error) == ParsedStatement(Some(s), pos + |PrintStatement(s)|, error)
  {
    hide Here, ParseRule, ParseStatement, PrintEvent, PrintBody, Canonical;
    var rest := PrintEvent(s.event) + PrintBody(s.body);
    if s.isPrivate {
      HereSplit(ts, pos, [PrivateWord, RuleWord, Ident(s.ruleName)], rest);
      ThreeHere(ts, pos, PrivateWord, RuleWord, Ident(s.ruleName));
    } else {
      HereSplit(ts, pos, [RuleWord, Ident(s.ruleName)], rest);
      TwoHere(ts, pos, RuleWord, Ident(s.ruleName));
    }
    StatementTurn(ts, pos, error);
    RuleRead(ts, if s.isPrivate then pos + 2 else pos + 1, error, s);
  }

  /** A rule from its name on. */
  lemma RuleRead(ts: seq<Token>, pos: nat, error: nat, s: Statement)
    requires s.Declare? && Canonical(s.body, 0) && At(ts, pos, Ident(s.ruleName)) && Here(ts, pos + 1, PrintEvent(s.event) + PrintBody(s.body))
    ensures ParseRule(ts, s.isPrivate, pos, error) == ParsedStatement(Some(s), pos + 1 + |PrintEvent(s.event) + PrintBody(s.body)|, error)
  {
    hide Here, ParseBody, ParseEvent, PrintEvent, PrintBody, Canonical;
    EventPrinted(ts, pos + 1, s.event, s.body);
    BodyPrinted(ts, pos + 1 + |PrintEvent(s.event)|, error, s.body);
  }

  lemma SequencePrinted(ts: seq<Token>, pos: nat, error: nat, s: Statement)
    requires s.Sequence? && pos <= |ts| && CanonicalStatement(s) && Here(ts, pos, PrintStatement(s))
    ensures ParseStatement(ts, pos, error) == ParsedStatement(Some(s), pos + |PrintStatement(s)|, error)
  {
    hide Here, ParseSequence, PrintMembers, PrintSpan, ParseStatement, CanonicalMember;
    var rest := PrintSpan(s.maxSpan) + ([LBracket] + PrintMembers(s.members));
    HereSplit(ts, pos, [SequenceWord, Ident(s.seqName)], rest);
    TwoHere(ts, pos, SequenceWord, Ident(s.seqName));
    StatementTurn(ts, pos, error);
    SequenceRead(ts, pos + 1, error, s);
  }

  /** A sequence from its name on. */
  lemma SequenceRead(ts: seq<Token>, pos: nat, error: nat, s: Statement)
    requires s.Sequence? && (forall m <- s.members :: CanonicalMember(m)) && At(ts, pos, Ident(s.seqName))
    requires Here(ts, pos + 1, PrintSpan(s.maxSpan) + ([LBracket] + PrintMembers(s.members)))
    ensures ParseSequence(ts, pos, error) ==
            ParsedStatement(Some(s), pos + 1 + |PrintSpan(s.maxSpan) + ([LBracket] + PrintMembers(s.members))|, error)
  {
    hide Here, ParseMembers, PrintMembers, ParseSpan, PrintSpan, CanonicalMember;
    SpanPrinted(ts, pos + 1, s.maxSpan, PrintMembers(s.members));
    MembersPrinted(ts, pos + 1 + |PrintSpan(s.maxSpan)| + 1, error, s.members);
  }

  /** Parsing a printed program gives the program back. */
  lemma {:induction false} ProgramPrinted(ts: seq<Token>, pos: nat, ss: seq<Statement>)
    requires pos <= |ts| && (forall s <- ss :: CanonicalStatement(s)) && Here(ts, pos, PrintProgram(ss))
    ensures ParseProgram(ts, pos, 0) == Some(ss)
    decreases |ss|
  {
    hide Here, PrintStatement, ParseStatement;
    if ss == [] {
      HereOne(ts, pos, EndOfFile);
    } else {
      var rest := ss[1..];
      HereSplit(ts, pos, PrintStatement(ss[0]), PrintProgram(rest));
      StatementPrinted(ts, pos, 0, ss[0]);
      HereFirst(ts, pos, PrintStatement(ss[0]));
      ProgramPrinted(ts, pos + |PrintStatement(ss[0])|, rest);
      assert ss == [ss[0]] + rest;
    }
  }

  // ---------- no tree is missing ----------

  lemma BodyCanonical(ts: seq<Token>, pos: nat, error: nat)
    requires pos <= |ts|
    ensures var r := ParseBody(ts, pos, error); r.error == 0 ==> Canonical(r.expr, 0) && !r.expr.Null?
  {
    hide ParseAt, Canonical;
    if At(ts, pos, LBrace) {
      ParsedPrints(ts, 0, pos + 1, error);
    }
  }

  lemma {:induction false} MembersCanonical(ts: seq<Token>, pos: nat, error: nat)
    requires pos <= |ts|
    ensures var r := ParseMembers(ts, pos, error); r.error == 0 ==> r.members.Some? && forall m <- r.members.value :: CanonicalMember(m)
    decreases |ts| - pos
  {
    hide ParseBody, ParseEvent, Canonical;
    if StartsMember(ts, pos) {
      if ts[pos].Ident? {
        MembersCanonical(ts, if At(ts, pos + 1, Comma) then pos + 2 else pos + 1, error);
      } else {
        var event := ParseEvent(ts, pos);
        BodyCanonical(ts, event.pos, error);
        var body := ParseBody(ts, event.pos, error);
        if !body.expr.Null? {
          MembersCanonical(ts, if At(ts, body.pos, Comma) then body.pos + 1 else body.pos, body.error);
        }
      }
    }
  }

  lemma StatementCanonical(ts: seq<Token>, pos: nat, error: nat)
    requires pos <= |ts|
    ensures var r := ParseStatement(ts, pos, error); r.error == 0 ==> r.statement.Some? && CanonicalStatement(r.statement.value)
  {
    hide ParseBody, ParseEvent, ParseMembers, ParseSpan, Canonical;
    if At(ts, pos, SequenceWord) {
      if pos + 1 < |ts| {
        MembersCanonicalAfter(ts, pos + 1, error);
      }
    } else if At(ts, pos, RuleWord) && pos + 1 < |ts| {
      BodyCanonical(ts, ParseEvent(ts, pos + 2).pos, error);
    } else if At(ts, pos, PrivateWord) && pos + 2 < |ts| {
      BodyCanonical(ts, ParseEvent(ts, pos + 3).pos, error);
    }
  }

  lemma MembersCanonicalAfter(ts: seq<Token>, pos: nat, error: nat)
    requires pos < |ts|
    ensures var r := ParseSequence(ts, pos, error); r.error == 0 ==> r.statement.Some? && CanonicalStatement(r.statement.value)
  {
    hide ParseMembers, ParseSpan, Canonical;
    var span := ParseSpan(ts, pos + 1);
    if At(ts, span.pos, LBracket) {
      MembersCanonical(ts, span.pos + 1, error);
    }
  }

  /** Every program that parses consists of canonical trees: none has a missing child. */
  lemma {:induction false} ProgramCanonical(ts: seq<Token>, pos: nat, error: nat)
    requires pos <= |ts|
    ensures var r := ParseProgram(ts, pos, error); r.Some? ==> error == 0 && forall s <- r.value :: CanonicalStatement(s)
    decreases |ts| - pos
  {
    hide ParseStatement, CanonicalStatement;
    if !At(ts, pos, EndOfFile) {
      var r := ParseStatement(ts, pos, error);
      if r.statement.Some? {
        StatementCanonical(ts, pos, error);
        ProgramCanonical(ts, r.pos, r.error);
      }
    }
  }
}
