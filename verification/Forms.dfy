/** Statements token by token: what the parser makes of every form of a statement. */
module Forms {
  import opened Words
  import opened Wrappers
  import opened Ast
  import opened Tokens
  import opened Grammar
  import opened Statements
  import opened Precedence

  /** The event behind the name of a rule. */
  function EventTokens(event: Option<string>): seq<Token> {
    if event.None? then [] else [Colon, Ident(event.value)]
  }

  /** A body is a chain in braces. */
  function BodyTokens(c: Chain): seq<Token>
    requires ValidChain(c)
  {
    [LBrace] + Spelled(c) + [RBrace]
  }

  lemma ImportForm(ts: seq<Token>, pos: nat, error: nat, name: string)
    requires pos <= |ts| && Here(ts, pos, [EventWord, Ident(name)])
    ensures ParseStatement(ts, pos, error) == ParsedStatement(Some(Import(name)), pos + 2, error)
  {
    TwoHere(ts, pos, EventWord, Ident(name));
  }

  /** A rule is private if and only if the word `private` stands in front. */
  lemma RuleForm(ts: seq<Token>, pos: nat, error: nat, name: string, event: Option<string>, c: Chain, isPrivate: bool)
    requires Readable(c) && pos <= |ts|
    requires Here(ts, pos, (if isPrivate then [PrivateWord, RuleWord, Ident(name)] else [RuleWord, Ident(name)]) + (EventTokens(event) + BodyTokens(c)))
    ensures var r := ParseStatement(ts, pos, error); r.error == error && r.statement == Some(Declare(name, event, Grouped(c), isPrivate))
  {
    hide Here, ParseStatement, Canonical, Grouped, Spelled, Print;
    ChainCanonical(c);
    GroupedPrints(c);
    var s := Declare(name, event, Grouped(c), isPrivate);
    assert PrintEvent(event) == EventTokens(event);
    StatementPrinted(ts, pos, error, s);
  }

  /** The time limit of a sequence. */
  datatype Limit = Unlimited | Seconds(n: word) | Minutes(n: word)

  function LimitTokens(l: Limit): seq<Token> {
    match l
    case Unlimited => []
    case Seconds(n) => [Colon, Token.Number(n), Ident("s")]
    case Minutes(n) => [Colon, Token.Number(n), Ident("m")]
  }

  /** In seconds, cut to 32 bits; 0 is no limit. */
  function LimitValue(l: Limit): int {
    match l
    case Unlimited => 0
    case Seconds(n) => n
    case Minutes(n) => n * 60 % 0x1_0000_0000
  }

  lemma LimitForm(ts: seq<Token>, pos: nat, l: Limit, x: seq<Token>)
    requires pos <= |ts| && Here(ts, pos, LimitTokens(l) + ([LBracket] + x))
    ensures ParseSpan(ts, pos) == ParsedSpan(Some(LimitValue(l)), pos + |LimitTokens(l)|)
    ensures At(ts, pos + |LimitTokens(l)|, LBracket) && Here(ts, pos + |LimitTokens(l)| + 1, x)
  {
    HereSplit(ts, pos, LimitTokens(l), [LBracket] + x);
    HereSplit(ts, pos + |LimitTokens(l)|, [LBracket], x);
    HereOne(ts, pos + |LimitTokens(l)|, LBracket);
    if l != Unlimited {
      ThreeHere(ts, pos, Colon, Token.Number(l.n), Ident(if l.Seconds? then "s" else "m"));
    }
  }

  /** A sequence of a rule declared elsewhere and one written in place. */
  lemma SequenceForm(ts: seq<Token>, pos: nat, error: nat, name: string, l: Limit, rule: string, event: Option<string>, c: Chain)
    requires Readable(c) && pos <= |ts|
    requires Here(ts, pos, [SequenceWord, Ident(name)] +
                           (LimitTokens(l) + ([LBracket] + ([Ident(rule), Comma] + EventTokens(event) + BodyTokens(c) + [Comma, RBracket]))))
    ensures var r := ParseStatement(ts, pos, error);
            r.error == error && r.statement == Some(Sequence(name, LimitValue(l), [Reference(rule), Anonymous(event, Grouped(c))]))
  {
    hide Here, Canonical, Grouped, Spelled, Print, ParseMembers, PrintMembers, ParseSpan;
    ChainCanonical(c);
    GroupedPrints(c);
    var ms := [Reference(rule), Anonymous(event, Grouped(c))];
    var x := [Ident(rule), Comma] + EventTokens(event) + BodyTokens(c) + [Comma, RBracket];
    PairTokens(rule, event, Grouped(c));
    HereSplit(ts, pos, [SequenceWord, Ident(name)], LimitTokens(l) + ([LBracket] + x));
    TwoHere(ts, pos, SequenceWord, Ident(name));
    LimitForm(ts, pos + 2, l, x);
    MembersPrinted(ts, pos + 2 + |LimitTokens(l)| + 1, error, ms);
  }

  lemma PairTokens(rule: string, event: Option<string>, body: Expr)
    ensures PrintMembers([Reference(rule), Anonymous(event, body)]) ==
            [Ident(rule), Comma] + EventTokens(event) + ([LBrace] + Print(body) + [RBrace]) + [Comma, RBracket]
  {
    hide Print, PrintMembers, PrintMember;
    var m, n := Reference(rule), Anonymous(event, body);
    assert [m, n][1..] == [n] && [n][1..] == [];
    MembersTokens([m, n]);
    MembersTokens([n]);
    MemberTokens(rule, event, body);
    var x := EventTokens(event) + ([LBrace] + Print(body) + [RBrace]);
    assert PrintMembers([n]) == x + [Comma, RBracket];
  }

  lemma MemberTokens(rule: string, event: Option<string>, body: Expr)
    ensures PrintMembers([]) == [RBracket] && PrintMember(Reference(rule)) == [Ident(rule)]
    ensures PrintMember(Anonymous(event, body)) == EventTokens(event) + ([LBrace] + Print(body) + [RBrace])
  {
    hide Print;
  }

  // ---------- commas, and the word `any` ----------

  /** Arguments may stand with commas between and behind them, and without. */
  lemma CommasOptional(ts: seq<Token>, pos: nat, error: nat, c: Chain, d: Chain, first: bool, last: bool)
    requires Readable(c) && Readable(d) && pos <= |ts|
    requires var p := pos + |Spelled(c)|; var q := if first then p + 1 else p; var r := q + |Spelled(d)|;
             && Here(ts, pos, Spelled(c)) && At(ts, p, Comma) == first && Here(ts, q, Spelled(d)) && Stops(ts, p, 0)
             && At(ts, r, Comma) == last && At(ts, if last then r + 1 else r, RParen) && Stops(ts, r, 0)
    ensures var a := ParseArguments(ts, pos, error); a.arguments == Some([Grouped(c), Grouped(d)]) && a.error == error
  {
    hide ParseAt, ParseArguments, Spelled, Canonical, Grouped, Here, Print, Continues;
    var p := pos + |Spelled(c)|;
    var q := if first then p + 1 else p;
    var r := q + |Spelled(d)|;
    OneArgument(ts, pos, error, c);
    OneArgument(ts, q, error, d);
    ArgumentsEnd(ts, if last then r + 1 else r, error);
    assert [Grouped(d)] + [] == [Grouped(d)] && [Grouped(c)] + [Grouped(d)] == [Grouped(c), Grouped(d)];
  }

  lemma ArgumentsEnd(ts: seq<Token>, pos: nat, error: nat)
    requires At(ts, pos, RParen)
    ensures ParseArguments(ts, pos, error) == ParsedArguments(Some([]), pos + 1, error)
  {
  }

  lemma OneArgument(ts: seq<Token>, pos: nat, error: nat, c: Chain)
    requires Readable(c) && pos <= |ts| && Here(ts, pos, Spelled(c)) && Stops(ts, pos + |Spelled(c)|, 0)
    ensures !Grouped(c).Null? && pos + |Spelled(c)| <= |ts| && |Spelled(c)| > 0
    ensures var p := pos + |Spelled(c)|; var rest := ParseArguments(ts, if At(ts, p, Comma) then p + 1 else p, error);
            ParseArguments(ts, pos, error) ==
            if rest.arguments.None? then rest else rest.(arguments := Some([Grouped(c)] + rest.arguments.value))
  {
    hide ParseAt, Spelled, Canonical, Grouped;
    ChainCanonical(c);
    GroupedPrints(c);
    Starts(Grouped(c), 0);
    HereFirst(ts, pos, Spelled(c));
    ChainParsed(ts, pos, error, c);
  }

  /** Members of a sequence may follow one another without a comma. */
  lemma MembersAdjoin(ts: seq<Token>, pos: nat, error: nat, rule: string)
    requires At(ts, pos, Ident(rule))
    ensures var rest := ParseMembers(ts, if At(ts, pos + 1, Comma) then pos + 2 else pos + 1, error);
            rest.members.Some? ==> ParseMembers(ts, pos, error) == rest.(members := Some([Reference(rule)] + rest.members.value))
  {
  }

  /** In front of `all` or a number the word `any` is passed over. */
  lemma AnyPassed(ts: seq<Token>, pos: nat, error: nat)
    requires At(ts, pos, AnyWord) && pos + 1 < |ts| && (ts[pos + 1] == AllWord || ts[pos + 1].Number?)
    ensures ParseRange(ts, pos, error) == ParseRange(ts, pos + 1, error)
  {
    hide ParseVariable;
  }

  // ---------- refusals ----------

  /** A parenthesis that is not closed behind its chain is error 4, and a body that is not closed error 2. */
  lemma UnclosedRefused(ts: seq<Token>, pos: nat, error: nat, c: Chain)
    requires Readable(c) && pos < |ts| && Here(ts, pos + 1, Spelled(c)) && Stops(ts, pos + 1 + |Spelled(c)|, 0)
    ensures var end := pos + 1 + |Spelled(c)|;
            && (ts[pos] == LParen && !At(ts, end, RParen) ==> ParsePrimary(ts, pos, error) == Parsed(Null, end, 4))
            && (ts[pos] == LBrace && !At(ts, end, RBrace) ==> ParseBody(ts, pos, error) == Parsed(Null, end, 2))
  {
    hide ParseAt, Spelled, Canonical, Grouped;
    ChainParsed(ts, pos + 1, error, c);
    ChainCanonical(c);
    Starts(Grouped(c), 0);
  }

  /** Where a statement, a body, a name or an operand is missing: errors 3, 3, 3 and 2. */
  lemma MissingRefused(ts: seq<Token>, pos: nat, error: nat, left: Expr)
    requires pos < |ts| && !left.Null?
    ensures !(ts[pos] == RuleWord || ts[pos] == PrivateWord || ts[pos] == SequenceWord || ts[pos] == EventWord) ==>
              ParseStatement(ts, pos, error) == ParsedStatement(None, pos, 3)
    ensures ts[pos] != LBrace ==> ParseBody(ts, pos, error) == Parsed(Null, pos, 3)
    ensures ts[pos] == Dot && !(pos + 1 < |ts| && ts[pos + 1].Ident?) ==> ParsePostfix(ts, left, pos, error) == Parsed(Null, pos + 1, 3)
    ensures NoOperand(ts[pos]) ==> ParsePrimary(ts, pos, error) == Parsed(Null, pos, 2)
  {
    hide ParseAt, ParseRule, ParseSequence, ParseArguments;
  }

  /** No operand begins with the token. */
  predicate NoOperand(t: Token) {
    match t
    case RParen => true case RBracket => true case RBrace => true case Comma => true case Dot => true
    case DotDot => true case Colon => true case Equal => true case NotWord => true case EndOfFile => true
    case Operator(_) => true
    case _ => false
  }
}
