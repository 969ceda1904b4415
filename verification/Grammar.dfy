/**
 * Expressions as the parser reads them: what it makes of a token list, what a tree looks like in
 * tokens, and that the two are inverse to each other.
 */
module Grammar {
  import opened Wrappers
  import opened Ast
  import opened Tokens

  const INVALID_SYNTAX := 2
  const UNEXPECTED_TOKEN := 3
  const UNTERMINATED := 4

  const NOT_LEVEL := 2
  const UNARY_LEVEL := 11
  const CALL_LEVEL := 12
  const PRIMARY_LEVEL := 13

  /** A tree, or `Null` where the program returns a null pointer; the next position; the last error set. */
  datatype Parsed = Parsed(expr: Expr, pos: nat, error: nat)

  datatype ParsedArguments = ParsedArguments(arguments: Option<seq<Expr>>, pos: nat, error: nat)

  /** What every parsing function keeps: it goes forward, and an error once set is not cleared. */
  predicate Forward(ts: seq<Token>, pos: nat, error: nat, r: Parsed) {
    && pos <= r.pos <= |ts| && (error != 0 ==> r.error != 0)
    && (if r.expr.Null? then r.error != 0 else pos < r.pos)
  }

  predicate IsLoopLevel(level: nat) {
    level < UNARY_LEVEL && level != NOT_LEVEL
  }

  /** Parses an expression of a level. */
  function ParseAt(ts: seq<Token>, level: nat, pos: nat, error: nat): (r: Parsed)
    requires level <= PRIMARY_LEVEL && pos <= |ts|
    ensures Forward(ts, pos, error, r)
    decreases |ts| - pos, 20 - level
  {
    if level == NOT_LEVEL then
      if At(ts, pos, NotWord) then Prefixed(Not, ParseAt(ts, 3, pos + 1, error)) else ParseAt(ts, 3, pos, error)
    else if level < UNARY_LEVEL then
      var r := ParseAt(ts, level + 1, pos, error);
      if r.expr.Null? then r else ParseLoop(ts, level, r.expr, r.pos, r.error)
    else if level == UNARY_LEVEL then
      if pos < |ts| && PrefixOp(ts[pos]).Some? then Prefixed(PrefixOp(ts[pos]).value, ParseAt(ts, UNARY_LEVEL, pos + 1, error))
      else ParseAt(ts, CALL_LEVEL, pos, error)
    else if level == CALL_LEVEL then
      var r := ParseAt(ts, PRIMARY_LEVEL, pos, error);
      if r.expr.Null? then r else ParsePostfix(ts, r.expr, r.pos, r.error)
    else ParsePrimary(ts, pos, error)
  }

  function Prefixed(op: UnOp, r: Parsed): Parsed {
    if r.expr.Null? then r else r.(expr := Unary(op, r.expr))
  }

  /** The loop of a level: operators of the level, folded to the left. */
  function ParseLoop(ts: seq<Token>, level: nat, left: Expr, pos: nat, error: nat): (r: Parsed)
    requires level < UNARY_LEVEL && pos <= |ts| && !left.Null?
    ensures pos <= r.pos <= |ts| && (error != 0 ==> r.error != 0) && (r.expr.Null? ==> r.error != 0)
    decreases |ts| - pos, 0
  {
    if pos < |ts| && ts[pos].Operator? && Level(ts[pos].op) == level then
      var r := ParseAt(ts, level + 1, pos + 1, error);
      if r.expr.Null? then r else ParseLoop(ts, level, Binary(ts[pos].op, left, r.expr, Unset), r.pos, r.error)
    else Parsed(left, pos, error)
  }

  /** Calls, fields and indexes behind a primary expression. */
  function ParsePostfix(ts: seq<Token>, left: Expr, pos: nat, error: nat): (r: Parsed)
    requires pos <= |ts| && !left.Null?
    ensures pos <= r.pos <= |ts| && (error != 0 ==> r.error != 0) && (r.expr.Null? ==> r.error != 0)
    decreases |ts| - pos, 0
  {
    if At(ts, pos, LParen) then
      var r := ParseArguments(ts, pos + 1, error);
      if r.arguments.None? then Parsed(Null, r.pos, r.error) else ParsePostfix(ts, Call(left, r.arguments.value), r.pos, r.error)
    else if At(ts, pos, Dot) then
      if pos + 1 < |ts| && ts[pos + 1].Ident? then ParsePostfix(ts, Field(left, ts[pos + 1].name, {}), pos + 2, error)
      else Parsed(Null, pos + 1, UNEXPECTED_TOKEN)
    else if At(ts, pos, LBracket) then
      var r := ParseAt(ts, 0, pos + 1, error);
      if r.expr.Null? then r
      else if At(ts, r.pos, RBracket) then ParsePostfix(ts, Index(left, r.expr), r.pos + 1, r.error)
      else Parsed(Null, r.pos, UNTERMINATED)
    else Parsed(left, pos, error)
  }

  /** Arguments up to the closing parenthesis; a comma may follow each of them. */
  function ParseArguments(ts: seq<Token>, pos: nat, error: nat): (r: ParsedArguments)
    requires pos <= |ts|
    ensures pos <= r.pos <= |ts| && (error != 0 ==> r.error != 0) && (if r.arguments.None? then r.error != 0 else pos < r.pos)
    decreases |ts| - pos, 30
  {
    if At(ts, pos, RParen) then ParsedArguments(Some([]), pos + 1, error)
    else
      var r := ParseAt(ts, 0, pos, error);
      if r.expr.Null? then ParsedArguments(None, r.pos, r.error)
      else
        var rest := ParseArguments(ts, if At(ts, r.pos, Comma) then r.pos + 1 else r.pos, r.error);
        if rest.arguments.None? then rest else rest.(arguments := Some([r.expr] + rest.arguments.value))
  }

  /** The tree below a parenthesis may be missing: its error has been set, and stays. */
  function ParsePrimary(ts: seq<Token>, pos: nat, error: nat): (r: Parsed)
    requires pos <= |ts|
    ensures Forward(ts, pos, error, r)
    decreases |ts| - pos, 5
  {
    if pos < |ts| && LiteralOf(ts[pos]).Some? then Parsed(Lit(LiteralOf(ts[pos]).value), pos + 1, error)
    else if At(ts, pos, LParen) then
      var r := ParseAt(ts, 0, pos + 1, error);
      if At(ts, r.pos, RParen) then Parsed(Grouping(r.expr), r.pos + 1, r.error) else Parsed(Null, r.pos, UNTERMINATED)
    else if At(ts, pos, ForWord) then ParseRange(ts, pos + 1, error)
    else Parsed(Null, pos, INVALID_SYNTAX)
  }

  /** After `for`: `any` may precede the quantifier, and is forgotten; alone it is an error. */
  function ParseRange(ts: seq<Token>, pos: nat, error: nat): (r: Parsed)
    requires pos <= |ts|
    ensures Forward(ts, pos, error, r)
    decreases |ts| - pos, 4
  {
    var p := if At(ts, pos, AnyWord) then pos + 1 else pos;
    if At(ts, p, AllWord) then ParseVariable(ts, All, p + 1, error)
    else if p < |ts| && ts[p].Number? then ParseVariable(ts, AtLeast(ts[p].value), p + 1, error)
    else Parsed(Null, p, INVALID_SYNTAX)
  }

  function ParseVariable(ts: seq<Token>, q: Quantifier, pos: nat, error: nat): (r: Parsed)
    requires pos <= |ts|
    ensures Forward(ts, pos, error, r)
    decreases |ts| - pos, 3
  {
    if !(pos < |ts| && ts[pos].Ident?) then Parsed(Null, pos, UNEXPECTED_TOKEN)
    else if !At(ts, pos + 1, InWord) then Parsed(Null, pos + 1, UNEXPECTED_TOKEN)
    else if !At(ts, pos + 2, LParen) then Parsed(Null, pos + 2, UNEXPECTED_TOKEN)
    else ParseBounds(ts, q, ts[pos].name, pos + 3, error)
  }

  function ParseBounds(ts: seq<Token>, q: Quantifier, x: string, pos: nat, error: nat): (r: Parsed)
    requires pos <= |ts|
    ensures Forward(ts, pos, error, r)
    decreases |ts| - pos, 30
  {
    var start := ParseAt(ts, 0, pos, error);
    if start.expr.Null? then start
    else if !At(ts, start.pos, DotDot) then Parsed(Null, start.pos, UNEXPECTED_TOKEN)
    else
      var end := ParseAt(ts, 0, start.pos + 1, start.error);
      if end.expr.Null? then end
      else if !At(ts, end.pos, RParen) then Parsed(Null, end.pos, UNEXPECTED_TOKEN)
      else if !At(ts, end.pos + 1, Colon) then Parsed(Null, end.pos + 1, UNEXPECTED_TOKEN)
      else if !At(ts, end.pos + 2, LParen) then Parsed(Null, end.pos + 2, UNEXPECTED_TOKEN)
      else
        var c := ParseAt(ts, 0, end.pos + 3, end.error);
        if !At(ts, c.pos, RParen) then Parsed(Null, c.pos, UNEXPECTED_TOKEN)
        else Parsed(Range(q, x, start.expr, end.expr, c.expr), c.pos + 1, c.error)
  }

  // ---------- the printer ----------

  function Print(e: Expr): seq<Token> {
    match e
    case Binary(op, l, r, _) => Print(l) + [Operator(op)] + Print(r)
    case Unary(op, r) => [PrefixToken(op)] + Print(r)
    case Grouping(i) => [LParen] + Print(i) + [RParen]
    case Lit(l) => [LiteralToken(l)]
    case Call(f, args) => Print(f) + [LParen] + PrintAll(args)
    case Field(o, name, _) => Print(o) + [Dot, Ident(name)]
    case Index(a, i) => Print(a) + [LBracket] + Print(i) + [RBracket]
    case Range(q, x, s, t, c) =>
      [ForWord, QuantifierToken(q), Ident(x), InWord, LParen] + Print(s) + [DotDot] + Print(t) +
      [RParen, Colon, LParen] + Print(c) + [RParen]
    case Null => []
  }

  function QuantifierToken(q: Quantifier): Token {
    match q case Any => AnyWord case All => AllWord case AtLeast(n) => Token.Number(n)
  }

  /** The arguments, with commas between them, and the closing parenthesis. */
  function PrintAll(es: seq<Expr>): seq<Token> {
    if es == [] then [RParen] else Print(es[0]) + (if |es| == 1 then [] else [Comma]) + PrintAll(es[1..])
  }

  /**
   * The trees of a level: no tree is missing, operators stand at their level with a tighter right
   * operand, `not` stands over an equality only, and a `for` says `all` or a number.
   */
  predicate Canonical(e: Expr, level: nat)
    decreases e, 20 - level
  {
    if level == NOT_LEVEL then
      if e.Unary? && e.unop == Not then Canonical(e.operand, 3) else Canonical(e, 3)
    else if level < UNARY_LEVEL then
      if e.Binary? && Level(e.op) == level then e.operandType == Unset && Canonical(e.left, level) && Canonical(e.right, level + 1)
      else Canonical(e, level + 1)
    else if level == UNARY_LEVEL then
      if e.Unary? && e.unop != Not then Canonical(e.operand, UNARY_LEVEL) else Canonical(e, CALL_LEVEL)
    else
      match e
      case Call(f, args) => level == CALL_LEVEL && Canonical(f, CALL_LEVEL) && AllCanonical(args)
      case Field(o, _, flags) => level == CALL_LEVEL && Canonical(o, CALL_LEVEL) && flags == {}
      case Index(a, i) => level == CALL_LEVEL && Canonical(a, CALL_LEVEL) && Canonical(i, 0)
      case Lit(_) => true
      case Grouping(i) => Canonical(i, 0)
      case Range(q, _, s, t, c) => !q.Any? && Canonical(s, 0) && Canonical(t, 0) && Canonical(c, 0)
      case _ => false
  }

  predicate AllCanonical(es: seq<Expr>)
    decreases es, 21
  {
    es == [] || (Canonical(es[0], 0) && AllCanonical(es[1..]))
  }

  /** The first tokens of the trees of a level. */
  lemma {:induction false} Starts(e: Expr, level: nat)
    requires Canonical(e, level) && level <= PRIMARY_LEVEL
    ensures |Print(e)| > 0 && !e.Null?
    ensures Print(e)[0] != RParen && (level > NOT_LEVEL ==> Print(e)[0] != NotWord)
    ensures level > UNARY_LEVEL ==> PrefixOp(Print(e)[0]).None?
    decreases e, 20 - level
  {
    if level == NOT_LEVEL {
      if !(e.Unary? && e.unop == Not) {
        Starts(e, 3);
      }
    } else if level < UNARY_LEVEL {
      if e.Binary? && Level(e.op) == level {
        Starts(e.left, level);
      } else {
        Starts(e, level + 1);
      }
    } else if level == UNARY_LEVEL {
      if !(e.Unary? && e.unop != Not) {
        Starts(e, CALL_LEVEL);
      }
    } else {
      match e
      case Call(f, _) => Starts(f, CALL_LEVEL);
      case Field(o, _, _) => Starts(o, CALL_LEVEL);
      case Index(a, _) => Starts(a, CALL_LEVEL);
      case _ =>
    }
  }

  // ---------- parsing what was printed ----------

  /** The tokens `x` stand at position `pos`. */
  predicate Here(ts: seq<Token>, pos: nat, x: seq<Token>) {
    pos + |x| <= |ts| && ts[pos..pos + |x|] == x
  }

  lemma HereSplit(ts: seq<Token>, pos: nat, x: seq<Token>, y: seq<Token>)
    requires Here(ts, pos, x + y)
    ensures Here(ts, pos, x) && Here(ts, pos + |x|, y)
  {
    assert ts[pos..pos + |x|] == (x + y)[..|x|];
    assert ts[pos + |x|..pos + |x| + |y|] == (x + y)[|x|..];
  }

  lemma HereOne(ts: seq<Token>, pos: nat, t: Token)
    requires Here(ts, pos, [t])
    ensures At(ts, pos, t)
  {
    assert ts[pos] == ts[pos..pos + 1][0];
  }

  lemma HereFirst(ts: seq<Token>, pos: nat, x: seq<Token>)
    requires Here(ts, pos, x) && x != []
    ensures pos < |ts| && ts[pos] == x[0]
  {
    assert ts[pos] == ts[pos..pos + |x|][0];
  }

  /** A token that would continue an expression of the level. */
  predicate Continues(t: Token, level: nat) {
    t == LParen || t == Dot || t == LBracket || (t.Operator? && Level(t.op) >= level)
  }

  predicate Stops(ts: seq<Token>, pos: nat, level: nat) {
    pos < |ts| ==> !Continues(ts[pos], level)
  }

  /**
   * Parser inverts printer.  A canonical tree of any level, printed anywhere in a token list and
   * followed by a token that cannot continue it, is parsed back, and nothing after it is consumed.
   */
  lemma {:induction false} ParsePrinted(ts: seq<Token>, level: nat, pos: nat, error: nat, e: Expr)
    requires level <= PRIMARY_LEVEL && pos <= |ts| && Canonical(e, level) && Here(ts, pos, Print(e))
    requires Stops(ts, pos + |Print(e)|, level)
    ensures ParseAt(ts, level, pos, error) == Parsed(e, pos + |Print(e)|, error)
    decreases e, 20 - level, 2
  {
    hide ParseAt, ParsePostfix, ParsePrimary, Print, Canonical;
    if IsLoopLevel(level) {
      LeftPrinted(ts, level, pos, error, e);
    } else if level == NOT_LEVEL {
      NotPrinted(ts, pos, error, e);
    } else if level == UNARY_LEVEL {
      UnaryPrinted(ts, pos, error, e);
    } else if level == CALL_LEVEL {
      PostfixPrinted(ts, pos, error, e);
      NoPostfix(ts, e, pos + |Print(e)|, error);
    } else {
      PrimaryPrinted(ts, pos, error, e);
      UnfoldPrimary(ts, pos, error);
    }
  }

  lemma UnfoldPrimary(ts: seq<Token>, pos: nat, error: nat)
    requires pos <= |ts|
    ensures ParseAt(ts, PRIMARY_LEVEL, pos, error) == ParsePrimary(ts, pos, error)
  {
  }

  lemma NoPostfix(ts: seq<Token>, e: Expr, pos: nat, error: nat)
    requires pos <= |ts| && Stops(ts, pos, CALL_LEVEL) && !e.Null?
    ensures ParsePostfix(ts, e, pos, error) == Parsed(e, pos, error)
  {
  }

  /** Up to the operators of its own level, a printed tree is parsed as the left operand of the loop. */
  lemma {:induction false} LeftPrinted(ts: seq<Token>, level: nat, pos: nat, error: nat, e: Expr)
    requires IsLoopLevel(level) && pos <= |ts| && Canonical(e, level) && Here(ts, pos, Print(e))
    requires Stops(ts, pos + |Print(e)|, level + 1)
    ensures !e.Null? && ParseAt(ts, level, pos, error) == ParseLoop(ts, level, e, pos + |Print(e)|, error)
    decreases e, 20 - level, 1
  {
    hide ParseAt, ParseLoop, Print, Canonical, Here;
    NotNull(e, level);
    if e.Binary? && Level(e.op) == level {
      BinaryHere(ts, pos, e);
      BinaryParts(e, level);
      var p := pos + |Print(e.left)|;
      LeftPrinted(ts, level, pos, error, e.left);
      ParsePrinted(ts, level + 1, p + 1, error, e.right);
      NotNull(e.right, level + 1);
      LoopTurns(ts, level, e.left, p, error, e.op);
    } else {
      TighterParts(e, level);
      ParsePrinted(ts, level + 1, pos, error, e);
      UnfoldLevel(ts, level, pos, error);
    }
  }

  lemma BinaryParts(e: Expr, level: nat)
    requires IsLoopLevel(level) && Canonical(e, level) && e.Binary? && Level(e.op) == level
    ensures e == Binary(e.op, e.left, e.right, Unset) && Canonical(e.left, level) && Canonical(e.right, level + 1)
  {
  }

  lemma TighterParts(e: Expr, level: nat)
    requires IsLoopLevel(level) && Canonical(e, level) && !(e.Binary? && Level(e.op) == level)
    ensures Canonical(e, level + 1)
  {
  }

  lemma UnfoldLevel(ts: seq<Token>, level: nat, pos: nat, error: nat)
    requires IsLoopLevel(level) && pos <= |ts|
    ensures ParseAt(ts, level, pos, error) ==
            var r := ParseAt(ts, level + 1, pos, error); if r.expr.Null? then r else ParseLoop(ts, level, r.expr, r.pos, r.error)
  {
  }

  lemma BinaryHere(ts: seq<Token>, pos: nat, e: Expr)
    requires e.Binary? && Here(ts, pos, Print(e))
    ensures var p := pos + |Print(e.left)|;
            && Here(ts, pos, Print(e.left)) && At(ts, p, Operator(e.op)) && Here(ts, p + 1, Print(e.right))
            && pos + |Print(e)| == p + 1 + |Print(e.right)|
  {
    hide Print;
    BinaryTokens(e);
    HereSplit(ts, pos, Print(e.left) + [Operator(e.op)], Print(e.right));
    HereSplit(ts, pos, Print(e.left), [Operator(e.op)]);
    HereOne(ts, pos + |Print(e.left)|, Operator(e.op));
  }

  lemma BinaryTokens(e: Expr)
    requires e.Binary?
    ensures Print(e) == Print(e.left) + [Operator(e.op)] + Print(e.right)
  {
  }

  lemma LoopTurns(ts: seq<Token>, level: nat, left: Expr, pos: nat, error: nat, op: BinOp)
    requires level < UNARY_LEVEL && pos <= |ts| && !left.Null? && At(ts, pos, Operator(op)) && Level(op) == level
    ensures ParseLoop(ts, level, left, pos, error) ==
            var r := ParseAt(ts, level + 1, pos + 1, error);
            if r.expr.Null? then r else ParseLoop(ts, level, Binary(op, left, r.expr, Unset), r.pos, r.error)
  {
    hide ParseAt;
  }

  lemma {:induction false} NotPrinted(ts: seq<Token>, pos: nat, error: nat, e: Expr)
    requires pos <= |ts| && Canonical(e, NOT_LEVEL) && Here(ts, pos, Print(e)) && Stops(ts, pos + |Print(e)|, NOT_LEVEL)
    ensures ParseAt(ts, NOT_LEVEL, pos, error) == Parsed(e, pos + |Print(e)|, error)
    decreases e, 20 - NOT_LEVEL, 1
  {
    hide ParsePostfix, ParsePrimary, ParseLoop;
    if e.Unary? && e.unop == Not {
      HereSplit(ts, pos, [NotWord], Print(e.operand));
      HereOne(ts, pos, NotWord);
      ParsePrinted(ts, 3, pos + 1, error, e.operand);
      Starts(e.operand, 3);
    } else {
      hide Print;
      Starts(e, 3);
      HereFirst(ts, pos, Print(e));
      ParsePrinted(ts, 3, pos, error, e);
    }
  }

  lemma PrefixHere(ts: seq<Token>, pos: nat, e: Expr)
    requires pos <= |ts| && e.Unary? && Here(ts, pos, Print(e))
    ensures At(ts, pos, PrefixToken(e.unop)) && Here(ts, pos + 1, Print(e.operand)) && |Print(e)| == 1 + |Print(e.operand)|
  {
    HereSplit(ts, pos, [PrefixToken(e.unop)], Print(e.operand));
    HereOne(ts, pos, PrefixToken(e.unop));
  }

  lemma {:induction false} UnaryPrinted(ts: seq<Token>, pos: nat, error: nat, e: Expr)
    requires pos <= |ts| && Canonical(e, UNARY_LEVEL) && Here(ts, pos, Print(e)) && Stops(ts, pos + |Print(e)|, UNARY_LEVEL)
    ensures ParseAt(ts, UNARY_LEVEL, pos, error) == Parsed(e, pos + |Print(e)|, error)
    decreases e, 20 - UNARY_LEVEL, 1
  {
    hide ParsePostfix, ParsePrimary, ParseLoop;
    if e.Unary? && e.unop != Not {
      PrefixHere(ts, pos, e);
      hide Here, Print;
      ParsePrinted(ts, UNARY_LEVEL, pos + 1, error, e.operand);
      Starts(e.operand, UNARY_LEVEL);
    } else {
      hide Here, Print;
      Starts(e, CALL_LEVEL);
      HereFirst(ts, pos, Print(e));
      ParsePrinted(ts, CALL_LEVEL, pos, error, e);
    }
  }

  /** A printed chain of postfixes is parsed up to its last one, whatever follows. */
  lemma {:induction false} PostfixPrinted(ts: seq<Token>, pos: nat, error: nat, e: Expr)
    requires pos <= |ts| && Canonical(e, CALL_LEVEL) && Here(ts, pos, Print(e))
    ensures !e.Null? && ParseAt(ts, CALL_LEVEL, pos, error) == ParsePostfix(ts, e, pos + |Print(e)|, error)
    decreases e, 20 - CALL_LEVEL, 1
  {
    hide ParsePrimary, ParseAt, ParsePostfix, Print, Canonical, Here;
    NotNull(e, CALL_LEVEL);
    PostfixParts(e);
    if e.Call? {
      CallPrinted(ts, pos, error, e);
    } else if e.Field? {
      FieldHere(ts, pos, e);
      PostfixPrinted(ts, pos, error, e.owner);
      FieldTurns(ts, e.owner, pos + |Print(e.owner)|, error, e.fieldName);
    } else if e.Index? {
      IndexPrinted(ts, pos, error, e);
    } else {
      PrimaryPrinted(ts, pos, error, e);
      UnfoldCall(ts, pos, error);
    }
  }

  lemma NotNull(e: Expr, level: nat)
    requires Canonical(e, level) && level <= PRIMARY_LEVEL
    ensures !e.Null?
  {
    Starts(e, level);
  }

  lemma {:induction false} CallPrinted(ts: seq<Token>, pos: nat, error: nat, e: Expr)
    requires e.Call? && pos <= |ts| && Canonical(e, CALL_LEVEL) && Here(ts, pos, Print(e))
    ensures ParseAt(ts, CALL_LEVEL, pos, error) == ParsePostfix(ts, e, pos + |Print(e)|, error)
    decreases e, 20 - CALL_LEVEL, 0
  {
    hide ParsePrimary, ParseAt, ParsePostfix, ParseArguments, Print, Canonical, PrintAll, Here;
    PostfixParts(e);
    CallHere(ts, pos, e);
    var p := pos + |Print(e.callee)|;
    PostfixPrinted(ts, pos, error, e.callee);
    ArgumentsPrinted(ts, p + 1, error, e.arguments);
    CallTurns(ts, e.callee, p, error);
  }

  lemma {:induction false} IndexPrinted(ts: seq<Token>, pos: nat, error: nat, e: Expr)
    requires e.Index? && pos <= |ts| && Canonical(e, CALL_LEVEL) && Here(ts, pos, Print(e))
    ensures ParseAt(ts, CALL_LEVEL, pos, error) == ParsePostfix(ts, e, pos + |Print(e)|, error)
    decreases e, 20 - CALL_LEVEL, 0
  {
    hide ParsePrimary, ParseAt, ParsePostfix, Print, Canonical, Here;
    PostfixParts(e);
    IndexHere(ts, pos, e);
    var p := pos + |Print(e.indexed)|;
    PostfixPrinted(ts, pos, error, e.indexed);
    ParsePrinted(ts, 0, p + 1, error, e.index);
    NotNull(e.index, 0);
    IndexTurns(ts, e.indexed, p, error);
  }

  lemma PostfixParts(e: Expr)
    requires Canonical(e, CALL_LEVEL)
    ensures e.Call? ==> Canonical(e.callee, CALL_LEVEL) && AllCanonical(e.arguments)
    ensures e.Field? ==> e == Field(e.owner, e.fieldName, {}) && Canonical(e.owner, CALL_LEVEL)
    ensures e.Index? ==> Canonical(e.indexed, CALL_LEVEL) && Canonical(e.index, 0)
    ensures !(e.Call? || e.Field? || e.Index?) ==> Canonical(e, PRIMARY_LEVEL)
  {
  }

  lemma UnfoldCall(ts: seq<Token>, pos: nat, error: nat)
    requires pos <= |ts|
    ensures ParseAt(ts, CALL_LEVEL, pos, error) ==
            var r := ParsePrimary(ts, pos, error); if r.expr.Null? then r else ParsePostfix(ts, r.expr, r.pos, r.error)
  {
  }

  lemma CallHere(ts: seq<Token>, pos: nat, e: Expr)
    requires e.Call? && Here(ts, pos, Print(e))
    ensures var p := pos + |Print(e.callee)|;
            && Here(ts, pos, Print(e.callee)) && At(ts, p, LParen) && Here(ts, p + 1, PrintAll(e.arguments))
            && pos + |Print(e)| == p + 1 + |PrintAll(e.arguments)|
  {
    hide PrintAll;
    var x := Print(e.callee);
    HereSplit(ts, pos, x + [LParen], PrintAll(e.arguments));
    HereSplit(ts, pos, x, [LParen]);
    HereOne(ts, pos + |x|, LParen);
  }

  lemma FieldHere(ts: seq<Token>, pos: nat, e: Expr)
    requires e.Field? && Here(ts, pos, Print(e))
    ensures var p := pos + |Print(e.owner)|;
            && Here(ts, pos, Print(e.owner)) && At(ts, p, Dot) && At(ts, p + 1, Ident(e.fieldName)) && pos + |Print(e)| == p + 2
  {
    var x, t := Print(e.owner), Ident(e.fieldName);
    HereSplit(ts, pos, x, [Dot, t]);
    assert [Dot, t] == [Dot] + [t];
    HereSplit(ts, pos + |x|, [Dot], [t]);
    HereOne(ts, pos + |x|, Dot);
    HereOne(ts, pos + |x| + 1, t);
  }

  lemma IndexHere(ts: seq<Token>, pos: nat, e: Expr)
    requires e.Index? && Here(ts, pos, Print(e))
    ensures var p := pos + |Print(e.indexed)|; var q := p + 1 + |Print(e.index)|;
            && Here(ts, pos, Print(e.indexed)) && At(ts, p, LBracket) && Here(ts, p + 1, Print(e.index)) && At(ts, q, RBracket)
            && pos + |Print(e)| == q + 1
  {
    var x, y := Print(e.indexed), Print(e.index);
    HereSplit(ts, pos, x + [LBracket] + y, [RBracket]);
    HereSplit(ts, pos, x + [LBracket], y);
    HereSplit(ts, pos, x, [LBracket]);
    HereOne(ts, pos + |x|, LBracket);
    HereOne(ts, pos + |x| + 1 + |y|, RBracket);
  }

  lemma CallTurns(ts: seq<Token>, left: Expr, pos: nat, error: nat)
    requires pos <= |ts| && !left.Null? && At(ts, pos, LParen)
    ensures ParsePostfix(ts, left, pos, error) ==
            var r := ParseArguments(ts, pos + 1, error);
            if r.arguments.None? then Parsed(Null, r.pos, r.error) else ParsePostfix(ts, Call(left, r.arguments.value), r.pos, r.error)
  {
    hide ParseArguments;
  }

  lemma FieldTurns(ts: seq<Token>, left: Expr, pos: nat, error: nat, name: string)
    requires pos <= |ts| && !left.Null? && At(ts, pos, Dot) && At(ts, pos + 1, Ident(name))
    ensures ParsePostfix(ts, left, pos, error) == ParsePostfix(ts, Field(left, name, {}), pos + 2, error)
  {
  }

  lemma IndexTurns(ts: seq<Token>, left: Expr, pos: nat, error: nat)
    requires pos <= |ts| && !left.Null? && At(ts, pos, LBracket)
    ensures ParsePostfix(ts, left, pos, error) ==
            var r := ParseAt(ts, 0, pos + 1, error);
            if r.expr.Null? then r
            else if At(ts, r.pos, RBracket) then ParsePostfix(ts, Index(left, r.expr), r.pos + 1, r.error)
            else Parsed(Null, r.pos, UNTERMINATED)
  {
    hide ParseAt;
  }

  lemma {:induction false} ArgumentsPrinted(ts: seq<Token>, pos: nat, error: nat, es: seq<Expr>)
    requires pos <= |ts| && AllCanonical(es) && Here(ts, pos, PrintAll(es))
    ensures ParseArguments(ts, pos, error) == ParsedArguments(Some(es), pos + |PrintAll(es)|, error)
    decreases es, 21, 0
  {
    hide ParseAt, Print, Canonical, PrintAll, AllCanonical, ParseArguments;
    if es == [] {
      NoArguments(ts, pos, error);
    } else {
      var rest := es[1..];
      ArgumentsHere(ts, pos, es);
      Starts(es[0], 0);
      var p := pos + |Print(es[0])|;
      ParsePrinted(ts, 0, pos, error, es[0]);
      var next := if rest == [] then p else p + 1;
      ArgumentsPrinted(ts, next, error, rest);
      ArgumentTurns(ts, pos, error, es[0], p, rest);
      assert es == [es[0]] + rest;
    }
  }

  lemma NoArguments(ts: seq<Token>, pos: nat, error: nat)
    requires pos <= |ts| && Here(ts, pos, PrintAll([]))
    ensures ParseArguments(ts, pos, error) == ParsedArguments(Some([]), pos + |PrintAll([])|, error)
  {
    hide ParseAt;
    HereOne(ts, pos, RParen);
  }

  lemma ArgumentsHere(ts: seq<Token>, pos: nat, es: seq<Expr>)
    requires es != [] && AllCanonical(es) && Here(ts, pos, PrintAll(es)) && pos <= |ts|
    ensures var p := pos + |Print(es[0])|; var next := if es[1..] == [] then p else p + 1;
            && Canonical(es[0], 0) && AllCanonical(es[1..])
            && Here(ts, pos, Print(es[0])) && !At(ts, pos, RParen) && At(ts, p, if es[1..] == [] then RParen else Comma)
            && Here(ts, next, PrintAll(es[1..])) && pos + |PrintAll(es)| == next + |PrintAll(es[1..])|
  {
    hide Print, Canonical, PrintAll, Here;
    var x, rest := Print(es[0]), PrintAll(es[1..]);
    PrintAllParts(es);
    Starts(es[0], 0);
    if es[1..] == [] {
      HereSplit(ts, pos, x, rest);
      HereOne(ts, pos + |x|, RParen);
    } else {
      HereSplit(ts, pos, x + [Comma], rest);
      HereSplit(ts, pos, x, [Comma]);
      HereOne(ts, pos + |x|, Comma);
    }
    HereFirst(ts, pos, x);
  }

  lemma PrintAllParts(es: seq<Expr>)
    requires es != []
    ensures es[1..] == [] ==> PrintAll(es) == Print(es[0]) + PrintAll([]) && PrintAll(es[1..]) == [RParen]
    ensures es[1..] != [] ==> PrintAll(es) == Print(es[0]) + [Comma] + PrintAll(es[1..])
  {
    hide Print;
    assert Print(es[0]) + [] == Print(es[0]);
  }

  lemma ArgumentTurns(ts: seq<Token>, pos: nat, error: nat, e: Expr, p: nat, rest: seq<Expr>)
    requires pos <= |ts| && p <= |ts| && !e.Null? && !At(ts, pos, RParen) && ParseAt(ts, 0, pos, error) == Parsed(e, p, error)
    requires At(ts, p, if rest == [] then RParen else Comma)
    requires var next := if rest == [] then p else p + 1; ParseArguments(ts, next, error).arguments == Some(rest)
    ensures ParseArguments(ts, pos, error) ==
            ParseArguments(ts, if rest == [] then p else p + 1, error).(arguments := Some([e] + rest))
  {
    hide ParseAt;
  }

  lemma {:induction false} PrimaryPrinted(ts: seq<Token>, pos: nat, error: nat, e: Expr)
    requires pos <= |ts| && Canonical(e, PRIMARY_LEVEL) && Here(ts, pos, Print(e))
    ensures ParsePrimary(ts, pos, error) == Parsed(e, pos + |Print(e)|, error)
    decreases e, 20 - PRIMARY_LEVEL, 1
  {
    hide ParseAt, ParseRange;
    match e
    case Lit(l) => HereOne(ts, pos, LiteralToken(l));
    case Grouping(i) =>
      var x := Print(i);
      HereSplit(ts, pos, [LParen] + x, [RParen]);
      HereSplit(ts, pos, [LParen], x);
      HereOne(ts, pos, LParen);
      HereOne(ts, pos + 1 + |x|, RParen);
      ParsePrinted(ts, 0, pos + 1, error, i);
    case Range(_, _, _, _, _) =>
      RangePrinted(ts, pos, error, e);
  }

  function Head(q: Quantifier, x: string): seq<Token> {
    [ForWord, QuantifierToken(q), Ident(x), InWord, LParen]
  }

  /** The tokens of a `for`, one after the other. */
  ghost predicate RangeHere(ts: seq<Token>, pos: nat, e: Expr, a: nat, b: nat, c: nat)
    requires e.Range?
  {
    && At(ts, pos, ForWord) && At(ts, pos + 1, QuantifierToken(e.quantifier)) && At(ts, pos + 2, Ident(e.ivar))
    && At(ts, pos + 3, InWord) && At(ts, pos + 4, LParen)
    && Here(ts, pos + 5, Print(e.start)) && a == pos + 5 + |Print(e.start)| && At(ts, a, DotDot)
    && Here(ts, a + 1, Print(e.end)) && b == a + 1 + |Print(e.end)|
    && At(ts, b, RParen) && At(ts, b + 1, Colon) && At(ts, b + 2, LParen)
    && Here(ts, b + 3, Print(e.condition)) && c == b + 3 + |Print(e.condition)| && At(ts, c, RParen)
  }

  lemma RangeTokens(ts: seq<Token>, pos: nat, e: Expr) returns (a: nat, b: nat, c: nat)
    requires e.Range? && Here(ts, pos, Print(e))
    ensures RangeHere(ts, pos, e, a, b, c) && c + 1 == pos + |Print(e)|
  {
    hide Print;
    var x, y, z := Print(e.start), Print(e.end), Print(e.condition);
    a := pos + 5 + |x|;
    b := a + 1 + |y|;
    c := b + 3 + |z|;
    WholeRange(e.quantifier, e.ivar, e.start, e.end, e.condition);
    SevenHere(ts, pos, Head(e.quantifier, e.ivar), x, [DotDot], y, [RParen, Colon, LParen], z, [RParen]);
    HereOne(ts, a, DotDot);
    HereOne(ts, c, RParen);
    ThreeHere(ts, b, RParen, Colon, LParen);
    HeadHere(ts, pos, e.quantifier, e.ivar);
  }

  lemma SevenHere(ts: seq<Token>, pos: nat, h: seq<Token>, x: seq<Token>, d: seq<Token>, y: seq<Token>, m: seq<Token>, z: seq<Token>, r: seq<Token>)
    requires Here(ts, pos, h + x + d + y + m + z + r)
    ensures var a := pos + |h| + |x|; var b := a + |d| + |y|; var c := b + |m| + |z|;
            && Here(ts, pos, h) && Here(ts, pos + |h|, x) && Here(ts, a, d) && Here(ts, a + |d|, y)
            && Here(ts, b, m) && Here(ts, b + |m|, z) && Here(ts, c, r)
            && |h + x + d + y + m + z + r| == c + |r| - pos
  {
    hide Here;
    HereSplit(ts, pos, h + x + d + y + m + z, r);
    HereSplit(ts, pos, h + x + d + y + m, z);
    HereSplit(ts, pos, h + x + d + y, m);
    HereSplit(ts, pos, h + x + d, y);
    HereSplit(ts, pos, h + x, d);
    HereSplit(ts, pos, h, x);
  }

  lemma HeadHere(ts: seq<Token>, pos: nat, q: Quantifier, x: string)
    requires Here(ts, pos, Head(q, x))
    ensures At(ts, pos, ForWord) && At(ts, pos + 1, QuantifierToken(q)) && At(ts, pos + 2, Ident(x))
    ensures At(ts, pos + 3, InWord) && At(ts, pos + 4, LParen)
  {
    HereSplit(ts, pos, [ForWord, QuantifierToken(q), Ident(x)], [InWord, LParen]);
    ThreeHere(ts, pos, ForWord, QuantifierToken(q), Ident(x));
    HereSplit(ts, pos + 3, [InWord], [LParen]);
    HereOne(ts, pos + 3, InWord);
    HereOne(ts, pos + 4, LParen);
  }

  lemma ThreeHere(ts: seq<Token>, pos: nat, t0: Token, t1: Token, t2: Token)
    requires Here(ts, pos, [t0, t1, t2])
    ensures At(ts, pos, t0) && At(ts, pos + 1, t1) && At(ts, pos + 2, t2)
  {
    assert ts[pos] == ts[pos..pos + 3][0] && ts[pos + 1] == ts[pos..pos + 3][1] && ts[pos + 2] == ts[pos..pos + 3][2];
  }

  lemma {:induction false} RangePrinted(ts: seq<Token>, pos: nat, error: nat, e: Expr)
    requires e.Range? && pos <= |ts| && Canonical(e, PRIMARY_LEVEL) && Here(ts, pos, Print(e))
    ensures ParsePrimary(ts, pos, error) == Parsed(e, pos + |Print(e)|, error)
    decreases e, 20 - PRIMARY_LEVEL, 0
  {
    hide ParseAt, Print, ParsePrimary, ParseBounds, Canonical;
    var a, b, c := RangeTokens(ts, pos, e);
    RangeParts(e);
    RangeReached(ts, pos, error, e, a, b, c);
    ParsePrinted(ts, 0, pos + 5, error, e.start);
    ParsePrinted(ts, 0, a + 1, error, e.end);
    ParsePrinted(ts, 0, b + 3, error, e.condition);
    Starts(e.start, 0);
    Starts(e.end, 0);
    BoundsUnfold(ts, pos, error, e, a, b, c);
  }

  lemma RangeParts(e: Expr)
    requires e.Range? && Canonical(e, PRIMARY_LEVEL)
    ensures !e.quantifier.Any? && Canonical(e.start, 0) && Canonical(e.end, 0) && Canonical(e.condition, 0)
  {
  }

  lemma RangeReached(ts: seq<Token>, pos: nat, error: nat, e: Expr, a: nat, b: nat, c: nat)
    requires e.Range? && pos <= |ts| && !e.quantifier.Any? && RangeHere(ts, pos, e, a, b, c)
    ensures ParsePrimary(ts, pos, error) == ParseBounds(ts, e.quantifier, e.ivar, pos + 5, error)
  {
    hide ParseBounds, Print, ParseAt;
    assert !At(ts, pos + 1, AnyWord) && LiteralOf(ts[pos]).None?;
    assert ParseVariable(ts, e.quantifier, pos + 2, error) == ParseBounds(ts, e.quantifier, e.ivar, pos + 5, error);
    assert ParseRange(ts, pos + 1, error) == ParseVariable(ts, e.quantifier, pos + 2, error);
  }

  lemma BoundsUnfold(ts: seq<Token>, pos: nat, error: nat, e: Expr, a: nat, b: nat, c: nat)
    requires e.Range? && pos <= |ts| && RangeHere(ts, pos, e, a, b, c) && !e.start.Null? && !e.end.Null?
    requires ParseAt(ts, 0, pos + 5, error) == Parsed(e.start, a, error)
    requires ParseAt(ts, 0, a + 1, error) == Parsed(e.end, b, error)
    requires ParseAt(ts, 0, b + 3, error) == Parsed(e.condition, c, error)
    ensures ParseBounds(ts, e.quantifier, e.ivar, pos + 5, error) == Parsed(e, c + 1, error)
  {
    hide Print, ParseAt;
  }

  // ---------- printing what was parsed ----------

  /** A token list without the commas and the `any` that the parser skips. */
  function Strip(ts: seq<Token>): seq<Token> {
    if ts == [] then []
    else Strip(ts[..|ts| - 1]) + if ts[|ts| - 1] == Comma || ts[|ts| - 1] == AnyWord then [] else [ts[|ts| - 1]]
  }

  lemma {:induction false} StripAppend(x: seq<Token>, y: seq<Token>)
    ensures Strip(x + y) == Strip(x) + Strip(y)
    decreases |y|
  {
    if y == [] {
      assert x + y == x;
    } else {
      assert (x + y)[..|x + y| - 1] == x + y[..|y| - 1];
      StripAppend(x, y[..|y| - 1]);
    }
  }

  /** Up to skipped tokens, the tokens from `a` to `b` are `x`. */
  ghost predicate Spells(ts: seq<Token>, a: nat, b: nat, x: seq<Token>) {
    a <= b <= |ts| && Strip(ts[a..b]) == Strip(x)
  }

  lemma SpellsThen(ts: seq<Token>, a: nat, b: nat, c: nat, x: seq<Token>, y: seq<Token>)
    requires Spells(ts, a, b, x) && Spells(ts, b, c, y)
    ensures Spells(ts, a, c, x + y)
  {
    assert ts[a..c] == ts[a..b] + ts[b..c];
    StripAppend(ts[a..b], ts[b..c]);
    StripAppend(x, y);
  }

  lemma SpellsOne(ts: seq<Token>, a: nat, t: Token)
    requires At(ts, a, t)
    ensures Spells(ts, a, a + 1, [t])
    ensures t == Comma || t == AnyWord ==> Spells(ts, a, a + 1, [])
  {
    assert ts[a..a + 1] == [t];
    assert [t][..0] == [];
  }

  /**
   * Printer inverts parser.  Every tree from a parse without error is canonical, so it lacks no child,
   * and it prints to the tokens consumed, up to optional commas and the `any` of a `for`.
   */
  lemma {:induction false} ParsedPrints(ts: seq<Token>, level: nat, pos: nat, error: nat)
    requires level <= PRIMARY_LEVEL && pos <= |ts|
    ensures var r := ParseAt(ts, level, pos, error);
            r.error == 0 ==> Canonical(r.expr, level) && Spells(ts, pos, r.pos, Print(r.expr))
    decreases |ts| - pos, 20 - level
  {
    hide ParsePostfix, ParsePrimary, ParseLoop, Print, Spells, Canonical;
    var r := ParseAt(ts, level, pos, error);
    if r.error == 0 {
      if level == NOT_LEVEL {
        if At(ts, pos, NotWord) {
          ParsedPrints(ts, 3, pos + 1, error);
          UnaryParsed(ts, pos, Not, ParseAt(ts, 3, pos + 1, error), NotWord, level);
        } else {
          ParsedPrints(ts, 3, pos, error);
          PlainCanonical(r.expr, level);
        }
      } else if level < UNARY_LEVEL {
        ParsedPrints(ts, level + 1, pos, error);
        var left := ParseAt(ts, level + 1, pos, error);
        TighterCanonical(left.expr, level);
        LoopPrints(ts, level, left.expr, pos, left.pos, left.error);
      } else if level == UNARY_LEVEL {
        if pos < |ts| && PrefixOp(ts[pos]).Some? {
          var op := PrefixOp(ts[pos]).value;
          ParsedPrints(ts, UNARY_LEVEL, pos + 1, error);
          UnaryParsed(ts, pos, op, ParseAt(ts, UNARY_LEVEL, pos + 1, error), ts[pos], level);
        } else {
          ParsedPrints(ts, CALL_LEVEL, pos, error);
          PlainCanonical(r.expr, level);
        }
      } else if level == CALL_LEVEL {
        ParsedPrints(ts, PRIMARY_LEVEL, pos, error);
        var left := ParseAt(ts, PRIMARY_LEVEL, pos, error);
        PrimaryCanonical(left.expr);
        PostfixPrints(ts, left.expr, pos, left.pos, left.error);
      } else {
        PrimaryPrints(ts, pos, error);
      }
    }
  }

  /** A tree of the next level that does not have the form of this one belongs to this one too. */
  lemma PlainCanonical(e: Expr, level: nat)
    requires level == NOT_LEVEL || level == UNARY_LEVEL
    requires Canonical(e, level + 1)
    ensures Canonical(e, level)
  {
    if level == NOT_LEVEL && e.Unary? {
      NotLow(e, 3);
    }
  }

  lemma {:induction false} NotLow(e: Expr, level: nat)
    requires NOT_LEVEL < level <= UNARY_LEVEL && Canonical(e, level)
    ensures !(e.Unary? && e.unop == Not)
    decreases UNARY_LEVEL - level
  {
    if level < UNARY_LEVEL && !(e.Binary? && Level(e.op) == level) {
      NotLow(e, level + 1);
    }
  }

  /** Operators of a tree are at least as tight as its level. */
  lemma {:induction false} OperatorLevel(e: Expr, level: nat)
    requires level <= PRIMARY_LEVEL && Canonical(e, level) && e.Binary?
    ensures Level(e.op) >= level
    decreases 20 - level
  {
    if level < UNARY_LEVEL && (level == NOT_LEVEL || Level(e.op) != level) {
      OperatorLevel(e, level + 1);
    }
  }

  lemma TighterCanonical(e: Expr, level: nat)
    requires IsLoopLevel(level) && Canonical(e, level + 1)
    ensures Canonical(e, level)
  {
    if e.Binary? {
      OperatorLevel(e, level + 1);
    }
  }

  lemma PrimaryCanonical(e: Expr)
    requires Canonical(e, PRIMARY_LEVEL)
    ensures Canonical(e, CALL_LEVEL)
  {
  }

  lemma UnaryParsed(ts: seq<Token>, pos: nat, op: UnOp, r: Parsed, t: Token, level: nat)
    requires At(ts, pos, t) && PrefixToken(op) == t && !r.expr.Null?
    requires (level == NOT_LEVEL && op == Not && Canonical(r.expr, 3)) || (level == UNARY_LEVEL && op != Not && Canonical(r.expr, UNARY_LEVEL))
    requires Spells(ts, pos + 1, r.pos, Print(r.expr))
    ensures Canonical(Unary(op, r.expr), level) && Spells(ts, pos, r.pos, Print(Unary(op, r.expr)))
  {
    hide Spells;
    SpellsOne(ts, pos, t);
    SpellsThen(ts, pos, pos + 1, r.pos, [t], Print(r.expr));
  }

  lemma {:induction false} LoopPrints(ts: seq<Token>, level: nat, left: Expr, a: nat, pos: nat, error: nat)
    requires IsLoopLevel(level) && pos <= |ts| && !left.Null? && Canonical(left, level) && Spells(ts, a, pos, Print(left))
    ensures var r := ParseLoop(ts, level, left, pos, error);
            r.error == 0 ==> Canonical(r.expr, level) && Spells(ts, a, r.pos, Print(r.expr))
    decreases |ts| - pos, 0
  {
    hide ParseAt, Print, Spells, Canonical;
    if pos < |ts| && ts[pos].Operator? && Level(ts[pos].op) == level {
      var r := ParseAt(ts, level + 1, pos + 1, error);
      if ParseLoop(ts, level, left, pos, error).error == 0 {
        ParsedPrints(ts, level + 1, pos + 1, error);
        var e := Binary(ts[pos].op, left, r.expr, Unset);
        SpellsOne(ts, pos, ts[pos]);
        SpellsThen(ts, a, pos, pos + 1, Print(left), [ts[pos]]);
        SpellsThen(ts, a, pos + 1, r.pos, Print(left) + [ts[pos]], Print(r.expr));
        BinaryTokens(e);
        BinaryCanonical(e, level);
        LoopPrints(ts, level, e, a, r.pos, r.error);
      }
    }
  }

  lemma BinaryCanonical(e: Expr, level: nat)
    requires IsLoopLevel(level) && e.Binary? && Level(e.op) == level && e.operandType == Unset && Canonical(e.left, level) && Canonical(e.right, level + 1)
    ensures Canonical(e, level)
  {
  }

  lemma {:induction false} PostfixPrints(ts: seq<Token>, left: Expr, a: nat, pos: nat, error: nat)
    requires pos <= |ts| && !left.Null? && Canonical(left, CALL_LEVEL) && Spells(ts, a, pos, Print(left))
    ensures var r := ParsePostfix(ts, left, pos, error);
            r.error == 0 ==> Canonical(r.expr, CALL_LEVEL) && Spells(ts, a, r.pos, Print(r.expr))
    decreases |ts| - pos, 0
  {
    hide ParseAt, ParseArguments, Print, Spells, Canonical;
    if ParsePostfix(ts, left, pos, error).error == 0 {
      if At(ts, pos, LParen) {
        ArgumentsPrint(ts, pos + 1, error);
        var r := ParseArguments(ts, pos + 1, error);
        CallSpells(ts, left, a, pos, r.pos, r.arguments.value);
        PostfixPrints(ts, Call(left, r.arguments.value), a, r.pos, r.error);
      } else if At(ts, pos, Dot) {
        FieldSpells(ts, left, a, pos, ts[pos + 1].name);
        PostfixPrints(ts, Field(left, ts[pos + 1].name, {}), a, pos + 2, error);
      } else if At(ts, pos, LBracket) {
        ParsedPrints(ts, 0, pos + 1, error);
        var r := ParseAt(ts, 0, pos + 1, error);
        IndexSpells(ts, left, a, pos, r.pos, r.expr);
        PostfixPrints(ts, Index(left, r.expr), a, r.pos + 1, r.error);
      }
    }
  }

  lemma CallSpells(ts: seq<Token>, left: Expr, a: nat, pos: nat, end: nat, args: seq<Expr>)
    requires At(ts, pos, LParen) && Canonical(left, CALL_LEVEL) && AllCanonical(args)
    requires Spells(ts, a, pos, Print(left)) && Spells(ts, pos + 1, end, PrintAll(args))
    ensures Canonical(Call(left, args), CALL_LEVEL) && Spells(ts, a, end, Print(Call(left, args)))
  {
    hide Spells;
    SpellsOne(ts, pos, LParen);
    SpellsThen(ts, a, pos, pos + 1, Print(left), [LParen]);
    SpellsThen(ts, a, pos + 1, end, Print(left) + [LParen], PrintAll(args));
    CallTokens(left, args);
  }

  lemma FieldSpells(ts: seq<Token>, left: Expr, a: nat, pos: nat, name: string)
    requires At(ts, pos, Dot) && At(ts, pos + 1, Ident(name)) && Canonical(left, CALL_LEVEL) && Spells(ts, a, pos, Print(left))
    ensures Canonical(Field(left, name, {}), CALL_LEVEL) && Spells(ts, a, pos + 2, Print(Field(left, name, {})))
  {
    hide Spells;
    SpellsOne(ts, pos, Dot);
    SpellsOne(ts, pos + 1, Ident(name));
    SpellsThen(ts, pos, pos + 1, pos + 2, [Dot], [Ident(name)]);
    assert [Dot] + [Ident(name)] == [Dot, Ident(name)];
    SpellsThen(ts, a, pos, pos + 2, Print(left), [Dot, Ident(name)]);
    FieldTokens(left, name);
  }

  lemma IndexSpells(ts: seq<Token>, left: Expr, a: nat, pos: nat, end: nat, i: Expr)
    requires At(ts, pos, LBracket) && At(ts, end, RBracket) && Canonical(left, CALL_LEVEL) && Canonical(i, 0)
    requires Spells(ts, a, pos, Print(left)) && Spells(ts, pos + 1, end, Print(i))
    ensures Canonical(Index(left, i), CALL_LEVEL) && Spells(ts, a, end + 1, Print(Index(left, i)))
  {
    hide Spells;
    SpellsOne(ts, pos, LBracket);
    SpellsOne(ts, end, RBracket);
    SpellsThen(ts, a, pos, pos + 1, Print(left), [LBracket]);
    SpellsThen(ts, a, pos + 1, end, Print(left) + [LBracket], Print(i));
    SpellsThen(ts, a, end, end + 1, Print(left) + [LBracket] + Print(i), [RBracket]);
    IndexTokens(left, i);
  }

  lemma CallTokens(f: Expr, args: seq<Expr>)
    ensures Print(Call(f, args)) == Print(f) + [LParen] + PrintAll(args)
  {
  }

  lemma FieldTokens(o: Expr, name: string)
    ensures Print(Field(o, name, {})) == Print(o) + [Dot, Ident(name)]
  {
  }

  lemma IndexTokens(a: Expr, i: Expr)
    ensures Print(Index(a, i)) == Print(a) + [LBracket] + Print(i) + [RBracket]
  {
  }

  lemma {:induction false} ArgumentsPrint(ts: seq<Token>, pos: nat, error: nat)
    requires pos <= |ts|
    ensures var r := ParseArguments(ts, pos, error);
            r.error == 0 ==> r.arguments.Some? && AllCanonical(r.arguments.value) && Spells(ts, pos, r.pos, PrintAll(r.arguments.value))
    decreases |ts| - pos, 30
  {
    hide ParseAt, Print, Spells, Canonical;
    var all := ParseArguments(ts, pos, error);
    if all.error == 0 {
      if At(ts, pos, RParen) {
        SpellsOne(ts, pos, RParen);
      } else {
        ParsedPrints(ts, 0, pos, error);
        var r := ParseAt(ts, 0, pos, error);
        var next := if At(ts, r.pos, Comma) then r.pos + 1 else r.pos;
        ArgumentsPrint(ts, next, r.error);
        var rest := ParseArguments(ts, next, r.error);
        var sep := if rest.arguments.value == [] then [] else [Comma];
        SeparatorSpells(ts, r.pos, sep);
        SpellsThen(ts, pos, r.pos, next, Print(r.expr), sep);
        SpellsThen(ts, pos, next, rest.pos, Print(r.expr) + sep, PrintAll(rest.arguments.value));
        var es := [r.expr] + rest.arguments.value;
        assert es[1..] == rest.arguments.value;
      }
    }
  }

  lemma SeparatorSpells(ts: seq<Token>, a: nat, sep: seq<Token>)
    requires a <= |ts| && (sep == [] || sep == [Comma])
    ensures Spells(ts, a, if At(ts, a, Comma) then a + 1 else a, sep)
  {
    assert [Comma][..0] == [];
    if At(ts, a, Comma) {
      assert ts[a..a + 1] == [Comma];
    } else {
      assert ts[a..a] == [];
    }
  }

  lemma {:induction false} PrimaryPrints(ts: seq<Token>, pos: nat, error: nat)
    requires pos <= |ts|
    ensures var r := ParsePrimary(ts, pos, error);
            r.error == 0 ==> Canonical(r.expr, PRIMARY_LEVEL) && Spells(ts, pos, r.pos, Print(r.expr))
    decreases |ts| - pos, 5
  {
    hide ParseAt, ParseRange, Spells;
    if ParsePrimary(ts, pos, error).error == 0 {
      if pos < |ts| && LiteralOf(ts[pos]).Some? {
        SpellsOne(ts, pos, ts[pos]);
      } else if At(ts, pos, LParen) {
        ParsedPrints(ts, 0, pos + 1, error);
        var r := ParseAt(ts, 0, pos + 1, error);
        SpellsOne(ts, pos, LParen);
        SpellsOne(ts, r.pos, RParen);
        SpellsThen(ts, pos, pos + 1, r.pos, [LParen], Print(r.expr));
        SpellsThen(ts, pos, r.pos, r.pos + 1, [LParen] + Print(r.expr), [RParen]);
      } else {
        RangePrints(ts, pos, error);
      }
    }
  }

  lemma {:induction false} RangePrints(ts: seq<Token>, pos: nat, error: nat)
    requires At(ts, pos, ForWord) && ParseRange(ts, pos + 1, error).error == 0
    ensures var r := ParseRange(ts, pos + 1, error);
            Canonical(r.expr, PRIMARY_LEVEL) && Spells(ts, pos, r.pos, Print(r.expr))
    decreases |ts| - pos, 4
  {
    hide ParseAt, Spells, ParseBounds;
    var p := if At(ts, pos + 1, AnyWord) then pos + 2 else pos + 1;
    var q := if At(ts, p, AllWord) then All else AtLeast(ts[p].value);
    var x := ts[p + 1].name;
    HeadSpells(ts, pos, p, q, x);
    BoundsPrint(ts, q, x, pos, p + 4, error);
  }

  lemma HeadSpells(ts: seq<Token>, pos: nat, p: nat, q: Quantifier, x: string)
    requires At(ts, pos, ForWord) && At(ts, p, QuantifierToken(q)) && !q.Any?
    requires p == pos + 1 || (p == pos + 2 && At(ts, pos + 1, AnyWord))
    requires At(ts, p + 1, Ident(x)) && At(ts, p + 2, InWord) && At(ts, p + 3, LParen)
    ensures Spells(ts, pos, p + 4, Head(q, x))
  {
    hide Spells;
    SpellsOne(ts, pos, ForWord);
    if p == pos + 2 {
      SpellsOne(ts, pos + 1, AnyWord);
      SpellsThen(ts, pos, pos + 1, p, [ForWord], []);
      assert [ForWord] + [] == [ForWord];
    }
    SpellsOne(ts, p, QuantifierToken(q));
    SpellsOne(ts, p + 1, Ident(x));
    SpellsOne(ts, p + 2, InWord);
    SpellsOne(ts, p + 3, LParen);
    SpellsThen(ts, pos, p, p + 1, [ForWord], [QuantifierToken(q)]);
    SpellsThen(ts, pos, p + 1, p + 2, [ForWord] + [QuantifierToken(q)], [Ident(x)]);
    SpellsThen(ts, pos, p + 2, p + 3, [ForWord] + [QuantifierToken(q)] + [Ident(x)], [InWord]);
    SpellsThen(ts, pos, p + 3, p + 4, [ForWord] + [QuantifierToken(q)] + [Ident(x)] + [InWord], [LParen]);
    assert Head(q, x) == [ForWord] + [QuantifierToken(q)] + [Ident(x)] + [InWord] + [LParen];
  }

  lemma {:induction false} BoundsPrint(ts: seq<Token>, q: Quantifier, x: string, a: nat, pos: nat, error: nat)
    requires a < pos <= |ts| && !q.Any? && Spells(ts, a, pos, Head(q, x)) && ParseBounds(ts, q, x, pos, error).error == 0
    ensures var r := ParseBounds(ts, q, x, pos, error);
            Canonical(r.expr, PRIMARY_LEVEL) && Spells(ts, a, r.pos, Print(r.expr))
    decreases |ts| - pos, 30
  {
    hide ParseAt, Spells, Print, Head, Canonical;
    var start := ParseAt(ts, 0, pos, error);
    var end := ParseAt(ts, 0, start.pos + 1, start.error);
    var c := ParseAt(ts, 0, end.pos + 3, end.error);
    ParsedPrints(ts, 0, pos, error);
    ParsedPrints(ts, 0, start.pos + 1, start.error);
    ParsedPrints(ts, 0, end.pos + 3, end.error);
    SpellsOne(ts, start.pos, DotDot);
    SpellsOne(ts, c.pos, RParen);
    MiddleSpells(ts, end.pos);
    SevenSpell(ts, a, pos, start.pos, start.pos + 1, end.pos, end.pos + 3, c.pos, c.pos + 1,
               Head(q, x), Print(start.expr), [DotDot], Print(end.expr), [RParen, Colon, LParen], Print(c.expr), [RParen]);
    WholeRange(q, x, start.expr, end.expr, c.expr);
    RangeCanonical(q, x, start.expr, end.expr, c.expr);
  }

  lemma RangeCanonical(q: Quantifier, x: string, s: Expr, t: Expr, c: Expr)
    requires !q.Any? && Canonical(s, 0) && Canonical(t, 0) && Canonical(c, 0)
    ensures Canonical(Range(q, x, s, t, c), PRIMARY_LEVEL)
  {
  }

  lemma SevenSpell(ts: seq<Token>, p0: nat, p1: nat, p2: nat, p3: nat, p4: nat, p5: nat, p6: nat, p7: nat,
                   h: seq<Token>, x: seq<Token>, d: seq<Token>, y: seq<Token>, m: seq<Token>, z: seq<Token>, r: seq<Token>)
    requires Spells(ts, p0, p1, h) && Spells(ts, p1, p2, x) && Spells(ts, p2, p3, d) && Spells(ts, p3, p4, y)
    requires Spells(ts, p4, p5, m) && Spells(ts, p5, p6, z) && Spells(ts, p6, p7, r)
    ensures Spells(ts, p0, p7, h + x + d + y + m + z + r)
  {
    hide Spells;
    SpellsThen(ts, p0, p1, p2, h, x);
    SpellsThen(ts, p0, p2, p3, h + x, d);
    SpellsThen(ts, p0, p3, p4, h + x + d, y);
    SpellsThen(ts, p0, p4, p5, h + x + d + y, m);
    SpellsThen(ts, p0, p5, p6, h + x + d + y + m, z);
    SpellsThen(ts, p0, p6, p7, h + x + d + y + m + z, r);
  }

  lemma MiddleSpells(ts: seq<Token>, a: nat)
    requires At(ts, a, RParen) && At(ts, a + 1, Colon) && At(ts, a + 2, LParen)
    ensures Spells(ts, a, a + 3, [RParen, Colon, LParen])
  {
    assert ts[a..a + 3] == [RParen, Colon, LParen];
  }

  lemma WholeRange(q: Quantifier, x: string, s: Expr, t: Expr, c: Expr)
    ensures Print(Range(q, x, s, t, c)) == Head(q, x) + Print(s) + [DotDot] + Print(t) + [RParen, Colon, LParen] + Print(c) + [RParen]
  {
  }

  /** Two canonical trees with the same tokens are the same tree. */
  lemma PrintInjective(d: Expr, e: Expr)
    requires Canonical(d, 0) && Canonical(e, 0) && Print(d) == Print(e)
    ensures d == e
  {
    hide ParseAt, Print, Canonical;
    var ts := Print(d);
    assert ts[0..|ts|] == ts;
    ParsePrinted(ts, 0, 0, 0, d);
    ParsePrinted(ts, 0, 0, 0, e);
  }

  /** `any` by itself is refused, although the other parts know it. */
  lemma AnyRefused(ts: seq<Token>, pos: nat, error: nat)
    requires At(ts, pos, ForWord) && At(ts, pos + 1, AnyWord) && pos + 2 < |ts| && ts[pos + 2].Ident?
    ensures ParsePrimary(ts, pos, error) == Parsed(Null, pos + 2, 2)
  {
    hide ParseAt;
  }
}
