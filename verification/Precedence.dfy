/**
 * How operators group without parentheses.  A chain of operands is split at the last of its loosest
 * operators; the tightness of the operators is written out here, set by set.
 */
module Precedence {
  import opened Ast
  import opened Tokens
  import opened Grammar

  /** The operators from the loosest to the tightest. */
  function Tightness(op: BinOp): nat {
    if op in {And} then 0
    else if op in {Or} then 1
    else if op in {EqualEqual, BangEqual, Contains, IContains, StartsWith, IStartsWith, EndsWith, IEndsWith, IEquals, Matches} then 2
    else if op in {Greater, GreaterEqual, Less, LessEqual} then 3
    else if op in {Plus, Minus} then 4
    else if op in {Mult, Div, Mod} then 5
    else if op in {Shl, Shr} then 6
    else if op in {BitAnd} then 7
    else if op in {BitXor} then 8
    else 9
  }

  /** An operand of a chain, with or without `not` in front. */
  datatype Item = Item(negated: bool, operand: Expr)

  /** Operands with the operators between them. */
  datatype Chain = Chain(items: seq<Item>, ops: seq<BinOp>)

  predicate ValidChain(c: Chain) {
    |c.items| == |c.ops| + 1
  }

  /** No operator stands outside the operands but those of the chain, and `not` stands first or behind `and` and `or`. */
  predicate Readable(c: Chain) {
    && ValidChain(c)
    && (forall i <- c.items :: Canonical(i.operand, UNARY_LEVEL))
    && (forall k :: 0 < k < |c.items| && c.items[k].negated ==> c.ops[k - 1] in {And, Or})
  }

  /** The chain in tokens. */
  function Spelled(c: Chain): seq<Token>
    requires ValidChain(c)
    decreases |c.ops|
  {
    (if c.items[0].negated then [NotWord] else []) + Print(c.items[0].operand) +
    if c.ops == [] then [] else [Operator(c.ops[0])] + Spelled(Chain(c.items[1..], c.ops[1..]))
  }

  /** The last of the loosest operators. */
  function Root(ops: seq<BinOp>): (k: nat)
    requires ops != []
    ensures k < |ops|
    ensures forall i :: 0 <= i < |ops| ==> Tightness(ops[k]) <= Tightness(ops[i])
    ensures forall i :: k < i < |ops| ==> Tightness(ops[k]) < Tightness(ops[i])
  {
    if |ops| == 1 then 0
    else
      var k := Root(ops[1..]);
      if Tightness(ops[0]) < Tightness(ops[1..][k]) then 0 else k + 1
  }

  function Before(c: Chain, k: nat): (r: Chain)
    requires ValidChain(c) && k < |c.ops|
    ensures ValidChain(r)
  {
    Chain(c.items[..k + 1], c.ops[..k])
  }

  function Behind(c: Chain, k: nat): (r: Chain)
    requires ValidChain(c) && k < |c.ops|
    ensures ValidChain(r)
  {
    Chain(c.items[k + 1..], c.ops[k + 1..])
  }

  function Negations(c: Chain): nat
    requires ValidChain(c)
  {
    if c.items[0].negated then 1 else 0
  }

  function Plain(c: Chain): (r: Chain)
    requires ValidChain(c)
    ensures ValidChain(r)
  {
    c.(items := c.items[0 := c.items[0].(negated := false)])
  }

  /**
   * The tree of a chain.  The operator at its root is the last of the loosest ones.  `not` is looser than
   * every operator but `and` and `or`.
   */
  function Grouped(c: Chain): Expr
    requires ValidChain(c)
    decreases |c.ops|, Negations(c)
  {
    if c.ops != [] && (c.ops[Root(c.ops)] in {And, Or} || !c.items[0].negated) then
      Binary(c.ops[Root(c.ops)], Grouped(Before(c, Root(c.ops))), Grouped(Behind(c, Root(c.ops))), Unset)
    else if c.items[0].negated then Unary(Not, Grouped(Plain(c)))
    else c.items[0].operand
  }

  // ---------- the tree is one that the parser builds ----------

  /** The level of the loops at which the parser looks for operators of a tightness. */
  function LevelOf(tightness: nat): nat {
    if tightness < 2 then tightness else tightness + 1
  }

  lemma Levels(op: BinOp)
    ensures Level(op) == LevelOf(Tightness(op)) && IsLoopLevel(Level(op))
  {
  }

  /** A tree of a level belongs to the looser ones. */
  lemma {:induction false} Looser(e: Expr, level: nat, looser: nat)
    requires looser <= level <= UNARY_LEVEL && Canonical(e, level)
    requires looser <= NOT_LEVEL < level ==> !(e.Unary? && e.unop == Not)
    ensures Canonical(e, looser)
    decreases level - looser
  {
    if looser < level {
      if level - 1 == NOT_LEVEL {
        PlainCanonical(e, NOT_LEVEL);
      } else {
        TighterCanonical(e, level - 1);
      }
      Looser(e, level - 1, looser);
    }
  }

  lemma Loosen(e: Expr, level: nat, looser: nat)
    requires looser <= level <= UNARY_LEVEL && Canonical(e, level)
    ensures Canonical(e, looser)
  {
    if looser <= NOT_LEVEL < level {
      NotLow(e, level);
    }
    Looser(e, level, looser);
  }

  /** The level of a chain: that of its loosest operator, or of `not` if it begins with one. */
  function ChainLevel(c: Chain): nat
    requires ValidChain(c)
  {
    var level := if c.ops == [] then UNARY_LEVEL else Level(c.ops[Root(c.ops)]);
    if c.items[0].negated && level > NOT_LEVEL then NOT_LEVEL else level
  }

  lemma {:induction false} GroupedCanonical(c: Chain)
    requires Readable(c)
    ensures Canonical(Grouped(c), ChainLevel(c)) && ChainLevel(c) <= UNARY_LEVEL
    decreases |c.ops|, Negations(c)
  {
    if c.ops != [] {
      Levels(c.ops[Root(c.ops)]);
    }
    if c.ops != [] && (c.ops[Root(c.ops)] in {And, Or} || !c.items[0].negated) {
      RootCanonical(c);
    } else if c.items[0].negated {
      GroupedCanonical(Plain(c));
      Loosen(Grouped(Plain(c)), ChainLevel(Plain(c)), 3);
    } else {
      assert c.items[0] in c.items;
    }
  }

  lemma {:induction false} RootCanonical(c: Chain)
    requires Readable(c) && c.ops != [] && (c.ops[Root(c.ops)] in {And, Or} || !c.items[0].negated)
    ensures Canonical(Grouped(c), Level(c.ops[Root(c.ops)]))
    decreases |c.ops|, Negations(c), 0
  {
    hide Canonical;
    var k := Root(c.ops);
    var a, b, level := Before(c, k), Behind(c, k), Level(c.ops[k]);
    PartsReadable(c, k);
    GroupedCanonical(a);
    GroupedCanonical(b);
    PartLevels(c);
    Loosen(Grouped(a), ChainLevel(a), level);
    Loosen(Grouped(b), ChainLevel(b), level + 1);
    Levels(c.ops[k]);
    BinaryCanonical(Grouped(c), level);
  }

  lemma PartsReadable(c: Chain, k: nat)
    requires Readable(c) && k < |c.ops|
    ensures Readable(Before(c, k)) && Readable(Behind(c, k))
  {
    hide Canonical;
    var b := Behind(c, k);
    forall j | 0 < j < |b.items| && b.items[j].negated ensures b.ops[j - 1] in {And, Or} {
      assert c.items[k + 1 + j].negated;
    }
  }

  lemma PartLevels(c: Chain)
    requires Readable(c) && c.ops != [] && (c.ops[Root(c.ops)] in {And, Or} || !c.items[0].negated)
    ensures var k := Root(c.ops); var level := Level(c.ops[k]);
            level <= ChainLevel(Before(c, k)) && level + 1 <= ChainLevel(Behind(c, k))
  {
    hide Canonical;
    var k := Root(c.ops);
    var a, b := Before(c, k), Behind(c, k);
    Levels(c.ops[k]);
    if a.ops != [] {
      Levels(a.ops[Root(a.ops)]);
    }
    if b.ops != [] {
      assert b.ops[Root(b.ops)] == c.ops[k + 1 + Root(b.ops)];
      Levels(b.ops[Root(b.ops)]);
    }
    assert b.items[0].negated ==> c.ops[k] in {And, Or};
  }

  // ---------- and it prints to the chain ----------

  lemma {:induction false} SpelledSplit(c: Chain, k: nat)
    requires ValidChain(c) && k < |c.ops|
    ensures Spelled(c) == Spelled(Before(c, k)) + [Operator(c.ops[k])] + Spelled(Behind(c, k))
    decreases k
  {
    hide Spelled;
    SpelledFirst(c);
    SpelledFirst(Before(c, k));
    if k > 0 {
      var rest, a := Chain(c.items[1..], c.ops[1..]), Before(c, k);
      SpelledSplit(rest, k - 1);
      assert Chain(a.items[1..], a.ops[1..]) == Before(rest, k - 1);
      assert Behind(c, k) == Behind(rest, k - 1);
      assert Spelled(c) == Opening(c) + [Operator(c.ops[0])] + Spelled(Before(rest, k - 1)) + [Operator(c.ops[k])] + Spelled(Behind(c, k));
    }
  }

  /** The first operand in tokens. */
  function Opening(c: Chain): seq<Token>
    requires ValidChain(c)
  {
    (if c.items[0].negated then [NotWord] else []) + Print(c.items[0].operand)
  }

  lemma SpelledFirst(c: Chain)
    requires ValidChain(c)
    ensures c.ops == [] ==> Spelled(c) == Opening(c)
    ensures c.ops != [] ==> Spelled(c) == Opening(c) + [Operator(c.ops[0])] + Spelled(Chain(c.items[1..], c.ops[1..]))
  {
    hide Print;
    if c.ops == [] {
      assert Opening(c) + [] == Opening(c);
    }
  }

  lemma {:induction false} GroupedPrints(c: Chain)
    requires ValidChain(c)
    ensures Print(Grouped(c)) == Spelled(c)
    decreases |c.ops|, Negations(c)
  {
    hide Print, Tightness;
    if c.ops != [] && (c.ops[Root(c.ops)] in {And, Or} || !c.items[0].negated) {
      var k := Root(c.ops);
      GroupedPrints(Before(c, k));
      GroupedPrints(Behind(c, k));
      SpelledSplit(c, k);
      BinaryTokens(Grouped(c));
    } else if c.items[0].negated {
      GroupedPrints(Plain(c));
      NotTokens(Grouped(Plain(c)));
      assert Spelled(c) == [NotWord] + Spelled(Plain(c));
    } else {
      assert [] + Print(c.items[0].operand) + [] == Print(c.items[0].operand);
    }
  }

  lemma NotTokens(e: Expr)
    ensures Print(Unary(Not, e)) == [NotWord] + Print(e)
  {
  }

  // ---------- what the parser makes of a chain ----------

  /**
   * Precedence and associativity, for chains of any length: the parser reads a chain, wherever it stands, as
   * the tree that splits it at the last of its loosest operators, and stops behind it.
   */
  lemma ChainParsed(ts: seq<Token>, pos: nat, error: nat, c: Chain)
    requires Readable(c) && pos <= |ts| && Here(ts, pos, Spelled(c)) && Stops(ts, pos + |Spelled(c)|, 0)
    ensures ParseAt(ts, 0, pos, error) == Parsed(Grouped(c), pos + |Spelled(c)|, error)
  {
    hide ParseAt, Canonical, Print, Spelled, Grouped;
    GroupedCanonical(c);
    GroupedPrints(c);
    Loosen(Grouped(c), ChainLevel(c), 0);
    ParsePrinted(ts, 0, pos, error, Grouped(c));
  }

  /** The chain of three operands. */
  function Three(a: Expr, b: Expr, c: Expr, o1: BinOp, o2: BinOp): (r: Chain)
    ensures ValidChain(r)
  {
    Chain([Item(false, a), Item(false, b), Item(false, c)], [o1, o2])
  }

  /** Two operators: the tighter one groups first, and of two that are equally tight the left one. */
  lemma PairParsed(ts: seq<Token>, pos: nat, error: nat, a: Expr, b: Expr, c: Expr, o1: BinOp, o2: BinOp)
    requires Canonical(a, PRIMARY_LEVEL) && Canonical(b, PRIMARY_LEVEL) && Canonical(c, PRIMARY_LEVEL) && pos <= |ts|
    requires var x := Print(a) + [Operator(o1)] + Print(b) + [Operator(o2)] + Print(c);
             Here(ts, pos, x) && Stops(ts, pos + |x|, 0)
    ensures ParseAt(ts, 0, pos, error).error == error
    ensures ParseAt(ts, 0, pos, error).expr ==
            if Tightness(o1) < Tightness(o2) then Binary(o1, a, Binary(o2, b, c, Unset), Unset)
            else Binary(o2, Binary(o1, a, b, Unset), c, Unset)
  {
    hide ParseAt, Print, Tightness, Canonical, Here, Stops, Spelled, Grouped;
    ThreeReadable(a, b, c, o1, o2);
    ThreeSpelled(a, b, c, o1, o2);
    ThreeGrouped(a, b, c, o1, o2);
    ChainParsed(ts, pos, error, Three(a, b, c, o1, o2));
  }

  lemma ThreeReadable(a: Expr, b: Expr, c: Expr, o1: BinOp, o2: BinOp)
    requires Canonical(a, PRIMARY_LEVEL) && Canonical(b, PRIMARY_LEVEL) && Canonical(c, PRIMARY_LEVEL)
    ensures Readable(Three(a, b, c, o1, o2))
  {
    hide Canonical;
    PrimaryLooser(a);
    PrimaryLooser(b);
    PrimaryLooser(c);
  }

  lemma PrimaryLooser(e: Expr)
    requires Canonical(e, PRIMARY_LEVEL)
    ensures Canonical(e, UNARY_LEVEL)
  {
    PrimaryCanonical(e);
    PlainCanonical(e, UNARY_LEVEL);
  }

  lemma SpelledStep(x: Item, rest: Chain, op: BinOp)
    requires ValidChain(rest) && !x.negated
    ensures Spelled(Chain([x] + rest.items, [op] + rest.ops)) == Print(x.operand) + [Operator(op)] + Spelled(rest)
  {
    hide Print;
    var c := Chain([x] + rest.items, [op] + rest.ops);
    assert c.items[1..] == rest.items && c.ops[1..] == rest.ops;
  }

  lemma ThreeSpelled(a: Expr, b: Expr, c: Expr, o1: BinOp, o2: BinOp)
    ensures Spelled(Three(a, b, c, o1, o2)) == Print(a) + [Operator(o1)] + Print(b) + [Operator(o2)] + Print(c)
  {
    hide Print, Spelled;
    var x, y, z := Item(false, a), Item(false, b), Item(false, c);
    LastSpelled(z);
    assert [y] + [z] == [y, z] && [o2] + [] == [o2] && [x] + [y, z] == [x, y, z] && [o1] + [o2] == [o1, o2];
    SpelledStep(y, Chain([z], []), o2);
    SpelledStep(x, Chain([y, z], [o2]), o1);
  }

  lemma LastSpelled(x: Item)
    requires !x.negated
    ensures Spelled(Chain([x], [])) == Print(x.operand)
  {
    hide Print;
  }

  lemma ThreeGrouped(a: Expr, b: Expr, c: Expr, o1: BinOp, o2: BinOp)
    ensures Grouped(Three(a, b, c, o1, o2)) ==
            if Tightness(o1) < Tightness(o2) then Binary(o1, a, Binary(o2, b, c, Unset), Unset)
            else Binary(o2, Binary(o1, a, b, Unset), c, Unset)
  {
    hide Tightness;
    var x, y, z := Item(false, a), Item(false, b), Item(false, c);
    var chain := Chain([x, y, z], [o1, o2]);
    assert Grouped(Chain([x], [])) == a && Grouped(Chain([y], [])) == b && Grouped(Chain([z], [])) == c;
    assert Before(Chain([y, z], [o2]), 0) == Chain([y], []) && Behind(Chain([y, z], [o2]), 0) == Chain([z], []);
    assert Before(Chain([x, y], [o1]), 0) == Chain([x], []) && Behind(Chain([x, y], [o1]), 0) == Chain([y], []);
    assert Before(chain, 0) == Chain([x], []) && Behind(chain, 0) == Chain([y, z], [o2]);
    assert Before(chain, 1) == Chain([x, y], [o1]) && Behind(chain, 1) == Chain([z], []);
    assert Grouped(Chain([y, z], [o2])) == Binary(o2, b, c, Unset);
    assert Grouped(Chain([x, y], [o1])) == Binary(o1, a, b, Unset);
  }

  // ---------- prefix operators ----------

  /** The prefix operators with their tokens. */
  const PREFIXES: seq<(Token, UnOp)> := [(BangSign, Bang), (Tilde, BitNot), (Operator(Minus), Negate), (HashSign, Hash)]

  /**
   * A prefix operator takes the operand behind it, prefix operators, calls, fields and indexes included, and
   * no binary operator: with its operand it is an operand of a chain.
   */
  lemma PrefixParsed(ts: seq<Token>, pos: nat, error: nat, k: nat, u: Expr, b: Expr, op: BinOp)
    requires k < |PREFIXES| && Canonical(u, UNARY_LEVEL) && Canonical(b, UNARY_LEVEL) && pos <= |ts|
    requires var x := [PREFIXES[k].0] + Print(u) + [Operator(op)] + Print(b); Here(ts, pos, x) && Stops(ts, pos + |x|, 0)
    ensures ParseAt(ts, 0, pos, error).expr == Binary(op, Unary(PREFIXES[k].1, u), b, Unset)
  {
    hide ParseAt, Print, Canonical, Here, Stops, Spelled, Grouped;
    PrefixOperand(k, u);
    var e := Unary(PREFIXES[k].1, u);
    var x, y := Item(false, e), Item(false, b);
    var c := Chain([x, y], [op]);
    LastSpelled(y);
    assert [x] + [y] == [x, y] && [op] + [] == [op];
    SpelledStep(x, Chain([y], []), op);
    ChainParsed(ts, pos, error, c);
    TwoGrouped(x, y, op);
  }

  lemma PrefixOperand(k: nat, u: Expr)
    requires k < |PREFIXES| && Canonical(u, UNARY_LEVEL)
    ensures var e := Unary(PREFIXES[k].1, u); Canonical(e, UNARY_LEVEL) && Print(e) == [PREFIXES[k].0] + Print(u)
  {
    hide Print;
    PrefixPrints(k, u);
  }

  lemma PrefixPrints(k: nat, u: Expr)
    requires k < |PREFIXES|
    ensures Print(Unary(PREFIXES[k].1, u)) == [PREFIXES[k].0] + Print(u)
  {
  }

  lemma TwoGrouped(x: Item, y: Item, op: BinOp)
    requires !x.negated && !y.negated
    ensures Grouped(Chain([x, y], [op])) == Binary(op, x.operand, y.operand, Unset)
  {
    assert Before(Chain([x, y], [op]), 0) == Chain([x], []) && Behind(Chain([x, y], [op]), 0) == Chain([y], []);
    assert Grouped(Chain([x], [])) == x.operand && Grouped(Chain([y], [])) == y.operand;
  }

  /** `not` reaches as far as the next `and` or `or`. */
  lemma NotParsed(ts: seq<Token>, pos: nat, error: nat, a: Expr, b: Expr, op: BinOp)
    requires Canonical(a, UNARY_LEVEL) && Canonical(b, UNARY_LEVEL) && pos <= |ts|
    requires var x := [NotWord] + Print(a) + [Operator(op)] + Print(b); Here(ts, pos, x) && Stops(ts, pos + |x|, 0)
    ensures ParseAt(ts, 0, pos, error).expr ==
            if op in {And, Or} then Binary(op, Unary(Not, a), b, Unset) else Unary(Not, Binary(op, a, b, Unset))
  {
    hide ParseAt, Print, Canonical, Here, Stops, Spelled, Grouped;
    var x, y := Item(true, a), Item(false, b);
    var c := Chain([x, y], [op]);
    NotSpelled(a, y, op);
    ChainParsed(ts, pos, error, c);
    NotGrouped(a, y, op);
  }

  lemma NotSpelled(a: Expr, y: Item, op: BinOp)
    requires !y.negated
    ensures Spelled(Chain([Item(true, a), y], [op])) == [NotWord] + Print(a) + [Operator(op)] + Print(y.operand)
  {
    hide Print;
    var c := Chain([Item(true, a), y], [op]);
    assert c.items[1..] == [y] && c.ops[1..] == [];
    LastSpelled(y);
  }

  lemma NotGrouped(a: Expr, y: Item, op: BinOp)
    requires !y.negated
    ensures Grouped(Chain([Item(true, a), y], [op])) ==
            if op in {And, Or} then Binary(op, Unary(Not, a), y.operand, Unset) else Unary(Not, Binary(op, a, y.operand, Unset))
  {
    var x, p := Item(true, a), Item(false, a);
    var c := Chain([x, y], [op]);
    assert Grouped(Chain([y], [])) == y.operand && Grouped(Chain([p], [])) == a;
    if op in {And, Or} {
      assert Before(c, 0) == Chain([x], []) && Behind(c, 0) == Chain([y], []);
      assert Plain(Chain([x], [])) == Chain([p], []);
      assert Grouped(Chain([x], [])) == Unary(Not, a);
    } else {
      assert Plain(c) == Chain([p, y], [op]);
      TwoGrouped(p, y, op);
    }
  }

  // ---------- operands ----------

  /** The primary operands: literals, and chains in parentheses. */
  lemma PrimaryOperands(l: Literal, c: Chain)
    requires Readable(c)
    ensures Canonical(Lit(l), PRIMARY_LEVEL) && Canonical(Grouping(Grouped(c)), PRIMARY_LEVEL)
    ensures Print(Grouping(Grouped(c))) == [LParen] + Spelled(c) + [RParen]
    ensures Print(Lit(l)) == match l
                             case Identifier(x) => [Ident(x)]
                             case Integer(n) => [Token.Number(n)]
                             case Text(s) => [Str(s)]
                             case Pattern(p, m) => [Token.Regex(p, m)]
                             case Boolean(b) => [Truth(b)]
  {
    hide Spelled, Grouped;
    ChainCanonical(c);
    GroupedPrints(c);
  }

  /** A `for`, whose bounds and condition are chains: first the start, then the end of the range. */
  lemma ForOperand(q: Quantifier, x: string, s: Chain, t: Chain, c: Chain)
    requires !q.Any? && Readable(s) && Readable(t) && Readable(c)
    ensures var e := Range(q, x, Grouped(s), Grouped(t), Grouped(c));
            && Canonical(e, PRIMARY_LEVEL)
            && Print(e) == [ForWord, if q.All? then AllWord else Token.Number(q.count), Ident(x), InWord, LParen] + Spelled(s) +
                           [DotDot] + Spelled(t) + [RParen, Colon, LParen] + Spelled(c) + [RParen]
  {
    hide Spelled, Grouped;
    ChainCanonical(s);
    ChainCanonical(t);
    ChainCanonical(c);
    GroupedPrints(s);
    GroupedPrints(t);
    GroupedPrints(c);
    RangeCanonical(q, x, Grouped(s), Grouped(t), Grouped(c));
  }

  /** Behind an operand: a field, an index and arguments; index and arguments are chains. */
  lemma PostfixOperands(f: Expr, name: string, c: Chain, d: Chain)
    requires Canonical(f, CALL_LEVEL) && Readable(c) && Readable(d)
    ensures Canonical(Field(f, name, {}), CALL_LEVEL) && Print(Field(f, name, {})) == Print(f) + [Dot, Ident(name)]
    ensures var e := Index(f, Grouped(c)); Canonical(e, CALL_LEVEL) && Print(e) == Print(f) + [LBracket] + Spelled(c) + [RBracket]
    ensures var e := Call(f, []); Canonical(e, CALL_LEVEL) && Print(e) == Print(f) + [LParen, RParen]
    ensures var e := Call(f, [Grouped(c), Grouped(d)]);
            Canonical(e, CALL_LEVEL) && Print(e) == Print(f) + [LParen] + Spelled(c) + [Comma] + Spelled(d) + [RParen]
  {
    hide Spelled, Grouped, Print, PrintAll, AllCanonical, Canonical;
    ChainCanonical(c);
    ChainCanonical(d);
    GroupedPrints(c);
    GroupedPrints(d);
    NoArgumentTokens();
    TwoArguments(Grouped(c), Grouped(d));
    PostfixCanonical(f, name, Grouped(c), []);
    PostfixCanonical(f, name, Grouped(c), [Grouped(c), Grouped(d)]);
    assert Print(f) + [LParen] + [RParen] == Print(f) + [LParen, RParen];
  }

  lemma PostfixCanonical(f: Expr, name: string, i: Expr, args: seq<Expr>)
    requires Canonical(f, CALL_LEVEL) && Canonical(i, 0) && AllCanonical(args)
    ensures Canonical(Field(f, name, {}), CALL_LEVEL) && Print(Field(f, name, {})) == Print(f) + [Dot, Ident(name)]
    ensures Canonical(Index(f, i), CALL_LEVEL) && Print(Index(f, i)) == Print(f) + [LBracket] + Print(i) + [RBracket]
    ensures Canonical(Call(f, args), CALL_LEVEL) && Print(Call(f, args)) == Print(f) + [LParen] + PrintAll(args)
  {
  }

  lemma NoArgumentTokens()
    ensures AllCanonical([]) && PrintAll([]) == [RParen]
  {
  }

  lemma TwoArguments(a: Expr, b: Expr)
    requires Canonical(a, 0) && Canonical(b, 0)
    ensures AllCanonical([a, b]) && PrintAll([a, b]) == Print(a) + [Comma] + Print(b) + [RParen]
  {
    hide Print;
    assert [a, b][1..] == [b] && [b][1..] == [];
    assert AllCanonical([]) && AllCanonical([b]);
    assert PrintAll([b]) == Print(b) + [RParen];
  }

  lemma ChainCanonical(c: Chain)
    requires Readable(c)
    ensures Canonical(Grouped(c), 0)
  {
    hide Canonical, Grouped;
    GroupedCanonical(c);
    Loosen(Grouped(c), ChainLevel(c), 0);
  }
}
