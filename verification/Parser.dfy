/** The parser as the program writes it: a cursor over the tokens and a sticky error, updated in place. */
module Parser {
  import opened Words
  import opened Wrappers
  import opened Ast
  import opened Tokens
  import opened Grammar
  import opened Statements

  class TokenParser {
    const tokens: seq<Token>
    var current: nat
    var error: nat

    ghost predicate Valid()
      reads this
    {
      current <= |tokens|
    }

    constructor (tokens: seq<Token>)
      ensures Valid() && this.tokens == tokens && current == 0 && error == 0
    {
      this.tokens, current, error := tokens, 0, 0;
    }

    method Match(t: Token) returns (matched: bool)
      requires Valid()
      modifies this`current
      ensures Valid() && matched == At(tokens, old(current), t)
      ensures current == if matched then old(current) + 1 else old(current)
    {
      matched := current < |tokens| && tokens[current] == t;
      if matched {
        current := current + 1;
      }
    }

    /** Advances over the token, or sets the error. */
    method Consume(t: Token, code: nat) returns (ok: bool)
      requires Valid()
      modifies this
      ensures Valid() && ok == At(tokens, old(current), t)
      ensures current == (if ok then old(current) + 1 else old(current)) && error == if ok then old(error) else code
    {
      ok := Match(t);
      if !ok {
        error := code;
      }
    }

    method ConsumeIdentifier() returns (name: Option<string>)
      requires Valid()
      modifies this
      ensures Valid() && name == if old(current) < |tokens| && tokens[old(current)].Ident? then Some(tokens[old(current)].name) else None
      ensures current == if name.Some? then old(current) + 1 else old(current)
      ensures error == if name.Some? then old(error) else UNEXPECTED_TOKEN
    {
      if current < |tokens| && tokens[current].Ident? {
        name := Some(tokens[current].name);
        current := current + 1;
      } else {
        name := None;
        error := UNEXPECTED_TOKEN;
      }
    }

    /** The expression functions, one for each level. */
    method Expression(level: nat) returns (e: Expr)
      requires Valid() && level <= PRIMARY_LEVEL
      modifies this
      ensures Valid() && Parsed(e, current, error) == old(ParseAt(tokens, level, current, error))
      decreases |tokens| - current, 20 - level, 1
    {
      hide ParsePrimary, ParsePostfix, ParseLoop;
      if level == NOT_LEVEL {
        var not := Match(NotWord);
        e := Expression(3);
        if not && !e.Null? {
          e := Unary(Not, e);
        }
      } else if level < UNARY_LEVEL {
        e := BinaryLevel(level);
      } else if level == UNARY_LEVEL {
        if current < |tokens| && PrefixOp(tokens[current]).Some? {
          var op := PrefixOp(tokens[current]).value;
          current := current + 1;
          e := Expression(UNARY_LEVEL);
          if !e.Null? {
            e := Unary(op, e);
          }
        } else {
          e := Expression(CALL_LEVEL);
        }
      } else if level == CALL_LEVEL {
        e := CallExpression();
      } else {
        e := Primary();
      }
    }

    /** Operands of the next level, folded to the left by the operators of this one. */
    method BinaryLevel(level: nat) returns (e: Expr)
      requires Valid() && IsLoopLevel(level)
      modifies this
      ensures Valid() && Parsed(e, current, error) == old(ParseAt(tokens, level, current, error))
      decreases |tokens| - current, 20 - level, 0
    {
      hide ParseAt, ParseLoop;
      UnfoldLevel(tokens, level, current, error);
      ghost var result := ParseAt(tokens, level, current, error);
      e := Expression(level + 1);
      if e.Null? {
        return;
      }
      while current < |tokens| && tokens[current].Operator? && Level(tokens[current].op) == level
        invariant Valid() && old(current) < current && !e.Null?
        invariant ParseLoop(tokens, level, e, current, error) == result
        decreases |tokens| - current
      {
        var op := tokens[current].op;
        LoopTurns(tokens, level, e, current, error, op);
        current := current + 1;
        var right := Expression(level + 1);
        if right.Null? {
          e := Null;
          return;
        }
        e := Binary(op, e, right, Unset);
      }
      LoopEnds(tokens, level, e, current, error);
    }

    method CallExpression() returns (e: Expr)
      requires Valid()
      modifies this
      ensures Valid() && Parsed(e, current, error) == old(ParseAt(tokens, CALL_LEVEL, current, error))
      decreases |tokens| - current, 20 - CALL_LEVEL, 0
    {
      hide ParseAt, ParsePostfix, ParsePrimary;
      UnfoldCall(tokens, current, error);
      ghost var result := ParseAt(tokens, CALL_LEVEL, current, error);
      e := Primary();
      if e.Null? {
        return;
      }
      var more := true;
      while more
        invariant Valid() && old(current) < current && !e.Null?
        invariant if more then ParsePostfix(tokens, e, current, error) == result else Parsed(e, current, error) == result
        decreases |tokens| - current, more
      {
        PostfixCases(tokens, e, current, error);
        if current < |tokens| && (tokens[current] == LParen || tokens[current] == Dot || tokens[current] == LBracket) {
          e := Postfix(e);
          if e.Null? {
            return;
          }
        } else {
          more := false;
        }
      }
    }

    /** One call, field or index behind `left`. */
    method Postfix(left: Expr) returns (e: Expr)
      requires Valid() && !left.Null? && current < |tokens|
      requires tokens[current] == LParen || tokens[current] == Dot || tokens[current] == LBracket
      modifies this
      ensures Valid() && old(current) < current
      ensures old(ParsePostfix(tokens, left, current, error)) ==
              if e.Null? then Parsed(Null, current, error) else ParsePostfix(tokens, e, current, error)
      decreases |tokens| - current, 2, 0
    {
      hide ParseAt, ParsePostfix, ParseArguments;
      e := Null;
      if tokens[current] == LParen {
        CallTurns(tokens, left, current, error);
        current := current + 1;
        var args := FinishCall();
        if args.Some? {
          e := Call(left, args.value);
        }
      } else if tokens[current] == Dot {
        FieldCases(tokens, left, current, error);
        current := current + 1;
        var name := ConsumeIdentifier();
        if name.Some? {
          e := Field(left, name.value, {});
        }
      } else {
        IndexTurns(tokens, left, current, error);
        current := current + 1;
        var i := Expression(0);
        if !i.Null? {
          var closed := Consume(RBracket, UNTERMINATED);
          if closed {
            e := Index(left, i);
          }
        }
      }
    }

    /** The arguments of a call; a comma after each of them is skipped. */
    method FinishCall() returns (args: Option<seq<Expr>>)
      requires Valid()
      modifies this
      ensures Valid() && ParsedArguments(args, current, error) == old(ParseArguments(tokens, current, error))
      decreases |tokens| - current, 30, 0
    {
      hide ParseAt;
      ghost var result := ParseArguments(tokens, current, error);
      var collected: seq<Expr> := [];
      BehindNone(result);
      while !(current < |tokens| && tokens[current] == RParen)
        invariant Valid() && old(current) <= current
        invariant Behind(collected, ParseArguments(tokens, current, error)) == result
        decreases |tokens| - current
      {
        var arg := Expression(0);
        if arg.Null? {
          return None;
        }
        var _ := Match(Comma);
        BehindOne(collected, arg, ParseArguments(tokens, current, error));
        collected := collected + [arg];
      }
      var _ := Consume(RParen, UNTERMINATED);
      assert collected + [] == collected;
      args := Some(collected);
    }

    method Primary() returns (e: Expr)
      requires Valid()
      modifies this
      ensures Valid() && Parsed(e, current, error) == old(ParsePrimary(tokens, current, error))
      decreases |tokens| - current, 5, 0
    {
      hide ParseAt, ParseRange;
      if current < |tokens| && LiteralOf(tokens[current]).Some? {
        e := Lit(LiteralOf(tokens[current]).value);
        current := current + 1;
        return;
      }
      var open := Match(LParen);
      if open {
        var inner := Expression(0);
        var closed := Consume(RParen, UNTERMINATED);
        e := if closed then Grouping(inner) else Null;
        return;
      }
      var range := Match(ForWord);
      if range {
        e := RangeExpression();
        return;
      }
      error := INVALID_SYNTAX;
      e := Null;
    }

    /** After `for`: quantifier, variable, bounds and condition. */
    method RangeExpression() returns (e: Expr)
      requires Valid()
      modifies this
      ensures Valid() && Parsed(e, current, error) == old(ParseRange(tokens, current, error))
      decreases |tokens| - current, 4, 0
    {
      hide ParseAt, ParseBounds;
      var q := Any;
      e := Null;
      var _ := Match(AnyWord);
      var all := Match(AllWord);
      if all {
        q := All;
      } else if current < |tokens| && tokens[current].Number? {
        q := AtLeast(tokens[current].value);
        current := current + 1;
      } else {
        error := INVALID_SYNTAX;
        return;
      }
      var x := ConsumeIdentifier();
      if x.None? { return; }
      var ok := Consume(InWord, UNEXPECTED_TOKEN);
      if !ok { return; }
      ok := Consume(LParen, UNEXPECTED_TOKEN);
      if !ok { return; }
      e := Bounds(q, x.value);
    }

    /** The tokens between the range and the condition of a `for`. */
    method OpenCondition() returns (ok: bool)
      requires Valid()
      modifies this
      ensures Valid() && ok == (At(tokens, old(current), RParen) && At(tokens, old(current) + 1, Colon) && At(tokens, old(current) + 2, LParen))
      ensures current == old(current) + if !At(tokens, old(current), RParen) then 0 else if !At(tokens, old(current) + 1, Colon) then 1
                                        else if !At(tokens, old(current) + 2, LParen) then 2 else 3
      ensures error == if ok then old(error) else UNEXPECTED_TOKEN
    {
      ok := Consume(RParen, UNEXPECTED_TOKEN);
      if !ok { return; }
      ok := Consume(Colon, UNEXPECTED_TOKEN);
      if !ok { return; }
      ok := Consume(LParen, UNEXPECTED_TOKEN);
    }

    method Bounds(q: Quantifier, x: string) returns (e: Expr)
      requires Valid()
      modifies this
      ensures Valid() && Parsed(e, current, error) == old(ParseBounds(tokens, q, x, current, error))
      decreases |tokens| - current, 30, 0
    {
      hide ParseAt, At;
      e := Null;
      var start := Expression(0);
      if start.Null? { return; }
      var ok := Consume(DotDot, UNEXPECTED_TOKEN);
      if !ok { return; }
      var end := Expression(0);
      if end.Null? { return; }
      ok := OpenCondition();
      if !ok { return; }
      var condition := Expression(0);
      ok := Consume(RParen, UNEXPECTED_TOKEN);
      if ok {
        e := Range(q, x, start, end, condition);
      }
    }

    // ---------- statements ----------

    method Body() returns (e: Expr)
      requires Valid()
      modifies this
      ensures Valid() && Parsed(e, current, error) == old(ParseBody(tokens, current, error))
    {
      hide ParseAt;
      e := Null;
      var ok := Consume(LBrace, UNEXPECTED_TOKEN);
      if !ok { return; }
      var inner := Expression(0);
      if inner.Null? { return; }
      ok := Consume(RBrace, INVALID_SYNTAX);
      if ok {
        e := inner;
      }
    }

    /** The optional event type after a colon. */
    method Event() returns (ok: bool, event: Option<string>)
      requires Valid()
      modifies this
      ensures Valid() && ParsedEvent(ok, event, current) == old(ParseEvent(tokens, current))
      ensures error == if ok then old(error) else UNEXPECTED_TOKEN
    {
      ok, event := true, None;
      var colon := Match(Colon);
      if colon {
        event := ConsumeIdentifier();
        ok := event.Some?;
      }
    }

    method Rule(isPrivate: bool) returns (s: Option<Statement>)
      requires Valid()
      modifies this
      ensures Valid() && ParsedStatement(s, current, error) == old(ParseRule(tokens, isPrivate, current, error))
    {
      hide ParseBody, ParseEvent;
      s := None;
      var name := ConsumeIdentifier();
      if name.None? { return; }
      var ok, event := Event();
      if !ok { return; }
      var body := Body();
      if !body.Null? {
        s := Some(Declare(name.value, event, body, isPrivate));
      }
    }

    /** The members of a sequence; a comma after each of them is skipped. */
    method Members() returns (members: Option<seq<Member>>)
      requires Valid()
      modifies this
      ensures Valid() && ParsedMembers(members, current, error) == old(ParseMembers(tokens, current, error))
    {
      hide ParseBody, ParseEvent;
      ghost var result := ParseMembers(tokens, current, error);
      var collected: seq<Member> := [];
      PrependNone(result);
      while current < |tokens| && (tokens[current].Ident? || tokens[current] == LBrace || tokens[current] == Colon)
        invariant Valid()
        invariant Prepend(collected, ParseMembers(tokens, current, error)) == result
        decreases |tokens| - current
      {
        var m := Member();
        if m.None? {
          return None;
        }
        PrependOne(collected, m.value, ParseMembers(tokens, current, error));
        collected := collected + [m.value];
      }
      assert collected + [] == collected;
      members := Some(collected);
    }

    method Member() returns (m: Option<Member>)
      requires Valid() && StartsMember(tokens, current)
      modifies this
      ensures Valid() && (m.Some? ==> old(current) < current)
      ensures old(ParseMembers(tokens, current, error)) ==
              if m.None? then ParsedMembers(None, current, error)
              else Prepend([m.value], ParseMembers(tokens, current, error))
    {
      hide ParseBody;
      if tokens[current].Ident? {
        m := Some(Reference(tokens[current].name));
        current := current + 1;
      } else {
        m := None;
        var ok, event := Event();
        if !ok { return; }
        BodyAdvances(tokens, current, error);
        var body := Body();
        if body.Null? { return; }
        m := Some(Anonymous(event, body));
      }
      var _ := Match(Comma);
    }

    method SequenceStatement() returns (s: Option<Statement>)
      requires Valid()
      modifies this
      ensures Valid() && ParsedStatement(s, current, error) == old(ParseSequence(tokens, current, error))
    {
      hide ParseMembers;
      s := None;
      var name := ConsumeIdentifier();
      if name.None? { return; }
      var span := Span();
      if span.None? { return; }
      var ok := Consume(LBracket, UNEXPECTED_TOKEN);
      if !ok { return; }
      var members := Members();
      if members.None? { return; }
      ok := Consume(RBracket, INVALID_SYNTAX);
      if ok {
        s := Some(Sequence(name.value, span.value, members.value));
      }
    }

    /** The optional time limit of a sequence. */
    method Span() returns (span: Option<word>)
      requires Valid()
      modifies this
      ensures Valid() && ParsedSpan(span, current) == old(ParseSpan(tokens, current))
      ensures error == if span.Some? then old(error) else UNEXPECTED_TOKEN
    {
      span := Some(0);
      var colon := Match(Colon);
      if colon {
        if !(current < |tokens| && tokens[current].Number?) {
          error := UNEXPECTED_TOKEN;
          return None;
        }
        var n := tokens[current].value;
        current := current + 1;
        var unit := ConsumeIdentifier();
        if unit.None? {
          return None;
        }
        if |unit.value| != 1 || (unit.value[0] != 's' && unit.value[0] != 'm') {
          error := UNEXPECTED_TOKEN;
          return None;
        }
        span := Some(if unit.value[0] == 'm' then Wrap(n * SPAN_MINUTE) else n);
      }
    }

    method Statement() returns (s: Option<Statement>)
      requires Valid()
      modifies this
      ensures Valid() && ParsedStatement(s, current, error) == old(ParseStatement(tokens, current, error))
    {
      hide ParseRule, ParseSequence;
      s := None;
      var matched := Match(RuleWord);
      if matched {
        s := Rule(false);
        return;
      }
      matched := Match(PrivateWord);
      if matched {
        var ok := Consume(RuleWord, UNEXPECTED_TOKEN);
        if ok {
          s := Rule(true);
        }
        return;
      }
      matched := Match(SequenceWord);
      if matched {
        s := SequenceStatement();
        return;
      }
      matched := Match(EventWord);
      if matched {
        var name := ConsumeIdentifier();
        if name.Some? {
          s := Some(Import(name.value));
        }
        return;
      }
      error := UNEXPECTED_TOKEN;
    }

    /** `ac_psr_parse`: statements up to the end of the file; no tree if an error was set. */
    method Parse() returns (program: Option<seq<Statement>>)
      requires Valid() && current == 0 && error == 0
      modifies this
      ensures Valid() && program == ParseProgram(tokens, 0, 0)
    {
      hide ParseStatement;
      ghost var result := ParseProgram(tokens, 0, 0);
      var collected, done := [], false;
      JoinedNone(result);
      while !done
        invariant Valid()
        invariant if done then (if error == 0 then Some(collected) else None) == result
                  else Joined(collected, ParseProgram(tokens, current, error)) == result
        decreases |tokens| - current, !done
      {
        done := Match(EndOfFile);
        if done {
          assert collected + [] == collected;
        } else {
          var s := Statement();
          if s.None? {
            done := true;
          } else {
            JoinedOne(collected, s.value, ParseProgram(tokens, current, error));
            collected := collected + [s.value];
          }
        }
      }
      program := if error == 0 then Some(collected) else None;
    }
  }

  lemma LoopEnds(ts: seq<Token>, level: nat, e: Expr, pos: nat, error: nat)
    requires level < UNARY_LEVEL && pos <= |ts| && !e.Null?
    requires !(pos < |ts| && ts[pos].Operator? && Level(ts[pos].op) == level)
    ensures ParseLoop(ts, level, e, pos, error) == Parsed(e, pos, error)
  {
  }

  lemma PostfixCases(ts: seq<Token>, e: Expr, pos: nat, error: nat)
    requires pos <= |ts| && !e.Null?
    ensures !(At(ts, pos, LParen) || At(ts, pos, Dot) || At(ts, pos, LBracket)) ==> ParsePostfix(ts, e, pos, error) == Parsed(e, pos, error)
  {
  }

  lemma FieldCases(ts: seq<Token>, e: Expr, pos: nat, error: nat)
    requires At(ts, pos, Dot) && !e.Null?
    ensures ParsePostfix(ts, e, pos, error) ==
            if pos + 1 < |ts| && ts[pos + 1].Ident? then ParsePostfix(ts, Field(e, ts[pos + 1].name, {}), pos + 2, error)
            else Parsed(Null, pos + 1, UNEXPECTED_TOKEN)
  {
  }

  function Behind(before: seq<Expr>, r: ParsedArguments): ParsedArguments {
    if r.arguments.None? then r else r.(arguments := Some(before + r.arguments.value))
  }

  lemma BehindNone(r: ParsedArguments)
    ensures Behind([], r) == r
  {
    if r.arguments.Some? {
      assert [] + r.arguments.value == r.arguments.value;
    }
  }

  lemma PrependNone(r: ParsedMembers)
    ensures Prepend([], r) == r
  {
    if r.members.Some? {
      assert [] + r.members.value == r.members.value;
    }
  }

  lemma JoinedNone(rest: Option<seq<Statement>>)
    ensures Joined([], rest) == rest
  {
    if rest.Some? {
      assert [] + rest.value == rest.value;
    }
  }

  lemma BehindOne(before: seq<Expr>, e: Expr, r: ParsedArguments)
    ensures Behind(before, Behind([e], r)) == Behind(before + [e], r)
  {
    if r.arguments.Some? {
      assert before + ([e] + r.arguments.value) == before + [e] + r.arguments.value;
    }
  }

  lemma PrependOne(before: seq<Member>, m: Member, r: ParsedMembers)
    ensures Prepend(before, Prepend([m], r)) == Prepend(before + [m], r)
  {
    if r.members.Some? {
      assert before + ([m] + r.members.value) == before + [m] + r.members.value;
    }
  }

  lemma JoinedOne(before: seq<Statement>, s: Statement, rest: Option<seq<Statement>>)
    ensures Joined(before, Joined([s], rest)) == Joined(before + [s], rest)
  {
    if rest.Some? {
      assert before + ([s] + rest.value) == before + [s] + rest.value;
    }
  }

  lemma BodyAdvances(ts: seq<Token>, pos: nat, error: nat)
    requires pos <= |ts|
    ensures var r := ParseBody(ts, pos, error); pos <= r.pos && (!r.expr.Null? ==> pos < r.pos)
  {
  }
}
