/**
 * The code the emitter produces, as a function of the expression, the address it starts at, the
 * event module of the rule and the iterator variable in scope.
 */
module Codegen {
  import opened Words
  import opened Wrappers
  import opened Ast
  import opened Instructions

  function UnaryInstr(op: UnOp): Instr {
    match op
    case Bang => Apply1(NotL)
    case Not => Apply1(NotL)
    case BitNot => Apply1(Op1.Not)
    case Negate => Apply1(Neg)
    case Hash => Apply1(StrLen)
  }

  function BinaryInstr(op: BinOp, operandType: Tag): Instr {
    match op
    case And => Apply2(AndL)
    case Or => Apply2(OrL)
    case Plus => Apply2(Add)
    case Minus => Apply2(Sub)
    case Mult => Apply2(Mul)
    case Div => Apply2(Op2.Div)
    case Mod => Apply2(Op2.Mod)
    case Shl => Apply2(Op2.Shl)
    case Shr => Apply2(Op2.Shr)
    case BitAnd => Apply2(Op2.And)
    case BitXor => Apply2(Xor)
    case Pipe => Apply2(Op2.Or)
    case Contains => Apply2(Op2.Contains)
    case IContains => Apply2(Op2.IContains)
    case StartsWith => Apply2(Op2.StartsWith)
    case IStartsWith => Apply2(Op2.IStartsWith)
    case EndsWith => Apply2(Op2.EndsWith)
    case IEndsWith => Apply2(Op2.IEndsWith)
    case IEquals => Apply2(Op2.IEquals)
    case Matches => Instr.Matches
    case Greater => Apply2(Gt)
    case Less => Apply2(Lt)
    case GreaterEqual => Apply2(Gte)
    case LessEqual => Apply2(Lte)
    case EqualEqual =>
      if operandType == String then Apply2(StrEq)
      else if operandType == True || operandType == False then Apply2(BoolEq) else Apply2(IntEq)
    case BangEqual =>
      if operandType == String then Apply2(StrNe)
      else if operandType == True || operandType == False then Apply2(BoolNe) else Apply2(IntNe)
  }

  /** A field whose value is used directly is unwrapped; arrays, structs and functions are not. */
  predicate Unwraps(fieldType: set<Flag>) {
    OfArray !in fieldType && OfStruct !in fieldType && OfFunction !in fieldType
  }

  function LiteralCode(l: Literal, mod: Option<string>, iter: Option<string>): seq<Instr> {
    match l
    case Identifier(x) =>
      if mod.None? then []
      else if mod == Some(x) then [PushModule(x)]
      else if iter == Some(x) then [Load(0)]
      else [RunRule(x)]
    case Integer(w) => [PushInt(w)]
    case Text(s) => [PushString(s)]
    case Pattern(s, f) => [PushString(s), PushInt(f)]
    case Boolean(t) => [PushBool(AsWord(t))]
  }

  /** Where the right operand of a binary operator starts. */
  function RightStart(op: BinOp, b: nat, left: seq<Instr>): nat {
    b + Size(left) + if op == BinOp.And then 15 else 0
  }

  /**
   * The operands of a binary operator.  `and` skips the right operand, with false in its place,
   * unless the left one is true.
   */
  function Operands(op: BinOp, b: nat, left: seq<Instr>, right: seq<Instr>): seq<Instr> {
    if op == BinOp.And then
      var p := RightStart(op, b, left);
      left + [JTrue(Wrap(p)), PushBool(0), Jump(Wrap(p + Size(right)))] + right
    else left + right
  }

  /** The loop head: the test `i < end`, leaving for `exit` when it fails. */
  function LoopHead(exit: nat): seq<Instr> {
    [Load(0), Load(1), Apply2(Lt), JFalse(Wrap(exit)), Pop]
  }

  const LOOP_HEAD_SIZE := 17

  /** Between the condition and the next round, starting at address `q`: leave or go on. */
  function Verdict(quantifier: Quantifier, q: nat): seq<Instr> {
    match quantifier
    case All => [Store(2), Load(2), JFalse(Wrap(q + 10 + 27))]
    case Any => [Store(2), Load(2), JTrue(Wrap(q + 10 + 27))]
    case AtLeast(n) =>
      [Store(2), Load(2), JTrue(Wrap(q + 10 + 10)), Jump(Wrap(q + 53)),
       Pop, Load(3), PushInt(1), Apply2(Add), Store(3),
       Load(3), PushInt(n), Apply2(Gte), JTrue(Wrap(q + 48 + 27))]
  }

  function VerdictSize(quantifier: Quantifier): nat {
    if quantifier.AtLeast? then 53 else 15
  }

  /** `i++` and back to the loop head. */
  function NextRound(head: nat): seq<Instr> {
    [Pop, Load(0), PushInt(1), Apply2(Add), Store(0), Jump(Wrap(head))]
  }

  const NEXT_ROUND_SIZE := 22

  const LOOP_EXIT := [Pop, Load(2)]

  function ConditionStart(b: nat): nat {
    b + 10 + LOOP_HEAD_SIZE
  }

  function LoopExit(quantifier: Quantifier, b: nat, cond: seq<Instr>): nat {
    ConditionStart(b) + Size(cond) + VerdictSize(quantifier) + NEXT_ROUND_SIZE
  }

  /** Everything after the bounds of the range, at address `b`; `cond` is the code of the condition. */
  function LoopCode(quantifier: Quantifier, b: nat, cond: seq<Instr>): seq<Instr> {
    [Store(0), Store(1)] + LoopHead(LoopExit(quantifier, b, cond)) + cond +
    Verdict(quantifier, ConditionStart(b) + Size(cond)) + NextRound(b + 10) + LOOP_EXIT
  }

  /** The code of `e` at address `b`. */
  function Code(e: Expr, mod: Option<string>, iter: Option<string>, b: nat): seq<Instr> {
    match e
    case Binary(op, l, r, tag) =>
      var left := Code(l, mod, iter, b);
      var right := Code(r, mod, IterAfter(l, iter), RightStart(op, b, left));
      Operands(op, b, left, right) + [BinaryInstr(op, tag)]
    case Unary(op, r) => Code(r, mod, iter, b) + [UnaryInstr(op)]
    case Grouping(i) => Code(i, mod, iter, b)
    case Lit(l) => LiteralCode(l, mod, iter)
    case Call(f, args) =>
      var pushed := ArgumentsCode(args, mod, iter, b);
      pushed + [PushInt(Wrap(|args|))] +
      Code(f, mod, IterAfterAll(args, iter), b + Size(pushed) + 5) + [Instr.Call]
    case Field(o, name, ty) =>
      Code(o, mod, iter, b) +
      if Unwraps(ty) then [GetField(name), Object] else [GetField(name)]
    case Index(a, i) =>
      var base := Code(a, mod, iter, b);
      base + Code(i, mod, IterAfter(a, iter), b + Size(base)) + [Instr.Index]
    case Range(q, x, s, t, c) =>
      var last := Code(t, mod, Some(x), b);
      var first := Code(s, mod, IterAfter(t, Some(x)), b + Size(last));
      var p := b + Size(last) + Size(first);
      var cond := Code(c, mod, IterAfter(s, IterAfter(t, Some(x))), ConditionStart(p));
      last + first + LoopCode(q, p, cond)
    case Null => []
  }

  /** Arguments are pushed from the last to the first. */
  function ArgumentsCode(es: seq<Expr>, mod: Option<string>, iter: Option<string>, b: nat): seq<Instr> {
    if es == [] then []
    else
      var later := ArgumentsCode(es[1..], mod, iter, b);
      later + Code(es[0], mod, IterAfterAll(es[1..], iter), b + Size(later))
  }

  /** The code of a rule body, ended by the halt instruction. */
  function RuleCode(body: Expr, mod: Option<string>, iter: Option<string>, b: nat): seq<Instr> {
    Code(body, mod, iter, b) + [Halt]
  }

  // ---------- sizes of the fixed fragments ----------

  /** Unfolds the size of a listing by five instructions. */
  lemma SizeStep(listing: seq<Instr>)
    ensures |listing| == 0 ==> Size(listing) == 0
    ensures |listing| >= 5 ==>
              Size(listing) == Width(listing[0]) + Width(listing[1]) + Width(listing[2]) +
                                 Width(listing[3]) + Width(listing[4]) + Size(listing[5..])
    ensures |listing| == 1 ==> Size(listing) == Width(listing[0])
    ensures |listing| == 2 ==> Size(listing) == Width(listing[0]) + Width(listing[1])
    ensures |listing| == 3 ==> Size(listing) == Width(listing[0]) + Width(listing[1]) + Width(listing[2])
  {
    if |listing| >= 5 {
      assert Size(listing[1..]) == Width(listing[1]) + Size(listing[2..]) by { assert listing[1..][1..] == listing[2..]; }
      assert Size(listing[2..]) == Width(listing[2]) + Size(listing[3..]) by { assert listing[2..][1..] == listing[3..]; }
      assert Size(listing[3..]) == Width(listing[3]) + Size(listing[4..]) by { assert listing[3..][1..] == listing[4..]; }
      assert Size(listing[4..]) == Width(listing[4]) + Size(listing[5..]) by { assert listing[4..][1..] == listing[5..]; }
    } else if |listing| == 2 || |listing| == 3 {
      assert listing[1..][1..] == listing[2..];
    }
  }

  lemma FragmentSizes(q: Quantifier, exit: nat, verdict: nat, head: nat)
    ensures Size(LoopHead(exit)) == LOOP_HEAD_SIZE && Size(Verdict(q, verdict)) == VerdictSize(q)
    ensures Size(NextRound(head)) == NEXT_ROUND_SIZE && Size(LOOP_EXIT) == 6
  {
    hide Size, Verdict, Wrap;
    SizeStep(LoopHead(exit));
    SizeStep(LoopHead(exit)[5..]);
    SizeStep(NextRound(head));
    SizeStep(NextRound(head)[5..]);
    SizeStep(LOOP_EXIT);
    VerdictSizes(q, verdict);
  }

  lemma VerdictSizes(q: Quantifier, verdict: nat)
    ensures Size(Verdict(q, verdict)) == VerdictSize(q)
  {
    hide Size, Wrap;
    var v := Verdict(q, verdict);
    SizeStep(v);
    if q.AtLeast? {
      SizeStep(v[5..]);
      assert v[5..][5..] == v[10..];
      SizeStep(v[10..]);
    }
  }
}
