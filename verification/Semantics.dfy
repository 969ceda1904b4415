/**
 * What a rule means: a reference evaluator over the syntax tree.  It knows nothing of addresses,
 * jumps or the stack; it threads the four registers because `for` keeps its state in them.
 */
module Semantics {
  import opened Words
  import opened Wrappers
  import opened CStrings
  import opened Ast
  import opened Machine

  /**
   * The rule table in source form, and what the rules look at while an event is processed.  The last
   * component belongs to the evaluator alone: how many rounds of a loop it grants that lead no nearer the end.
   */
  datatype World = World(rules: seq<Rule>, objects: map<string, Object>, externals: Externals, rounds: nat)

  ghost predicate EmittableWorld(w: World) {
    forall r <- w.rules :: Emittable(r.body)
  }

  datatype Evaluated = Val(value: Value, regs: Registers) | Err(error: ErrorCode) | Lost(reason: Reason)

  datatype EvaluatedAll = Vals(values: seq<Value>, registers: Registers) | Failed(failure: Evaluated)

  function FromComputed(c: Computed, regs: Registers): Evaluated {
    match c
    case Ok(v) => Val(v, regs)
    case Bad(e) => Err(e)
    case Crash(r) => Lost(r)
  }

  function Truth(b: bool): Value {
    Num(AsWord(b))
  }

  // ---------- operators ----------

  predicate ComparesText(op: BinOp, operandType: Tag) {
    match op
    case Contains => true case IContains => true
    case StartsWith => true case IStartsWith => true
    case EndsWith => true case IEndsWith => true
    case IEquals => true
    case EqualEqual => operandType == String
    case BangEqual => operandType == String
    case _ => false
  }

  /** The relation between two texts that an operator names; `i` forms ignore case. */
  predicate TextTest(op: BinOp, s: string, t: string) {
    match op
    case EqualEqual => s == t
    case BangEqual => s != t
    case Contains => Occurs(t, s)
    case IContains => Occurs(Lower(t), Lower(s))
    case StartsWith => HasPrefix(s, t)
    case IStartsWith => HasPrefix(Lower(s), Lower(t))
    case EndsWith => HasSuffix(s, t)
    case IEndsWith => HasSuffix(Lower(s), Lower(t))
    case _ => Lower(s) == Lower(t)
  }

  /** The value of `x op y` on 32-bit unsigned numbers; Booleans are numbers, zero being false. */
  function Arithmetic(op: BinOp, x: word, y: word): Computed {
    match op
    case Plus => Ok(Num(Wrap(x + y)))
    case Minus => Ok(Num(Wrap(x - y)))
    case Mult => Ok(Num(Wrap(x * y)))
    case Div => if y == 0 then Crash(UndefinedArithmetic) else Ok(Num(x / y))
    case Mod => if y == 0 then Crash(UndefinedArithmetic) else Ok(Num(x % y))
    case Shl => if y > 32 then Bad(ERROR_BAD_OPERAND) else if y == 32 then Crash(UndefinedArithmetic) else Ok(Num(ShiftLeft(x, y)))
    case Shr => if y > 32 then Bad(ERROR_BAD_OPERAND) else if y == 32 then Crash(UndefinedArithmetic) else Ok(Num(ShiftRight(x, y)))
    case BitAnd => Ok(Num(Words.BitAnd(x, y)))
    case BitXor => Ok(Num(Words.BitXor(x, y)))
    case Pipe => Ok(Num(Words.BitOr(x, y)))
    case And => Ok(Truth(x != 0 && y != 0))
    case Or => Ok(Truth(x != 0 || y != 0))
    case Greater => Ok(Truth(x > y))
    case Less => Ok(Truth(x < y))
    case GreaterEqual => Ok(Truth(x >= y))
    case LessEqual => Ok(Truth(x <= y))
    case EqualEqual => Ok(Truth(x == y))
    case BangEqual => Ok(Truth(x != y))
    case _ => Crash(WrongKind)
  }

  function Operate(op: BinOp, operandType: Tag, left: Value, right: Value): Computed {
    if ComparesText(op, operandType) then
      if left.Str? && right.Str? then Ok(Truth(TextTest(op, left.s, right.s))) else Crash(WrongKind)
    else if left.Num? && right.Num? then Arithmetic(op, left.w, right.w)
    else Crash(WrongKind)
  }

  function OperateUnary(op: UnOp, v: Value): Computed {
    match op
    case Bang => if v.Num? then Ok(Truth(v.w == 0)) else Crash(WrongKind)
    case Not => if v.Num? then Ok(Truth(v.w == 0)) else Crash(WrongKind)
    case BitNot => if v.Num? then Ok(Num(Words.BitNot(v.w))) else Crash(WrongKind)
    case Negate => if v.Num? then Ok(Num(Wrap(-(v.w as int)))) else Crash(WrongKind)
    case Hash => if v.Str? then Ok(Num(Wrap(|v.s|))) else Crash(WrongKind)
  }

  function Match(x: Externals, subject: Value, regex: Literal): Computed
    requires regex.Pattern?
  {
    if subject.Str? then Ok(Truth(x.regex(regex.modifiers, regex.pattern, subject.s))) else Crash(WrongKind)
  }

  /** A field access ends in the stored value unless the field is a container or a function. */
  function Access(v: Value, name: string, fieldType: set<Flag>): Computed {
    match FieldOf(v, name)
    case Ok(f) =>
      if OfArray in fieldType || OfStruct in fieldType || OfFunction in fieldType then Ok(f) else Unwrap(f)
    case other => other
  }

  // ---------- references to rules ----------

  function IndexOf(rules: seq<Rule>, name: string): Option<nat> {
    IndexFrom(rules, name, 0)
  }

  /** The first rule with this name. */
  function IndexFrom(rules: seq<Rule>, name: string, i: nat): (r: Option<nat>)
    ensures r.Some? ==> i <= r.value < |rules| && rules[r.value].ruleName == name
    ensures r.Some? ==> forall k :: i <= k < r.value ==> rules[k].ruleName != name
    ensures r.None? ==> forall k :: i <= k < |rules| ==> rules[k].ruleName != name
    decreases |rules| - i
  {
    if i >= |rules| then None
    else if rules[i].ruleName == name then Some(i)
    else IndexFrom(rules, name, i + 1)
  }

  // ---------- expressions ----------

  /**
   * The value of `e` in a rule compiled under the module name `mod`.  Without one, identifiers left no code,
   * and have no meaning.  Rules below index `n` may be referred to; `iter` is the loop variable in scope,
   * kept in register 0.
   */
  function Eval(w: World, n: nat, mod: Option<string>, iter: Option<string>, e: Expr, regs: Registers): Evaluated
    requires EmittableWorld(w) && Emittable(e)
    decreases n, 0, e, 1, 0
  {
    match e
    case Binary(op, l, r, tag) =>
      (match Eval(w, n, mod, iter, l, regs)
       case Val(x, regs1) =>
         if op == Matches then FromComputed(Match(w.externals, x, Strip(r).literal), regs1)
         else if op == And && x.Num? && x.w == 0 then Val(Truth(false), regs1)
         else if op == And && !x.Num? then Lost(WrongKind)
         else (match Eval(w, n, mod, IterAfter(l, iter), r, regs1)
               case Val(y, regs2) => FromComputed(Operate(op, tag, x, y), regs2)
               case failed => failed)
       case failed => failed)
    case Unary(op, r) =>
      (match Eval(w, n, mod, iter, r, regs)
       case Val(x, regs1) => FromComputed(OperateUnary(op, x), regs1)
       case failed => failed)
    case Grouping(i) => Eval(w, n, mod, iter, i, regs)
    case Lit(l) => EvalLiteral(w, n, mod, iter, l, regs)
    case Call(f, args) =>
      (match EvalAll(w, n, mod, iter, args, regs)
       case Vals(vs, regs1) =>
         (match Eval(w, n, mod, IterAfterAll(args, iter), f, regs1)
          case Val(c, regs2) => FromComputed(Invoke(w.externals, c, vs), regs2)
          case failed => failed)
       case Failed(failure) => failure)
    case Field(o, name, ty) =>
      (match Eval(w, n, mod, iter, o, regs)
       case Val(x, regs1) => FromComputed(Access(x, name, ty), regs1)
       case failed => failed)
    case Index(a, i) =>
      (match Eval(w, n, mod, iter, a, regs)
       case Val(x, regs1) =>
         (match Eval(w, n, mod, IterAfter(a, iter), i, regs1)
          case Val(y, regs2) => FromComputed(ItemOf(x, y), regs2)
          case failed => failed)
       case failed => failed)
    case Range(q, x, s, t, c) =>
      (match Eval(w, n, mod, Some(x), t, regs)
       case Val(last, regs1) =>
         (match Eval(w, n, mod, IterAfter(t, Some(x)), s, regs1)
          case Val(first, regs2) =>
            Loop(w, n, mod, IterAfter(s, IterAfter(t, Some(x))), q, c, regs2.(r0 := first, r1 := last), w.rounds)
          case failed => failed)
       case failed => failed)
    case Null => Lost(FailedAssertion)
  }

  function EvalLiteral(w: World, n: nat, mod: Option<string>, iter: Option<string>, l: Literal, regs: Registers): Evaluated
    requires EmittableWorld(w)
    decreases n, 0, l, 0, 0
  {
    match l
    case Identifier(x) =>
      if mod.None? then Lost(NoCode)
      else if mod == Some(x) then FromComputed(ModuleOf(w.objects, x), regs)
      else if iter == Some(x) then Val(regs.r0, regs)
      else (match IndexOf(w.rules, x)
            case None => Lost(FailedAssertion)
            case Some(j) =>
              if j < n then (match EvalRule(w, j) case Val(v, _) => Val(v, regs) case failed => failed)
              else Lost(RunawayCode))
    case Integer(v) => Val(Num(v), regs)
    case Text(s) => Val(Str(s), regs)
    case Pattern(_, _) => Lost(WrongKind)
    case Boolean(b) => Val(Truth(b), regs)
  }

  /** Arguments are evaluated from the last to the first; their values come in order. */
  function EvalAll(w: World, n: nat, mod: Option<string>, iter: Option<string>, es: seq<Expr>, regs: Registers): (r: EvaluatedAll)
    requires EmittableWorld(w) && AllEmittable(es)
    ensures r.Vals? ==> |r.values| == |es|
    ensures r.Failed? ==> !r.failure.Val?
    decreases n, 0, es, 1, 0
  {
    if es == [] then Vals([], regs)
    else match EvalAll(w, n, mod, iter, es[1..], regs)
      case Vals(vs, regs1) =>
        (match Eval(w, n, mod, IterAfterAll(es[1..], iter), es[0], regs1)
         case Val(v, regs2) => Vals([v] + vs, regs2)
         case failed => Failed(failed))
      case Failed(failure) => Failed(failure)
  }

  function Remaining(regs: Registers): nat {
    if regs.r0.Num? && regs.r1.Num? && regs.r0.w < regs.r1.w then regs.r1.w - regs.r0.w else 0
  }

  /** After a round whose condition had value `v`: the result if the loop is left. */
  function Decide(quantifier: Quantifier, v: Value, regs: Registers): Option<Evaluated> {
    if !v.Num? then Some(Lost(WrongKind))
    else match quantifier
      case All => if v.w == 0 then Some(Val(v, regs.(r2 := v))) else None
      case Any => if v.w != 0 then Some(Val(v, regs.(r2 := v))) else None
      case AtLeast(k) =>
        if v.w == 0 then None
        else if !regs.r3.Num? then Some(Lost(WrongKind))
        else
          var found := Wrap(regs.r3.w + 1);
          if found >= k then Some(Val(v, regs.(r2 := v, r3 := Num(found)))) else None
  }

  /** The registers once a round is over: the last condition, and the matches if they are counted. */
  function Recorded(quantifier: Quantifier, v: Value, regs: Registers): Registers
    requires v.Num? && (quantifier.AtLeast? && v.w != 0 ==> regs.r3.Num?)
  {
    if quantifier.AtLeast? && v.w != 0 then regs.(r2 := v, r3 := Num(Wrap(regs.r3.w + 1))) else regs.(r2 := v)
  }

  /** The registers of the next round. */
  function Advance(quantifier: Quantifier, v: Value, regs: Registers): Registers
    requires regs.r0.Num? && v.Num? && (quantifier.AtLeast? && v.w != 0 ==> regs.r3.Num?)
  {
    Recorded(quantifier, v, regs).(r0 := Num(Wrap(regs.r0.w + 1)))
  }

  /**
   * The rounds of a `for`: registers 0 and 1 hold the range, 2 the last condition, 3 the matches.  A `for`
   * in the condition uses the same registers, so that a round may lead no nearer to the end; after `k` of
   * those the evaluator gives up.
   */
  function Loop(w: World, n: nat, mod: Option<string>, iter: Option<string>, q: Quantifier, c: Expr, regs: Registers, k: nat): Evaluated
    requires EmittableWorld(w) && Emittable(c)
    decreases n, 0, c, 2, k, Remaining(regs)
  {
    if !regs.r0.Num? || !regs.r1.Num? then Lost(WrongKind)
    else if regs.r0.w >= regs.r1.w then Val(regs.r2, regs)
    else match Eval(w, n, mod, iter, c, regs)
      case Val(v, regs1) =>
        if Decide(q, v, regs1).Some? then Decide(q, v, regs1).value
        else if !regs1.r0.Num? then Lost(WrongKind)
        else
          var next := Advance(q, v, regs1);
          if Remaining(next) < Remaining(regs) then Loop(w, n, mod, iter, q, c, next, k)
          else if k > 0 then Loop(w, n, mod, iter, q, c, next, k - 1)
          else Lost(Endless)
      case failed => failed
  }

  /** A round that decides nothing leads to the next one, if it leads nearer the end or another one is granted. */
  lemma LoopNext(w: World, n: nat, mod: Option<string>, iter: Option<string>, q: Quantifier, c: Expr, regs: Registers, k: nat)
    requires EmittableWorld(w) && Emittable(c) && regs.r0.Num? && regs.r1.Num? && regs.r0.w < regs.r1.w
    requires var v := Eval(w, n, mod, iter, c, regs); v.Val? && Decide(q, v.value, v.regs).None? && v.regs.r0.Num?
    ensures var v := Eval(w, n, mod, iter, c, regs); v.value.Num? && (q.AtLeast? && v.value.w != 0 ==> v.regs.r3.Num?)
    ensures var v := Eval(w, n, mod, iter, c, regs); var next := Advance(q, v.value, v.regs);
            Loop(w, n, mod, iter, q, c, regs, k) ==
            if Remaining(next) < Remaining(regs) then Loop(w, n, mod, iter, q, c, next, k)
            else if k > 0 then Loop(w, n, mod, iter, q, c, next, k - 1)
            else Lost(Endless)
  {
    hide Eval;
  }

  /** Otherwise the loop ends with this round, and the rounds granted do not matter. */
  lemma LoopStops(w: World, w': World, n: nat, mod: Option<string>, iter: Option<string>, q: Quantifier, c: Expr, regs: Registers, k: nat, k': nat)
    requires EmittableWorld(w) && EmittableWorld(w') && Emittable(c)
    requires var v := Eval(w, n, mod, iter, c, regs);
             regs.r0.Num? && regs.r1.Num? && regs.r0.w < regs.r1.w ==>
               Eval(w', n, mod, iter, c, regs) == v && !(v.Val? && Decide(q, v.value, v.regs).None? && v.regs.r0.Num?)
    ensures Loop(w', n, mod, iter, q, c, regs, k') == Loop(w, n, mod, iter, q, c, regs, k)
  {
    hide Eval, Decide;
  }

  lemma LoopFails(w: World, n: nat, mod: Option<string>, iter: Option<string>, q: Quantifier, c: Expr, regs: Registers, k: nat)
    requires EmittableWorld(w) && Emittable(c) && regs.r0.Num? && regs.r1.Num? && regs.r0.w < regs.r1.w && !Eval(w, n, mod, iter, c, regs).Val?
    ensures Loop(w, n, mod, iter, q, c, regs, k) == Eval(w, n, mod, iter, c, regs)
  {
    hide Eval;
  }

  /** The verdict of a rule: a fresh activation, whose registers are zero. */
  function EvalRule(w: World, j: nat): Evaluated
    requires EmittableWorld(w) && j < |w.rules|
    decreases j, 1
  {
    match Eval(w, j, w.rules[j].event, None, w.rules[j].body, ZERO)
    case Val(v, regs) => if v.Num? then Val(v, regs) else Lost(WrongKind)
    case failed => failed
  }

  /** Expressions without a `for` leave the registers alone. */
  lemma {:induction false} RegistersKept(w: World, n: nat, mod: Option<string>, iter: Option<string>, e: Expr, regs: Registers)
    requires EmittableWorld(w) && Emittable(e) && !HasRange(e)
    ensures var r := Eval(w, n, mod, iter, e, regs); r.Val? ==> r.regs == regs
    decreases e, 1
  {
    hide EvalRule, IndexOf, Operate, OperateUnary, Match, Access, ItemOf, Invoke;
    match e
    case Binary(op, l, r, _) =>
      RegistersKept(w, n, mod, iter, l, regs);
      if op != Matches { RegistersKept(w, n, mod, iter, r, regs); }
    case Unary(_, r) => RegistersKept(w, n, mod, iter, r, regs);
    case Grouping(i) => RegistersKept(w, n, mod, iter, i, regs);
    case Call(f, args) =>
      AllRegistersKept(w, n, mod, iter, args, regs);
      RegistersKept(w, n, mod, iter, f, regs);
    case Field(o, _, _) => RegistersKept(w, n, mod, iter, o, regs);
    case Index(a, i) =>
      RegistersKept(w, n, mod, iter, a, regs);
      RegistersKept(w, n, mod, iter, i, regs);
    case _ =>
  }

  lemma {:induction false} AllRegistersKept(w: World, n: nat, mod: Option<string>, iter: Option<string>, es: seq<Expr>, regs: Registers)
    requires EmittableWorld(w) && AllEmittable(es) && !AnyRange(es)
    ensures var r := EvalAll(w, n, mod, iter, es, regs); r.Vals? ==> r.registers == regs
    decreases es, 1
  {
    if es == [] {
    } else {
      AllRegistersKept(w, n, mod, iter, es[1..], regs);
      RegistersKept(w, n, mod, iter, es[0], regs);
    }
  }
}
