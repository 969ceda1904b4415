/**
 * How long loops go on.  The evaluator grants a `for` a number of rounds that lead no nearer its end, which
 * only a `for` inside a `for` can need.  The number does not matter where it suffices, and where none
 * suffices the machine never halts: so a rule halts if and only if it has a meaning.
 */
module Rounds {
  import opened Words
  import opened Wrappers
  import opened Ast
  import opened Machine
  import opened Semantics
  import opened Codegen
  import opened Correctness
  import opened Frame
  import I = Instructions

  function Granted(w: World, k: nat): World {
    w.(rounds := k)
  }

  // ---------- more rounds ----------

  /** `u` is `v`, or the evaluator gave up on `v`. */
  predicate Refines(u: Evaluated, v: Evaluated) {
    v == Lost(Endless) || u == v
  }

  /** A tree that has a meaning with some number of rounds has the same one with more. */
  lemma {:induction false} MoreRounds(w: World, k: nat, n: nat, mod: Option<string>, iter: Option<string>, e: Expr, regs: Registers)
    requires EmittableWorld(w) && Emittable(e) && k >= w.rounds
    ensures EmittableWorld(Granted(w, k)) && Refines(Eval(Granted(w, k), n, mod, iter, e, regs), Eval(w, n, mod, iter, e, regs))
    decreases n, 0, e, 1, 0
  {
    hide EvalRule, IndexOf, Operate, OperateUnary, Match, Access, ItemOf, Invoke, Loop, EvalLiteral;
    match e
    case Binary(op, l, r, _) =>
      MoreRounds(w, k, n, mod, iter, l, regs);
      match Eval(w, n, mod, iter, l, regs) {
        case Val(_, regs1) => if op != Matches { MoreRounds(w, k, n, mod, IterAfter(l, iter), r, regs1); }
        case _ =>
      }
    case Unary(_, r) => MoreRounds(w, k, n, mod, iter, r, regs);
    case Grouping(i) => MoreRounds(w, k, n, mod, iter, i, regs);
    case Lit(l) => LiteralRounds(w, k, n, mod, iter, l, regs);
    case Call(f, args) =>
      AllRounds(w, k, n, mod, iter, args, regs);
      match EvalAll(w, n, mod, iter, args, regs) {
        case Vals(_, regs1) => MoreRounds(w, k, n, mod, IterAfterAll(args, iter), f, regs1);
        case _ =>
      }
    case Field(o, _, _) => MoreRounds(w, k, n, mod, iter, o, regs);
    case Index(a, i) =>
      MoreRounds(w, k, n, mod, iter, a, regs);
      match Eval(w, n, mod, iter, a, regs) {
        case Val(_, regs1) => MoreRounds(w, k, n, mod, IterAfter(a, iter), i, regs1);
        case _ =>
      }
    case Range(q, x, s, t, c) =>
      var i1 := IterAfter(t, Some(x));
      MoreRounds(w, k, n, mod, Some(x), t, regs);
      match Eval(w, n, mod, Some(x), t, regs) {
        case Val(last, regs1) =>
          MoreRounds(w, k, n, mod, i1, s, regs1);
          match Eval(w, n, mod, i1, s, regs1) {
            case Val(first, regs2) => LoopRounds(w, k, n, mod, IterAfter(s, i1), q, c, regs2.(r0 := first, r1 := last), w.rounds, k);
            case _ =>
          }
        case _ =>
      }
  }

  lemma {:induction false} LiteralRounds(w: World, k: nat, n: nat, mod: Option<string>, iter: Option<string>, l: Literal, regs: Registers)
    requires EmittableWorld(w) && k >= w.rounds
    ensures EmittableWorld(Granted(w, k)) && Refines(EvalLiteral(Granted(w, k), n, mod, iter, l, regs), EvalLiteral(w, n, mod, iter, l, regs))
    decreases n, 0, l, 0, 0
  {
    hide EvalRule, IndexFrom;
    if l.Identifier? {
      var j := IndexOf(w.rules, l.name);
      if j.Some? && j.value < n {
        RuleRounds(w, k, j.value);
      }
    }
  }

  lemma {:induction false} AllRounds(w: World, k: nat, n: nat, mod: Option<string>, iter: Option<string>, es: seq<Expr>, regs: Registers)
    requires EmittableWorld(w) && AllEmittable(es) && k >= w.rounds
    ensures EmittableWorld(Granted(w, k))
    ensures var u := EvalAll(Granted(w, k), n, mod, iter, es, regs); var v := EvalAll(w, n, mod, iter, es, regs); v == Failed(Lost(Endless)) || u == v
    decreases n, 0, es, 1, 0
  {
    hide Eval;
    if es != [] {
      AllRounds(w, k, n, mod, iter, es[1..], regs);
      match EvalAll(w, n, mod, iter, es[1..], regs)
      case Vals(_, regs1) => MoreRounds(w, k, n, mod, IterAfterAll(es[1..], iter), es[0], regs1);
      case _ =>
    }
  }

  lemma {:induction false} LoopRounds(w: World, k: nat, n: nat, mod: Option<string>, iter: Option<string>, q: Quantifier, c: Expr, regs: Registers,
                                      spare: nat, spare': nat)
    requires EmittableWorld(w) && Emittable(c) && k >= w.rounds && spare' >= spare
    ensures EmittableWorld(Granted(w, k))
    ensures Refines(Loop(Granted(w, k), n, mod, iter, q, c, regs, spare'), Loop(w, n, mod, iter, q, c, regs, spare))
    decreases n, 0, c, 2, spare, Remaining(regs)
  {
    hide Eval, Loop, Decide, Advance;
    MoreRounds(w, k, n, mod, iter, c, regs);
    var v := Eval(w, n, mod, iter, c, regs);
    var inside := regs.r0.Num? && regs.r1.Num? && regs.r0.w < regs.r1.w;
    if inside && v == Lost(Endless) {
      LoopFails(w, n, mod, iter, q, c, regs, spare);
    } else if inside && v.Val? && Decide(q, v.value, v.regs).None? && v.regs.r0.Num? {
      LoopNext(w, n, mod, iter, q, c, regs, spare);
      LoopNext(Granted(w, k), n, mod, iter, q, c, regs, spare');
      var next := Advance(q, v.value, v.regs);
      if Remaining(next) < Remaining(regs) {
        LoopRounds(w, k, n, mod, iter, q, c, next, spare, spare');
      } else if spare > 0 {
        LoopRounds(w, k, n, mod, iter, q, c, next, spare - 1, spare' - 1);
      }
    } else {
      LoopStops(w, Granted(w, k), n, mod, iter, q, c, regs, spare, spare');
    }
  }

  lemma {:induction false} RuleRounds(w: World, k: nat, j: nat)
    requires EmittableWorld(w) && j < |w.rules| && k >= w.rounds
    ensures EmittableWorld(Granted(w, k)) && Refines(EvalRule(Granted(w, k), j), EvalRule(w, j))
    decreases j, 1
  {
    hide Eval;
    MoreRounds(w, k, j, w.rules[j].event, None, w.rules[j].body, ZERO);
  }

  // ---------- the depth does not depend on it ----------

  lemma {:induction false} SameDepth(w: World, k: nat, n: nat, mod: Option<string>, iter: Option<string>, e: Expr)
    ensures Depth(Granted(w, k), n, mod, iter, e) == Depth(w, n, mod, iter, e)
    decreases n, 0, e, 1
  {
    hide IndexOf, RuleDepth, LiteralDepth;
    match e
    case Binary(_, l, r, _) => SameDepth(w, k, n, mod, iter, l); SameDepth(w, k, n, mod, IterAfter(l, iter), r);
    case Unary(_, r) => SameDepth(w, k, n, mod, iter, r);
    case Grouping(i) => SameDepth(w, k, n, mod, iter, i);
    case Lit(l) => SameLiteralDepth(w, k, n, mod, iter, l);
    case Call(f, args) => SameArgumentsDepth(w, k, n, mod, iter, args); SameDepth(w, k, n, mod, IterAfterAll(args, iter), f);
    case Field(o, _, _) => SameDepth(w, k, n, mod, iter, o);
    case Index(a, i) => SameDepth(w, k, n, mod, iter, a); SameDepth(w, k, n, mod, IterAfter(a, iter), i);
    case Range(_, x, s, t, c) =>
      var i1 := IterAfter(t, Some(x));
      SameDepth(w, k, n, mod, Some(x), t);
      SameDepth(w, k, n, mod, i1, s);
      SameDepth(w, k, n, mod, IterAfter(s, i1), c);
    case Null =>
  }

  lemma {:induction false} SameLiteralDepth(w: World, k: nat, n: nat, mod: Option<string>, iter: Option<string>, l: Literal)
    ensures LiteralDepth(Granted(w, k), n, mod, iter, l) == LiteralDepth(w, n, mod, iter, l)
    decreases n, 0, l, 0
  {
    hide RuleDepth, IndexFrom;
    if l.Identifier? {
      var j := IndexOf(w.rules, l.name);
      if j.Some? && j.value < n {
        SameRuleDepth(w, k, j.value);
      }
    }
  }

  lemma {:induction false} SameArgumentsDepth(w: World, k: nat, n: nat, mod: Option<string>, iter: Option<string>, es: seq<Expr>)
    ensures ArgumentsDepth(Granted(w, k), n, mod, iter, es) == ArgumentsDepth(w, n, mod, iter, es)
    decreases n, 0, es, 1
  {
    hide Depth;
    if es != [] {
      SameArgumentsDepth(w, k, n, mod, iter, es[1..]);
      SameDepth(w, k, n, mod, IterAfterAll(es[1..], iter), es[0]);
    }
  }

  lemma {:induction false} SameRuleDepth(w: World, k: nat, j: nat)
    requires j < |w.rules|
    ensures RuleDepth(Granted(w, k), j) == RuleDepth(w, j)
    decreases j, 1
  {
    hide Depth;
    SameDepth(w, k, j, w.rules[j].event, None, w.rules[j].body);
  }

  // ---------- where the evaluator gives up, the machine goes on ----------

  /** A run that does not end within `f` steps does not end within fewer. */
  lemma Shorter(img: Image, ip: nat, s: seq<Value>, regs: Registers, f: nat, k: nat)
    requires Exec(img, ip, s, regs, f) == OutOfFuel && k <= f
    ensures Exec(img, ip, s, regs, k) == OutOfFuel
  {
    hide Exec;
    if Exec(img, ip, s, regs, k) != OutOfFuel {
      MoreFuel(img, ip, s, regs, k, f - k);
    }
  }

  lemma NoSteps(img: Image, ip: nat, s: seq<Value>, regs: Registers)
    ensures Exec(img, ip, s, regs, 0) == OutOfFuel
  {
  }

  lemma OperationsEnd(x: Value, y: Value, regs: Registers)
    ensures forall op, tag :: FromComputed(Operate(op, tag, x, y), regs) != Lost(Endless)
    ensures forall op :: FromComputed(OperateUnary(op, x), regs) != Lost(Endless)
    ensures forall name, ty :: FromComputed(Access(x, name, ty), regs) != Lost(Endless)
    ensures FromComputed(ItemOf(x, y), regs) != Lost(Endless)
  {
    hide Wrap, Words.BitAnd, Words.BitOr, Words.BitXor, ShiftLeft, ShiftRight, TextTest;
  }

  /** If the evaluator gives up on a loop in `e`, the code of `e` takes more steps than the evaluator granted rounds. */
  lemma {:induction false} EndlessRuns(img: Image, w: World, n: nat, mod: Option<string>, iter: Option<string>, e: Expr,
                                       b: nat, s: seq<Value>, regs: Registers)
    requires Ready(img, w, n, mod, iter, e, b, |s|) && EmittableWorld(w) && Emittable(e)
    requires Eval(w, n, mod, iter, e, regs) == Lost(Endless)
    ensures Exec(img, b, s, regs, w.rounds) == OutOfFuel
    decreases n, 1, e, 1, 0
  {
    hide Exec, Linked, Ready, Correctness.End, Code, Depth, EmittableWorld, HasRange, IterAfter, ListedIn, I.Fetch, I.Size, RuleDepth, LiteralDepth;
    hide Operate, OperateUnary, Access, ItemOf, Loop, EvalLiteral, Match, Invoke;
    match e
    case Binary(op, _, _, _) =>
      if op == Matches { EndlessMatches(img, w, n, mod, iter, e, b, s, regs); } else { EndlessBinary(img, w, n, mod, iter, e, b, s, regs); }
    case Unary(_, _) =>
      UnaryParts(img, w, n, mod, iter, e, b, |s|);
      match Eval(w, n, mod, iter, e.operand, regs) {
        case Val(x, regs1) => OperationsEnd(x, x, regs1);
        case _ =>
      }
      EndlessRuns(img, w, n, mod, iter, e.operand, b, s, regs);
    case Grouping(_) =>
      GroupingParts(img, w, n, mod, iter, e, b, |s|);
      EndlessRuns(img, w, n, mod, iter, e.inner, b, s, regs);
    case Lit(_) => EndlessReference(img, w, n, mod, iter, e, b, s, regs);
    case Call(_, _) => EndlessCall(img, w, n, mod, iter, e, b, s, regs);
    case Field(_, _, _) =>
      FieldParts(img, w, n, mod, iter, e, b, |s|);
      match Eval(w, n, mod, iter, e.owner, regs) {
        case Val(x, regs1) => OperationsEnd(x, x, regs1);
        case _ =>
      }
      EndlessRuns(img, w, n, mod, iter, e.owner, b, s, regs);
    case Index(_, _) => EndlessIndex(img, w, n, mod, iter, e, b, s, regs);
    case Range(_, _, _, _, _) => EndlessRange(img, w, n, mod, iter, e, b, s, regs);
  }

  /** The operand of a binary operator on which the evaluator gave up. */
  lemma BinaryCases(w: World, n: nat, mod: Option<string>, iter: Option<string>, e: Expr, regs: Registers)
    requires e.Binary? && EmittableWorld(w) && Emittable(e) && e.op != Matches && Eval(w, n, mod, iter, e, regs) == Lost(Endless)
    ensures var v := Eval(w, n, mod, iter, e.left, regs);
            || v == Lost(Endless)
            || (v.Val? && (e.op == And ==> v.value.Num? && v.value.w != 0) && Eval(w, n, mod, IterAfter(e.left, iter), e.right, v.regs) == Lost(Endless))
  {
    hide Operate;
    match Eval(w, n, mod, iter, e.left, regs)
    case Val(x, regs1) =>
      match Eval(w, n, mod, IterAfter(e.left, iter), e.right, regs1) {
        case Val(y, regs2) => OperationsEnd(x, y, regs2);
        case _ =>
      }
    case _ =>
  }

  lemma {:induction false} EndlessBinary(img: Image, w: World, n: nat, mod: Option<string>, iter: Option<string>, e: Expr,
                                         b: nat, s: seq<Value>, regs: Registers)
    requires e.Binary? && e.op != Matches && Ready(img, w, n, mod, iter, e, b, |s|) && EmittableWorld(w) && Emittable(e)
    requires Eval(w, n, mod, iter, e, regs) == Lost(Endless)
    ensures Exec(img, b, s, regs, w.rounds) == OutOfFuel
    decreases n, 1, e, 0, 0
  {
    hide Exec, Linked, Ready, Correctness.End, Code, Depth, EmittableWorld, HasRange, IterAfter, ListedIn, I.Fetch, I.Size, RuleDepth, LiteralDepth;
    BinaryCases(w, n, mod, iter, e, regs);
    hide Eval;
    var k := w.rounds;
    if e.op == And {
      AndParts(img, w, n, mod, iter, e, b, |s|);
    } else {
      BinaryParts(img, w, n, mod, iter, e, b, |s|);
    }
    var v := Eval(w, n, mod, iter, e.left, regs);
    if v.Val? {
      var x, regs1 := v.value, v.regs;
      var m, right := Correctness.End(mod, iter, e.left, b), IterAfter(e.left, iter);
      var f := 0;
      if e.op == And {
        EndlessRuns(img, w, n, mod, right, e.right, m + 15, s + [x], regs1);
        ShortCircuitSteps(img, m, m + 15, Correctness.End(mod, right, e.right, m + 15), s, x, regs1, k);
        f := Compiled(img, w, n, mod, iter, e.left, b, s, regs, k + 1);
      } else {
        EndlessRuns(img, w, n, mod, right, e.right, m, s + [x], regs1);
        f := Compiled(img, w, n, mod, iter, e.left, b, s, regs, k);
      }
      Shorter(img, b, s, regs, f, k);
    } else {
      EndlessRuns(img, w, n, mod, iter, e.left, b, s, regs);
    }
  }

  lemma {:induction false} EndlessMatches(img: Image, w: World, n: nat, mod: Option<string>, iter: Option<string>, e: Expr,
                                          b: nat, s: seq<Value>, regs: Registers)
    requires e.Binary? && e.op == Matches && Ready(img, w, n, mod, iter, e, b, |s|) && EmittableWorld(w) && Emittable(e)
    requires Eval(w, n, mod, iter, e, regs) == Lost(Endless)
    ensures Exec(img, b, s, regs, w.rounds) == OutOfFuel
    decreases n, 1, e, 0, 0
  {
    hide Exec, Linked, Ready, Correctness.End, Code, Depth, EmittableWorld, HasRange, IterAfter, ListedIn, I.Fetch, I.Size, RuleDepth, LiteralDepth;
    MatchParts(img, w, n, mod, iter, e, b, |s|);
    assert Eval(w, n, mod, iter, e.left, regs) == Lost(Endless);
    EndlessRuns(img, w, n, mod, iter, e.left, b, s, regs);
  }

  lemma {:induction false} EndlessIndex(img: Image, w: World, n: nat, mod: Option<string>, iter: Option<string>, e: Expr,
                                        b: nat, s: seq<Value>, regs: Registers)
    requires e.Index? && Ready(img, w, n, mod, iter, e, b, |s|) && EmittableWorld(w) && Emittable(e)
    requires Eval(w, n, mod, iter, e, regs) == Lost(Endless)
    ensures Exec(img, b, s, regs, w.rounds) == OutOfFuel
    decreases n, 1, e, 0, 0
  {
    hide Exec, Linked, Ready, Correctness.End, Code, Depth, EmittableWorld, HasRange, IterAfter, ListedIn, I.Fetch, I.Size, RuleDepth, LiteralDepth;
    hide ItemOf;
    IndexParts(img, w, n, mod, iter, e, b, |s|);
    var p, after := Correctness.End(mod, iter, e.indexed, b), IterAfter(e.indexed, iter);
    var v := Eval(w, n, mod, iter, e.indexed, regs);
    if v.Val? {
      var x, regs1 := v.value, v.regs;
      match Eval(w, n, mod, after, e.index, regs1) {
        case Val(y, regs2) => OperationsEnd(x, y, regs2);
        case _ =>
      }
      EndlessRuns(img, w, n, mod, after, e.index, p, s + [x], regs1);
      var f := Compiled(img, w, n, mod, iter, e.indexed, b, s, regs, w.rounds);
      Shorter(img, b, s, regs, f, w.rounds);
    } else {
      EndlessRuns(img, w, n, mod, iter, e.indexed, b, s, regs);
    }
  }

  lemma InvokeEnds(x: Externals, callee: Value, vs: seq<Value>, regs: Registers)
    ensures FromComputed(Invoke(x, callee, vs), regs) != Lost(Endless)
  {
  }

  lemma {:induction false} EndlessCall(img: Image, w: World, n: nat, mod: Option<string>, iter: Option<string>, e: Expr,
                                       b: nat, s: seq<Value>, regs: Registers)
    requires e.Call? && Ready(img, w, n, mod, iter, e, b, |s|) && EmittableWorld(w) && Emittable(e)
    requires Eval(w, n, mod, iter, e, regs) == Lost(Endless)
    ensures Exec(img, b, s, regs, w.rounds) == OutOfFuel
    decreases n, 1, e, 0, 0
  {
    hide Exec, Linked, Ready, Correctness.End, Code, Depth, EmittableWorld, HasRange, IterAfter, ListedIn, I.Fetch, I.Size, RuleDepth, LiteralDepth;
    hide IterAfterAll, EvalAll, ReadyAll, EndAll, Invoke, Reversed, ArgumentsCode, ArgumentsDepth;
    CallParts(img, w, n, mod, iter, e, b, |s|);
    var p, k, after := EndAll(mod, iter, e.arguments, b), w.rounds, IterAfterAll(e.arguments, iter);
    match EvalAll(w, n, mod, iter, e.arguments, regs)
    case Vals(vs, regs1) =>
      match Eval(w, n, mod, after, e.callee, regs1) {
        case Val(c, regs2) => InvokeEnds(w.externals, c, vs, regs2);
        case _ =>
      }
      var t := s + Reversed(vs) + [Num(|vs|)];
      EndlessRuns(img, w, n, mod, after, e.callee, p + 5, t, regs1);
      Tail(img, p, I.PushInt(|vs|), s + Reversed(vs), s + Reversed(vs), Ok(Num(|vs|)), regs1, k);
      var f := CompiledArguments(img, w, n, mod, iter, e.arguments, b, s, regs, k + 1);
      Shorter(img, b, s, regs, f, k);
    case Failed(_) => EndlessArguments(img, w, n, mod, iter, e.arguments, b, s, regs);
  }

  lemma {:induction false} EndlessArguments(img: Image, w: World, n: nat, mod: Option<string>, iter: Option<string>, es: seq<Expr>,
                                            b: nat, s: seq<Value>, regs: Registers)
    requires ReadyAll(img, w, n, mod, iter, es, b, |s|) && EmittableWorld(w) && AllEmittable(es)
    requires EvalAll(w, n, mod, iter, es, regs) == Failed(Lost(Endless))
    ensures Exec(img, b, s, regs, w.rounds) == OutOfFuel
    decreases n, 1, es, 1, 0
  {
    hide Exec, Linked, Ready, Correctness.End, Code, Depth, EmittableWorld, HasRange, IterAfterAll, ListedIn, I.Fetch, Eval, Reversed;
    ArgumentParts(img, w, n, mod, iter, es, b, |s|);
    match EvalAll(w, n, mod, iter, es[1..], regs)
    case Vals(vs, regs1) =>
      EndlessRuns(img, w, n, mod, IterAfterAll(es[1..], iter), es[0], EndAll(mod, iter, es[1..], b), s + Reversed(vs), regs1);
      var f := CompiledArguments(img, w, n, mod, iter, es[1..], b, s, regs, w.rounds);
      Shorter(img, b, s, regs, f, w.rounds);
    case Failed(_) => EndlessArguments(img, w, n, mod, iter, es[1..], b, s, regs);
  }

  lemma {:induction false} EndlessReference(img: Image, w: World, n: nat, mod: Option<string>, iter: Option<string>, e: Expr,
                                            b: nat, s: seq<Value>, regs: Registers)
    requires e.Lit? && Ready(img, w, n, mod, iter, e, b, |s|) && EmittableWorld(w) && Emittable(e)
    requires Eval(w, n, mod, iter, e, regs) == Lost(Endless)
    ensures Exec(img, b, s, regs, w.rounds) == OutOfFuel
    decreases n, 1, e, 0, 0
  {
    hide Exec, Step, At, Linked, Ready, Correctness.End, EvalRule, RuleDepth, FindRuleFrom, IndexFrom, EmittableWorld;
    var x := e.literal.name;
    var j := IndexOf(w.rules, x).value;
    LiteralParts(img, w, n, mod, iter, e, b, |s|);
    FindLinked(img, w, x, 0);
    SameLength(img, w);
    EndlessRule(img, w, j, s);
    FireRule(img, b, x, j, s, regs, w.rounds);
    Shorter(img, b, s, regs, w.rounds + 1, w.rounds);
  }

  lemma {:induction false} EndlessRule(img: Image, w: World, j: nat, s: seq<Value>)
    requires Linked(img, w) && EmittableWorld(w) && |img.rules| == |w.rules| && j < |w.rules| && |s| + RuleDepth(w, j) <= STACK_MAX
    requires EvalRule(w, j) == Lost(Endless)
    ensures Exec(img, img.rules[j].codeOffset, s, ZERO, w.rounds) == OutOfFuel
    decreases j, 2
  {
    hide Exec, Eval, Code, I.Listed, I.Size, I.Fetch, LiteralDepth;
    var r, b := w.rules[j], img.rules[j].codeOffset;
    assert RuleLinked(img, r, img.rules[j]);
    var code := Code(r.body, r.event, None, b);
    Split(img, b, code, [I.Halt]);
    EntryInside(img, b, code + [I.Halt]);
    EndlessRuns(img, w, j, r.event, None, r.body, b, s, ZERO);
  }

  lemma {:induction false} EndlessRange(img: Image, w: World, n: nat, mod: Option<string>, iter: Option<string>, e: Expr,
                                        b: nat, s: seq<Value>, regs: Registers)
    requires e.Range? && Ready(img, w, n, mod, iter, e, b, |s|) && EmittableWorld(w) && Emittable(e)
    requires Eval(w, n, mod, iter, e, regs) == Lost(Endless)
    ensures Exec(img, b, s, regs, w.rounds) == OutOfFuel
    decreases n, 1, e, 0, 0
  {
    hide Exec, Linked, Ready, Correctness.End, Code, Depth, EmittableWorld, HasRange, IterAfter, ListedIn, I.Fetch, I.Size, RuleDepth, LiteralDepth;
    hide Loop, LoopPlaced, LoopCode, LayoutOf;
    RangeParts(img, w, n, mod, iter, e, b, |s|);
    var i0, k := Some(e.ivar), w.rounds;
    var i1 := IterAfter(e.end, i0);
    var i2, p := IterAfter(e.start, i1), Correctness.End(mod, i0, e.end, b);
    var v := Eval(w, n, mod, i0, e.end, regs);
    if v.Val? {
      var f, u := k, Eval(w, n, mod, i1, e.start, v.regs);
      if u.Val? {
        var m := Correctness.End(mod, i1, e.start, p);
        var cond := Code(e.condition, mod, i2, ConditionStart(m));
        PlacedLoop(img, e.quantifier, m, cond);
        EndlessLoop(img, w, n, mod, i2, e.quantifier, e.condition, LayoutOf(e.quantifier, m, cond), s, u.regs.(r0 := u.value, r1 := v.value), k);
        BoundSteps(img, m, s, v.value, u.value, u.regs, k);
        f := Compiled(img, w, n, mod, i1, e.start, p, s + [v.value], v.regs, k + 2);
      } else {
        EndlessRuns(img, w, n, mod, i1, e.start, p, s + [v.value], v.regs);
      }
      f := Compiled(img, w, n, mod, i0, e.end, b, s, regs, f);
      Shorter(img, b, s, regs, f, k);
    } else {
      EndlessRuns(img, w, n, mod, i0, e.end, b, s, regs);
    }
  }

  lemma {:induction false} EndlessLoop(img: Image, w: World, n: nat, mod: Option<string>, iter: Option<string>, q: Quantifier, c: Expr,
                                       l: Layout, s: seq<Value>, regs: Registers, k: nat)
    requires LoopPlaced(img, q, l) && EmittableWorld(w) && Emittable(c)
    requires Ready(img, w, n, mod, iter, c, l.cond, |s|) && Correctness.End(mod, iter, c, l.cond) == l.verdict
    requires |s| + 2 <= STACK_MAX && k <= w.rounds && Loop(w, n, mod, iter, q, c, regs, k) == Lost(Endless)
    ensures Exec(img, l.head, s, regs, k) == OutOfFuel
    decreases n, 1, c, 2, k, Remaining(regs)
  {
    hide Exec, Linked, Ready, Correctness.End, Code, Depth, EmittableWorld, HasRange, IterAfter, ListedIn, I.Fetch, I.Size, RuleDepth, LiteralDepth;
    hide Decide, Advance, Eval, At, Emittable;
    if k == 0 {
      NoSteps(img, l.head, s, regs);
    } else {
      var f, v := w.rounds, Eval(w, n, mod, iter, c, regs);
      if v.Val? {
        f := EndlessRound(img, w, n, mod, iter, q, c, l, s, regs, v.value, v.regs, k);
        f := Compiled(img, w, n, mod, iter, c, l.cond, s, regs, f);
      } else {
        EndlessRuns(img, w, n, mod, iter, c, l.cond, s, regs);
      }
      HeadSteps(img, l, s, regs, f);
      Shorter(img, l.head, s, regs, f + 5, k);
    }
  }

  lemma DecidedEnds(q: Quantifier, v: Value, regs: Registers)
    ensures Decide(q, v, regs).Some? ==> Decide(q, v, regs).value != Lost(Endless)
  {
  }

  lemma {:induction false} EndlessRound(img: Image, w: World, n: nat, mod: Option<string>, iter: Option<string>, q: Quantifier, c: Expr,
                                        l: Layout, s: seq<Value>, regs: Registers, v: Value, regs1: Registers, k: nat)
    returns (f: nat)
    requires LoopPlaced(img, q, l) && EmittableWorld(w) && Emittable(c)
    requires Ready(img, w, n, mod, iter, c, l.cond, |s|) && Correctness.End(mod, iter, c, l.cond) == l.verdict
    requires |s| + 2 <= STACK_MAX && 0 < k <= w.rounds && Loop(w, n, mod, iter, q, c, regs, k) == Lost(Endless)
    requires Eval(w, n, mod, iter, c, regs) == Val(v, regs1)
    ensures f + 5 >= k && Exec(img, l.verdict, s + [v], regs1, f) == OutOfFuel
    decreases n, 1, c, 2, k, Remaining(regs), 0
  {
    hide Exec, Linked, Ready, Correctness.End, Code, Depth, EmittableWorld, HasRange, IterAfter, ListedIn, I.Fetch, I.Size, RuleDepth, LiteralDepth;
    hide Eval, At, Emittable, Recorded, Decide;
    DecidedEnds(q, v, regs1);
    RecordedKeeps(q, v, regs1);
    var next, t := Advance(q, v, regs1), v;
    var k' := if Remaining(next) < Remaining(regs) then k else k - 1;
    EndlessLoop(img, w, n, mod, iter, q, c, l, s, next, k');
    f, t := VerdictSteps(img, l, q, s, v, regs1, k' + 6);
    NextSteps(img, l, s, t, Recorded(q, v, regs1), k');
  }

  // ---------- halting and meaning ----------

  /** The rule refers only to rules before it, and its identifiers have code, however many rounds are granted. */
  ghost predicate Settled(w: World, j: nat)
    requires EmittableWorld(w) && j < |w.rules|
  {
    forall k :: var v := RuleGranted(w, j, k); v != Lost(RunawayCode) && v != Lost(NoCode)
  }

  /** The verdict of rule `j` when `k` rounds are granted. */
  ghost function RuleGranted(w: World, j: nat, k: nat): Evaluated
    requires EmittableWorld(w) && j < |w.rules|
  {
    assert EmittableWorld(Granted(w, k)) by { assert Granted(w, k).rules == w.rules; }
    EvalRule(Granted(w, k), j)
  }

  lemma MeaningHalts(img: Image, w: World, j: nat, s: seq<Value>, k: nat) returns (f: nat)
    requires Linked(img, w) && EmittableWorld(w) && |img.rules| == |w.rules| && j < |w.rules|
    requires |s| + RuleDepth(w, j) <= STACK_MAX && Settled(w, j) && RuleGranted(w, j, k) != Lost(Endless)
    ensures Exec(img, img.rules[j].codeOffset, s, ZERO, f) != OutOfFuel
  {
    hide Exec, EvalRule, RuleDepth, RuleLinked;
    SameRuleDepth(w, k, j);
    f := RuleCompiled(img, Granted(w, k), j, s, 0);
  }

  lemma HaltingMeans(img: Image, w: World, j: nat, s: seq<Value>, f: nat)
    requires Linked(img, w) && EmittableWorld(w) && |img.rules| == |w.rules| && j < |w.rules|
    requires |s| + RuleDepth(w, j) <= STACK_MAX && Exec(img, img.rules[j].codeOffset, s, ZERO, f) != OutOfFuel
    ensures RuleGranted(w, j, f) != Lost(Endless)
  {
    hide Exec, EvalRule, RuleDepth, RuleLinked;
    SameRuleDepth(w, f, j);
    if RuleGranted(w, j, f) == Lost(Endless) {
      EndlessRule(img, Granted(w, f), j, s);
    }
  }

  /**
   * A rule halts, or faults, on any stack with room, if and only if the evaluator gives it a meaning with some
   * number of rounds.
   */
  lemma HaltsExactly(img: Image, w: World, j: nat, s: seq<Value>)
    requires Linked(img, w) && EmittableWorld(w) && |img.rules| == |w.rules| && j < |w.rules|
    requires |s| + RuleDepth(w, j) <= STACK_MAX && Settled(w, j)
    ensures (exists f: nat :: Exec(img, img.rules[j].codeOffset, s, ZERO, f) != OutOfFuel) <==>
            (exists k: nat :: RuleGranted(w, j, k) != Lost(Endless))
  {
    hide Exec, EvalRule, RuleDepth, RuleLinked, RuleGranted, Settled;
    if k: nat :| RuleGranted(w, j, k) != Lost(Endless) {
      var f := MeaningHalts(img, w, j, s, k);
      assert Exec(img, img.rules[j].codeOffset, s, ZERO, f) != OutOfFuel;
    }
    if f: nat :| Exec(img, img.rules[j].codeOffset, s, ZERO, f) != OutOfFuel {
      HaltingMeans(img, w, j, s, f);
    }
  }

  /** Any two numbers of rounds that give a rule a meaning give it the same. */
  lemma SameMeaning(w: World, j: nat, k: nat, m: nat)
    requires EmittableWorld(w) && j < |w.rules| && RuleGranted(w, j, k) != Lost(Endless) && RuleGranted(w, j, m) != Lost(Endless)
    ensures RuleGranted(w, j, k) == RuleGranted(w, j, m)
  {
    hide EvalRule;
    if k <= m {
      RuleRounds(Granted(w, k), m, j);
    } else {
      RuleRounds(Granted(w, m), k, j);
    }
  }
}
