/**
 * A `for` inside a `for`: both keep their state in the same registers, so the inner loop sets the outer
 * one back every round, and the machine never gets to the end.
 */
module Nesting {
  import opened Words
  import opened Wrappers
  import opened CStrings
  import opened Ast
  import opened Machine
  import opened Semantics
  import opened Checker
  import opened Soundness
  import opened Codegen
  import opened Correctness
  import opened Frame
  import I = Instructions

  const NEVER_TRUE := Lit(Boolean(false))

  /** `for all y in (c..d) : (false)` */
  function Inner(y: string, c: word, d: word): Expr {
    Range(All, y, Int(c), Int(d), NEVER_TRUE)
  }

  /** `for q x in (a..b) : (for all y in (c..d) : (false))` */
  function Nested(q: Quantifier, x: string, a: word, b: word, y: string, c: word, d: word): Expr {
    Range(q, x, Int(a), Int(b), Inner(y, c, d))
  }

  /** The checker accepts every `for` whose condition is a `for`, if the parts of both pass and the two variables are new. */
  lemma NestedForAccepted(sc: Scope, q: Quantifier, x: string, s: Expr, t: Expr, q': Quantifier, y: string, s': Expr, t': Expr, c: Expr)
    requires x !in sc.env && y !in sc.env && x != y
    requires Resolve(sc, s).tag == Resolve(sc, t).tag == Number
    requires var sc1 := sc.(env := sc.env[x := Variable]);
             && Resolve(sc1, s').tag == Resolve(sc1, t').tag == Number && IsBoolean(Resolve(sc1.(env := sc1.env[y := Variable]), c).tag)
    ensures var sc1 := sc.(env := sc.env[x := Variable]); var sc2 := sc1.(env := sc1.env[y := Variable]);
            Resolve(sc, Range(q, x, s, t, Range(q', y, s', t', c))) ==
            Checked(True, Range(q, x, Resolve(sc, s).expr, Resolve(sc, t).expr,
                                Range(q', y, Resolve(sc1, s').expr, Resolve(sc1, t').expr, Resolve(sc2, c).expr)))
    ensures !Proper(sc, Range(q, x, s, t, Range(q', y, s', t', c)))
  {
    hide Proper, Resolve;
    var sc1 := sc.(env := sc.env[x := Variable]);
    ForAccepted(sc1, q', y, s', t', c);
    ForAccepted(sc, q, x, s, t, Range(q', y, s', t', c));
    NestedNotProper(sc, q, x, s, t, Range(q', y, s', t', c));
  }

  lemma ForAccepted(sc: Scope, q: Quantifier, x: string, s: Expr, t: Expr, c: Expr)
    requires x !in sc.env && Resolve(sc, s).tag == Resolve(sc, t).tag == Number && IsBoolean(Resolve(sc.(env := sc.env[x := Variable]), c).tag)
    ensures Resolve(sc, Range(q, x, s, t, c)) ==
            Checked(True, Range(q, x, Resolve(sc, s).expr, Resolve(sc, t).expr, Resolve(sc.(env := sc.env[x := Variable]), c).expr))
  {
  }

  lemma NestedNotProper(sc: Scope, q: Quantifier, x: string, s: Expr, t: Expr, inner: Expr)
    requires inner.Range?
    ensures !Proper(sc, Range(q, x, s, t, inner))
  {
  }

  // ---------- one element only ----------

  /** The condition value with which the last round of a `for` is not the one that decides. */
  predicate Undecided(q: Quantifier, v: Value) {
    v.Num? && if q.All? then v.w != 0 else v.w == 0
  }

  /** A loop whose value is not one that decides has run out of elements: its counter is at its end. */
  lemma {:induction false} RunsOut(w: World, n: nat, mod: Option<string>, iter: Option<string>, q: Quantifier, c: Expr, regs: Registers, k: nat)
    requires EmittableWorld(w) && Emittable(c)
    ensures var r := Loop(w, n, mod, iter, q, c, regs, k);
            r.Val? && Undecided(q, r.value) ==> r.regs.r0.Num? && r.regs.r1.Num? && r.regs.r0.w >= r.regs.r1.w
    decreases k, Remaining(regs)
  {
    hide Eval;
    if regs.r0.Num? && regs.r1.Num? && regs.r0.w < regs.r1.w {
      match Eval(w, n, mod, iter, c, regs)
      case Val(v, regs1) =>
        if Decide(q, v, regs1).None? && regs1.r0.Num? {
          var next := Advance(q, v, regs1);
          if Remaining(next) < Remaining(regs) {
            RunsOut(w, n, mod, iter, q, c, next, k);
          } else if k > 0 {
            RunsOut(w, n, mod, iter, q, c, next, k - 1);
          }
        }
      case _ =>
    }
  }

  /**
   * A `for` whose condition is a `for` looks at one element only, unless a round of the inner one was decided
   * early: the inner loop leaves its counter at its end, the outer one takes it for its own, and its value is
   * the condition of its first element, whatever the others are.
   */
  lemma LooksOnce(w: World, n: nat, mod: Option<string>, iter: Option<string>, q: Quantifier, inner: Expr, regs: Registers, k: nat)
    requires EmittableWorld(w) && Emittable(inner) && inner.Range?
    requires regs.r0.Num? && regs.r1.Num? && regs.r0.w < regs.r1.w
    requires var r := Eval(w, n, mod, iter, inner, regs);
             && r.Val? && Undecided(inner.quantifier, r.value) && r.regs.r3.Num?
             && (r.regs.r0.Num? ==> r.regs.r0.w + 1 < WORD_LIMIT)
    ensures var r := Loop(w, n, mod, iter, q, inner, regs, k); r.Val? && r.value == Eval(w, n, mod, iter, inner, regs).value
  {
    InnerRunsOut(w, n, mod, iter, inner, regs);
    hide Eval;
    var r := Eval(w, n, mod, iter, inner, regs);
    if Decide(q, r.value, r.regs).None? {
      var next := Advance(q, r.value, r.regs);
      assert Remaining(next) == 0;
      assert Loop(w, n, mod, iter, q, inner, next, k) == Val(r.value, next);
    }
  }

  lemma InnerRunsOut(w: World, n: nat, mod: Option<string>, iter: Option<string>, e: Expr, regs: Registers)
    requires e.Range? && EmittableWorld(w) && Emittable(e)
    ensures var r := Eval(w, n, mod, iter, e, regs);
            r.Val? && Undecided(e.quantifier, r.value) ==> r.regs.r0.Num? && r.regs.r1.Num? && r.regs.r0.w >= r.regs.r1.w
  {
    hide Loop, IterAfter;
    var i0 := Some(e.ivar);
    var i1 := IterAfter(e.end, i0);
    match Eval(w, n, mod, i0, e.end, regs)
    case Val(last, regs1) =>
      match Eval(w, n, mod, i1, e.start, regs1) {
        case Val(first, regs2) => RunsOut(w, n, mod, IterAfter(e.start, i1), e.quantifier, e.condition, regs2.(r0 := first, r1 := last), w.rounds);
        case _ =>
      }
    case _ =>
  }

  // ---------- where the code of the two loops is ----------

  /** A loop over literal bounds at `b`, with the code `cond` as its condition. */
  ghost predicate LoopAt(img: Image, q: Quantifier, first: word, last: word, b: nat, cond: seq<I.Instr>) {
    && At(img, b, I.PushInt(last)) && At(img, b + 5, I.PushInt(first)) && At(img, b + 10, I.Store(0)) && At(img, b + 15, I.Store(1))
    && LoopPlaced(img, q, LayoutOf(q, b + 10, cond))
  }

  lemma LiteralLoop(img: Image, mod: Option<string>, iter: Option<string>, q: Quantifier, x: string, first: word, last: word, c: Expr, b: nat)
    requires |img.code| < WORD_LIMIT && b <= |img.code|
    requires ListedIn(img, b, Code(Range(q, x, Int(first), Int(last), c), mod, iter, b))
    ensures var cond := Code(c, mod, Some(x), b + 37);
            LoopAt(img, q, first, last, b, cond) && ListedIn(img, b + 37, cond) && b + 37 <= |img.code|
  {
    hide I.Listed, I.Fetch, LoopCode, LoopPlaced;
    var bounds, cond := [I.PushInt(last), I.PushInt(first)], Code(c, mod, Some(x), b + 37);
    LiteralLoopCode(mod, iter, q, x, first, last, c, b);
    SizeStep(bounds);
    Split(img, b, bounds, LoopCode(q, b + 10, cond));
    assert bounds == [I.PushInt(last)] + [I.PushInt(first)];
    Head(img, b, I.PushInt(last), [I.PushInt(first)]);
    Single(img, b + 5, I.PushInt(first));
    ListedFits(img, b, bounds);
    LoopListing(img, q, b + 10, cond);
    PlacedLoop(img, q, b + 10, cond);
  }

  lemma LiteralLoopCode(mod: Option<string>, iter: Option<string>, q: Quantifier, x: string, first: word, last: word, c: Expr, b: nat)
    ensures Code(Range(q, x, Int(first), Int(last), c), mod, iter, b) ==
            [I.PushInt(last), I.PushInt(first)] + LoopCode(q, b + 10, Code(c, mod, Some(x), b + 37))
  {
    hide LoopCode;
    SizeStep([I.PushInt(last)]);
    SizeStep([I.PushInt(first)]);
    assert Code(Int(last), mod, Some(x), b) == [I.PushInt(last)];
    assert Code(Int(first), mod, Some(x), b + 5) == [I.PushInt(first)];
    assert [I.PushInt(last)] + [I.PushInt(first)] == [I.PushInt(last), I.PushInt(first)];
  }

  /** The bounds of a loop go to their registers. */
  lemma EnterSteps(img: Image, q: Quantifier, first: word, last: word, b: nat, cond: seq<I.Instr>, s: seq<Value>, regs: Registers, k: nat)
    requires LoopAt(img, q, first, last, b, cond) && |s| + 2 <= STACK_MAX
    ensures Exec(img, b, s, regs, k + 4) == Exec(img, b + 20, s, regs.(r0 := Num(first), r1 := Num(last)), k)
  {
    hide Exec, At, LoopPlaced;
    PushStep(img, b, last, s, regs, k + 3);
    PushStep(img, b + 5, first, s + [Num(last)], regs, k + 2);
    BoundSteps(img, b + 10, s, Num(last), Num(first), regs, k);
  }

  /** How many instructions the inner loop takes: an empty range costs less than a first false condition. */
  function InnerCost(c: word, d: word): nat {
    if c < d then 15 else 10
  }

  /** The inner loop, met after a false condition: it is false again, and leaves its own bounds behind. */
  lemma InnerSteps(img: Image, c: word, d: word, b: nat, s: seq<Value>, regs: Registers, k: nat)
    requires LoopAt(img, All, c, d, b, [I.PushBool(0)]) && At(img, b + 37, I.PushBool(0)) && |s| + 2 <= STACK_MAX && regs.r2 == Num(0)
    ensures var l := LayoutOf(All, b + 10, [I.PushBool(0)]);
            Exec(img, b, s, regs, k + InnerCost(c, d)) == Exec(img, l.exit + 6, s + [Num(0)], regs.(r0 := Num(c), r1 := Num(d)), k)
  {
    hide Exec, At, HeadPlaced, VerdictPlaced, NextPlaced, ExitPlaced;
    var l := LayoutOf(All, b + 10, [I.PushBool(0)]);
    SizeStep([I.PushBool(0)]);
    var regs1 := regs.(r0 := Num(c), r1 := Num(d));
    EnterSteps(img, All, c, d, b, [I.PushBool(0)], s, regs, k + InnerCost(c, d) - 4);
    if c < d {
      HeadSteps(img, l, s, regs1, k + 6);
      PushFalse(img, l.cond, s, regs1, k + 5);
      var f, t := VerdictSteps(img, l, All, s, Num(0), regs1, k + 2);
    } else {
      HeadSteps(img, l, s, regs1, k + 2);
    }
    ExitSteps(img, l, s, Num(0), regs1, k);
  }

  lemma PushFalse(img: Image, ip: nat, s: seq<Value>, regs: Registers, k: nat)
    requires At(img, ip, I.PushBool(0)) && |s| < STACK_MAX
    ensures Exec(img, ip, s, regs, k + 1) == Exec(img, ip + 5, s + [Num(0)], regs, k)
  {
    hide Exec, At, Machine.Apply2, Machine.Apply1, ApplyMatches, Unwrap, StepCall, ItemOf, FieldOf, ModuleOf, FindRule, GetRegister, SetRegister, Drop;
    Fire(img, ip, I.PushBool(0), s, regs, k);
  }

  // ---------- the outer loop goes round ----------

  /** The two loops are in place. */
  ghost predicate BothPlaced(img: Image, q: Quantifier, a: word, b: word, c: word, d: word, p: nat, inner: seq<I.Instr>) {
    && !q.All?
    && LoopAt(img, q, a, b, p, inner) && LoopAt(img, All, c, d, p + 37, [I.PushBool(0)]) && At(img, p + 74, I.PushBool(0))
    && LayoutOf(q, p + 10, inner).verdict == LayoutOf(All, p + 47, [I.PushBool(0)]).exit + 6
  }

  lemma NestedPlaced(img: Image, mod: Option<string>, iter: Option<string>, q: Quantifier, x: string, a: word, b: word, y: string, c: word, d: word, p: nat)
    returns (inner: seq<I.Instr>)
    requires |img.code| < WORD_LIMIT && p <= |img.code| && !q.All?
    requires ListedIn(img, p, Code(Nested(q, x, a, b, y, c, d), mod, iter, p))
    ensures BothPlaced(img, q, a, b, c, d, p, inner)
  {
    hide I.Listed, I.Fetch, LoopCode, LoopPlaced;
    inner := Code(Inner(y, c, d), mod, Some(x), p + 37);
    LiteralLoop(img, mod, iter, q, x, a, b, Inner(y, c, d), p);
    LiteralLoop(img, mod, Some(x), All, y, c, d, NEVER_TRUE, p + 37);
    var body := [I.PushBool(0)];
    assert Code(NEVER_TRUE, mod, Some(y), p + 74) == body;
    Single(img, p + 74, I.PushBool(0));
    LiteralLoopCode(mod, Some(x), All, y, c, d, NEVER_TRUE, p + 37);
    SizeStep([I.PushInt(d), I.PushInt(c)]);
    I.SizeAppend([I.PushInt(d), I.PushInt(c)], LoopCode(All, p + 47, body));
    Split(img, p + 37, [I.PushInt(d), I.PushInt(c)], LoopCode(All, p + 47, body));
    LoopListing(img, All, p + 47, body);
  }

  /** Registers with which the outer loop takes another round, the last condition having been false. */
  predicate Rounding(regs: Registers) {
    regs.r0.Num? && regs.r1.Num? && regs.r0.w < regs.r1.w && regs.r2 == Num(0)
  }

  /** How many instructions a round takes. */
  function RoundCost(q: Quantifier, c: word, d: word): nat {
    5 + InnerCost(c, d) + (if q.AtLeast? then 4 else 3) + 6
  }

  /** After a round the outer counter is just behind the start of the inner range, and its end is the inner end. */
  lemma RoundSteps(img: Image, q: Quantifier, a: word, b: word, c: word, d: word, p: nat, inner: seq<I.Instr>, s: seq<Value>, regs: Registers, k: nat)
    requires BothPlaced(img, q, a, b, c, d, p, inner) && |s| + 2 <= STACK_MAX && Rounding(regs)
    ensures Exec(img, p + 20, s, regs, k + RoundCost(q, c, d)) ==
            Exec(img, p + 20, s, regs.(r0 := Num(Wrap(c + 1)), r1 := Num(d)), k)
  {
    hide Exec, At, HeadPlaced, VerdictPlaced, NextPlaced, ExitPlaced, Wrap;
    var l := LayoutOf(q, p + 10, inner);
    var v := if q.AtLeast? then 4 else 3;
    var regs1 := regs.(r0 := Num(c), r1 := Num(d));
    HeadSteps(img, l, s, regs, k + 6 + v + InnerCost(c, d));
    InnerSteps(img, c, d, p + 37, s, regs, k + 6 + v);
    var f, t := VerdictSteps(img, l, q, s, Num(0), regs1, k + 6);
    NextSteps(img, l, s, Num(0), regs1, k);
  }

  lemma NoFuel(img: Image, ip: nat, s: seq<Value>, regs: Registers)
    ensures Exec(img, ip, s, regs, 0) == OutOfFuel
  {
  }

  /** Two states of which one leads to the other: if that never ends, neither does this. */
  lemma LeadsOn(img: Image, ip: nat, s: seq<Value>, regs: Registers, ip': nat, s': seq<Value>, regs': Registers, cost: nat, fuel: nat)
    requires Exec(img, ip, s, regs, cost) == Exec(img, ip', s', regs', 0)
    requires fuel >= cost ==> Exec(img, ip, s, regs, fuel) == Exec(img, ip', s', regs', fuel - cost) == OutOfFuel
    ensures Exec(img, ip, s, regs, fuel) == OutOfFuel
  {
    hide Exec;
    NoFuel(img, ip', s', regs');
    if fuel < cost && Exec(img, ip, s, regs, fuel) != OutOfFuel {
      MoreFuel(img, ip, s, regs, fuel, cost - fuel);
    }
  }

  lemma {:induction false} RoundsForever(img: Image, q: Quantifier, a: word, b: word, c: word, d: word, p: nat, inner: seq<I.Instr>,
                                         s: seq<Value>, regs: Registers, fuel: nat)
    requires BothPlaced(img, q, a, b, c, d, p, inner) && |s| + 2 <= STACK_MAX && Rounding(regs) && Wrap(c + 1) < d
    ensures Exec(img, p + 20, s, regs, fuel) == OutOfFuel
    decreases fuel
  {
    hide Exec, BothPlaced;
    var next, cost := regs.(r0 := Num(Wrap(c + 1)), r1 := Num(d)), RoundCost(q, c, d);
    RoundSteps(img, q, a, b, c, d, p, inner, s, regs, 0);
    if fuel >= cost {
      RoundSteps(img, q, a, b, c, d, p, inner, s, regs, fuel - cost);
      RoundsForever(img, q, a, b, c, d, p, inner, s, next, fuel - cost);
    }
    LeadsOn(img, p + 20, s, regs, p + 20, s, next, cost, fuel);
  }

  /** Rule `j` is such a `for`. */
  ghost predicate NestedRule(img: Image, w: World, j: nat, q: Quantifier, x: string, a: word, b: word, y: string, c: word, d: word) {
    && Linked(img, w) && |img.rules| == |w.rules| && EmittableWorld(w)
    && j < |w.rules| && w.rules[j].body == Nested(q, x, a, b, y, c, d)
  }

  /** The outer counter stays below its end: the rule uses up any amount of fuel, on every stack with room. */
  lemma NestedForNeverEnds(img: Image, w: World, j: nat, q: Quantifier, x: string, a: word, b: word, y: string, c: word, d: word,
                           s: seq<Value>, fuel: nat)
    requires NestedRule(img, w, j, q, x, a, b, y, c, d) && |s| + 2 <= STACK_MAX
    requires !q.All? && a < b && Wrap(c + 1) < d
    ensures Exec(img, img.rules[j].codeOffset, s, ZERO, fuel) == OutOfFuel
  {
    hide Exec, I.Listed, I.Fetch, GetString, BothPlaced, Code;
    var r, p := w.rules[j], img.rules[j].codeOffset;
    assert RuleLinked(img, r, img.rules[j]);
    Split(img, p, Code(r.body, r.event, None, p), [I.Halt]);
    EntryInside(img, p, Code(r.body, r.event, None, p) + [I.Halt]);
    var inner := NestedPlaced(img, r.event, None, q, x, a, b, y, c, d, p);
    var start := ZERO.(r0 := Num(a), r1 := Num(b));
    BeginSteps(img, q, a, b, c, d, p, inner, s, 0);
    if fuel >= 4 {
      BeginSteps(img, q, a, b, c, d, p, inner, s, fuel - 4);
      RoundsForever(img, q, a, b, c, d, p, inner, s, start, fuel - 4);
    }
    LeadsOn(img, p, s, ZERO, p + 20, s, start, 4, fuel);
  }

  lemma BeginSteps(img: Image, q: Quantifier, a: word, b: word, c: word, d: word, p: nat, inner: seq<I.Instr>, s: seq<Value>, k: nat)
    requires BothPlaced(img, q, a, b, c, d, p, inner) && |s| + 2 <= STACK_MAX
    ensures Exec(img, p, s, ZERO, k + 4) == Exec(img, p + 20, s, ZERO.(r0 := Num(a), r1 := Num(b)), k)
  {
    hide Exec, LoopAt;
    EnterSteps(img, q, a, b, p, inner, s, ZERO, k);
  }

  // ---------- when it ends ----------

  lemma IntMeans(w: World, n: nat, mod: Option<string>, iter: Option<string>, v: word, regs: Registers)
    requires EmittableWorld(w)
    ensures Eval(w, n, mod, iter, Int(v), regs) == Val(Num(v), regs) && Depth(w, n, mod, iter, Int(v)) == 1
    ensures IterAfter(Int(v), iter) == iter
  {
    hide EmittableWorld;
  }

  /** The inner loop, as the evaluator sees it. */
  lemma InnerMeans(w: World, n: nat, mod: Option<string>, x: string, y: string, c: word, d: word, regs: Registers)
    requires EmittableWorld(w) && regs.r2 == Num(0)
    ensures Eval(w, n, mod, Some(x), Inner(y, c, d), regs) == Val(Num(0), regs.(r0 := Num(c), r1 := Num(d)))
  {
    hide EvalRule, EmittableWorld, IndexOf;
    IntMeans(w, n, mod, Some(y), d, regs);
    IntMeans(w, n, mod, Some(y), c, regs);
    var regs1 := regs.(r0 := Num(c), r1 := Num(d));
    assert Eval(w, n, mod, Some(y), NEVER_TRUE, regs1) == Val(Num(0), regs1);
    assert Loop(w, n, mod, Some(y), All, NEVER_TRUE, regs1, w.rounds) == Val(Num(0), regs1);
  }

  /** If the outer range is empty, or the outer loop is at its end after one round, the rule is false. */
  lemma NestedMeans(w: World, n: nat, mod: Option<string>, q: Quantifier, x: string, a: word, b: word, y: string, c: word, d: word)
    requires EmittableWorld(w) && (q.All? || a >= b || Wrap(c + 1) >= d)
    ensures Emittable(Nested(q, x, a, b, y, c, d)) && Emittable(Inner(y, c, d))
    ensures var r := Eval(w, n, mod, None, Nested(q, x, a, b, y, c, d), ZERO); r.Val? && r.value == Num(0)
  {
    hide EvalRule, EmittableWorld, IndexOf, Wrap;
    var start := ZERO.(r0 := Num(a), r1 := Num(b));
    IntMeans(w, n, mod, Some(x), b, ZERO);
    IntMeans(w, n, mod, Some(x), a, ZERO);
    assert Emittable(NEVER_TRUE) && Emittable(Inner(y, c, d)) && Emittable(Nested(q, x, a, b, y, c, d));
    assert Eval(w, n, mod, None, Nested(q, x, a, b, y, c, d), ZERO) == Loop(w, n, mod, Some(x), q, Inner(y, c, d), start, w.rounds);
    InnerMeans(w, n, mod, x, y, c, d, start);
    hide Eval;
    if a < b && !q.All? {
      var next := start.(r0 := Num(Wrap(c + 1)), r1 := Num(d));
      assert Decide(q, Num(0), start.(r0 := Num(c), r1 := Num(d))).None?;
      assert Remaining(next) == 0 < Remaining(start);
      assert Loop(w, n, mod, Some(x), q, Inner(y, c, d), start, w.rounds) == Loop(w, n, mod, Some(x), q, Inner(y, c, d), next, w.rounds);
    }
  }

  lemma NestedDepth(w: World, j: nat, q: Quantifier, x: string, a: word, b: word, y: string, c: word, d: word)
    requires EmittableWorld(w) && j < |w.rules| && w.rules[j].body == Nested(q, x, a, b, y, c, d)
    ensures RuleDepth(w, j) == 2
  {
    hide EmittableWorld;
    var mod := w.rules[j].event;
    IntMeans(w, j, mod, Some(y), c, ZERO);
    IntMeans(w, j, mod, Some(y), d, ZERO);
    IntMeans(w, j, mod, Some(x), a, ZERO);
    IntMeans(w, j, mod, Some(x), b, ZERO);
    assert Depth(w, j, mod, Some(y), NEVER_TRUE) == 1;
    assert Depth(w, j, mod, Some(x), Inner(y, c, d)) == 2;
  }

  /** Exactly when such a rule ends, on every stack with room; it is false then. */
  lemma NestedForEnds(img: Image, w: World, j: nat, q: Quantifier, x: string, a: word, b: word, y: string, c: word, d: word, s: seq<Value>)
    requires NestedRule(img, w, j, q, x, a, b, y, c, d) && |s| + 2 <= STACK_MAX
    ensures (exists fuel: nat :: Exec(img, img.rules[j].codeOffset, s, ZERO, fuel) != OutOfFuel) <==> (q.All? || a >= b || Wrap(c + 1) >= d)
    ensures q.All? || a >= b || Wrap(c + 1) >= d ==> exists fuel: nat :: Exec(img, img.rules[j].codeOffset, s, ZERO, fuel) == Stop(0, 0, s, 0)
  {
    hide Exec, Linked, Eval, RuleDepth, Wrap, EmittableWorld;
    if q.All? || a >= b || Wrap(c + 1) >= d {
      NestedMeans(w, j, w.rules[j].event, q, x, a, b, y, c, d);
      NestedDepth(w, j, q, x, a, b, y, c, d);
      var f := RuleCompiled(img, w, j, s, 0);
      assert Exec(img, img.rules[j].codeOffset, s, ZERO, f) == Stop(0, 0, s, 0);
    } else {
      forall fuel: nat ensures Exec(img, img.rules[j].codeOffset, s, ZERO, fuel) == OutOfFuel {
        NestedForNeverEnds(img, w, j, q, x, a, b, y, c, d, s, fuel);
      }
    }
  }

  // ---------- a nested loop that halts only after rounds that led no nearer its end ----------

  const SIX := Binary(EqualEqual, Lit(Identifier("y")), Int(6), Number)

  /** `for 1 y in (5..100) : (y == 6)` */
  const FIND_SIX := Range(AtLeast(1), "y", Int(5), Int(100), SIX)

  /** `for 5 x in (0..2) : (for 1 y in (5..100) : (y == 6))` */
  const FIVE_SIXES := Range(AtLeast(5), "x", Int(0), Int(2), FIND_SIX)

  lemma IsSix(w: World, n: nat, y: word, regs: Registers)
    requires EmittableWorld(w) && regs.r0 == Num(y)
    ensures Emittable(SIX) && Eval(w, n, Some("file"), Some("y"), SIX, regs) == Val(Truth(y == 6), regs)
  {
    assert "y" != "file" by { assert |"y"| != |"file"|; }
    assert Eval(w, n, Some("file"), Some("y"), Lit(Identifier("y")), regs) == Val(Num(y), regs);
    assert Eval(w, n, Some("file"), Some("y"), Int(6), regs) == Val(Num(6), regs);
  }

  /** The inner loop finds its one match in two rounds, and adds it to the matches counted so far. */
  lemma FindsSix(w: World, n: nat, found: word, regs: Registers)
    requires EmittableWorld(w) && regs.r3 == Num(found) && found < 10
    ensures Emittable(FIND_SIX) && Eval(w, n, Some("file"), Some("x"), FIND_SIX, regs) == Val(Num(1), Registers(Num(6), Num(100), Num(1), Num(found + 1)))
  {
    hide Eval;
    var mod := Some("file");
    var start := regs.(r0 := Num(5), r1 := Num(100));
    IsSix(w, n, 5, start);
    var next := start.(r0 := Num(6), r2 := Num(0));
    IsSix(w, n, 6, next);
    assert Loop(w, n, mod, Some("y"), AtLeast(1), SIX, next, w.rounds) == Val(Num(1), Registers(Num(6), Num(100), Num(1), Num(found + 1)));
    assert Loop(w, n, mod, Some("y"), AtLeast(1), SIX, start, w.rounds) == Loop(w, n, mod, Some("y"), AtLeast(1), SIX, next, w.rounds);
    FindSixLoops(w, n, regs);
  }

  lemma FindSixLoops(w: World, n: nat, regs: Registers)
    requires EmittableWorld(w)
    ensures Emittable(SIX) && Emittable(FIND_SIX)
    ensures Eval(w, n, Some("file"), Some("x"), FIND_SIX, regs) ==
            Loop(w, n, Some("file"), Some("y"), AtLeast(1), SIX, regs.(r0 := Num(5), r1 := Num(100)), w.rounds)
  {
    hide Loop;
    IntMeans(w, n, Some("file"), Some("y"), 100, regs);
    IntMeans(w, n, Some("file"), Some("y"), 5, regs);
  }

  lemma SixCounted(found: word)
    requires found < 3
    ensures var regs := Registers(Num(6), Num(100), Num(1), Num(found + 1)); var next := Registers(Num(7), Num(100), Num(1), Num(found + 2));
            Decide(AtLeast(5), Num(1), regs).None? && Advance(AtLeast(5), Num(1), regs) == next && Remaining(next) == 93
  {
  }

  /** One round of the outer loop: both loops count their match, and the counter is set behind the match. */
  lemma SixRound(w: World, n: nat, found: word, regs: Registers, k: nat)
    requires EmittableWorld(w) && regs.r3 == Num(found) && found < 3 && regs.r0.Num? && regs.r1.Num? && regs.r0.w < regs.r1.w && Remaining(regs) <= 93
    ensures Emittable(FIND_SIX)
    ensures Loop(w, n, Some("file"), Some("x"), AtLeast(5), FIND_SIX, regs, k) ==
            if k == 0 then Lost(Endless)
            else Loop(w, n, Some("file"), Some("x"), AtLeast(5), FIND_SIX, Registers(Num(7), Num(100), Num(1), Num(found + 2)), k - 1)
  {
    hide Eval, Loop, Decide, Advance, Remaining;
    FindsSix(w, n, found, regs);
    SixCounted(found);
    LoopNext(w, n, Some("file"), Some("x"), AtLeast(5), FIND_SIX, regs, k);
  }

  lemma LastRound(w: World, n: nat, found: word, regs: Registers, k: nat)
    requires EmittableWorld(w) && regs.r3 == Num(found) && 3 <= found < 10 && regs.r0.Num? && regs.r1.Num? && 0 < Remaining(regs)
    ensures Emittable(FIND_SIX)
    ensures var r := Loop(w, n, Some("file"), Some("x"), AtLeast(5), FIND_SIX, regs, k); r.Val? && r.value == Num(1)
  {
    FindsSix(w, n, found, regs);
    hide Eval;
  }

  lemma FiveSixesLoop(w: World, n: nat)
    requires EmittableWorld(w)
    ensures Emittable(FIVE_SIXES) && Emittable(FIND_SIX)
    ensures Eval(w, n, Some("file"), None, FIVE_SIXES, ZERO) ==
            Loop(w, n, Some("file"), Some("x"), AtLeast(5), FIND_SIX, ZERO.(r1 := Num(2)), w.rounds)
  {
    hide Loop;
    IntMeans(w, n, Some("file"), Some("x"), 2, ZERO);
    IntMeans(w, n, Some("file"), Some("x"), 0, ZERO);
  }

  /**
   * The outer loop counts the matches of both, and meets its quota of five in the third round on two elements;
   * two of the rounds led no nearer its end.
   */
  lemma FiveSixesMeans(w: World, n: nat)
    requires EmittableWorld(w)
    ensures Emittable(FIVE_SIXES)
    ensures var r := Eval(w, n, Some("file"), None, FIVE_SIXES, ZERO); if w.rounds < 2 then r == Lost(Endless) else r.Val? && r.value == Num(1)
  {
    hide Eval, Loop;
    var k := w.rounds;
    FiveSixesLoop(w, n);
    SixRound(w, n, 0, ZERO.(r1 := Num(2)), k);
    if k > 0 {
      SixRound(w, n, 2, Registers(Num(7), Num(100), Num(1), Num(2)), k - 1);
      if k > 1 {
        LastRound(w, n, 4, Registers(Num(7), Num(100), Num(1), Num(4)), k - 2);
      }
    }
  }
}
