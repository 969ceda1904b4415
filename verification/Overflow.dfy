/**
 * What a full stack does.  The code of a rule begins with a push, of a constant, of the module or of the
 * verdict of another rule, so that on a full stack no rule gets beyond its first instruction.
 */
module Overflow {
  import opened Words
  import opened Wrappers
  import opened CStrings
  import opened Ast
  import opened Machine
  import opened Semantics
  import opened Codegen
  import opened Correctness
  import I = Instructions

  // ---------- the first instruction ----------

  /** The first instruction of the code of `e`; none if it is an identifier without code. */
  function First(e: Expr, mod: Option<string>, iter: Option<string>): Option<I.Instr>
    requires Emittable(e)
  {
    match e
    case Binary(_, l, _, _) => First(l, mod, iter)
    case Unary(_, r) => First(r, mod, iter)
    case Grouping(i) => First(i, mod, iter)
    case Lit(l) => var c := LiteralCode(l, mod, iter); if c == [] then None else Some(c[0])
    case Call(_, args) => if args == [] then Some(I.PushInt(0)) else FirstOf(args, mod, iter)
    case Field(o, _, _) => First(o, mod, iter)
    case Index(a, _) => First(a, mod, iter)
    case Range(_, x, _, t, _) => First(t, mod, Some(x))
  }

  /** Arguments are evaluated from the last one on. */
  function FirstOf(es: seq<Expr>, mod: Option<string>, iter: Option<string>): Option<I.Instr>
    requires es != [] && AllEmittable(es)
  {
    if |es| == 1 then First(es[0], mod, iter) else FirstOf(es[1..], mod, iter)
  }

  lemma {:induction false} FirstCode(e: Expr, mod: Option<string>, iter: Option<string>, b: nat)
    requires Emittable(e)
    ensures var c := Code(e, mod, iter, b); First(e, mod, iter).Some? ==> c != [] && c[0] == First(e, mod, iter).value
    decreases e, 1
  {
    hide I.Size, LoopCode;
    match e
    case Binary(_, l, _, _) => FirstCode(l, mod, iter, b);
    case Unary(_, r) => FirstCode(r, mod, iter, b);
    case Grouping(i) => FirstCode(i, mod, iter, b);
    case Lit(_) =>
    case Call(_, args) => if args != [] { FirstArgumentCode(args, mod, iter, b); }
    case Field(o, _, _) => FirstCode(o, mod, iter, b);
    case Index(a, _) => FirstCode(a, mod, iter, b);
    case Range(_, x, _, t, _) => FirstCode(t, mod, Some(x), b);
  }

  lemma {:induction false} FirstArgumentCode(es: seq<Expr>, mod: Option<string>, iter: Option<string>, b: nat)
    requires es != [] && AllEmittable(es)
    ensures var c := ArgumentsCode(es, mod, iter, b); FirstOf(es, mod, iter).Some? ==> c != [] && c[0] == FirstOf(es, mod, iter).value
    decreases es, 0
  {
    hide Code;
    if |es| == 1 {
      assert es[1..] == [];
      FirstCode(es[0], mod, iter, b);
      assert ArgumentsCode(es, mod, iter, b) == Code(es[0], mod, iter, b);
    } else {
      FirstArgumentCode(es[1..], mod, iter, b);
    }
  }

  predicate Pushes(i: I.Instr) {
    i.PushInt? || i.PushBool? || i.PushString? || i.PushModule? || i.RunRule? || i == I.Load(0)
  }

  /** Every rule begins with a push, of some kind. */
  lemma {:induction false} FirstPushes(e: Expr, mod: Option<string>, iter: Option<string>)
    requires Emittable(e)
    ensures First(e, mod, iter).Some? ==> Pushes(First(e, mod, iter).value)
    decreases e, 1
  {
    match e
    case Binary(_, l, _, _) => FirstPushes(l, mod, iter);
    case Unary(_, r) => FirstPushes(r, mod, iter);
    case Grouping(i) => FirstPushes(i, mod, iter);
    case Lit(_) =>
    case Call(_, args) => if args != [] { FirstArgumentPushes(args, mod, iter); }
    case Field(o, _, _) => FirstPushes(o, mod, iter);
    case Index(a, _) => FirstPushes(a, mod, iter);
    case Range(_, x, _, t, _) => FirstPushes(t, mod, Some(x));
  }

  lemma {:induction false} FirstArgumentPushes(es: seq<Expr>, mod: Option<string>, iter: Option<string>)
    requires es != [] && AllEmittable(es)
    ensures FirstOf(es, mod, iter).Some? ==> Pushes(FirstOf(es, mod, iter).value)
    decreases es, 0
  {
    if |es| == 1 {
      FirstPushes(es[0], mod, iter);
    } else {
      FirstArgumentPushes(es[1..], mod, iter);
    }
  }

  // ---------- the end of a rule on a full stack ----------

  /** How an activation ends. */
  datatype Ended = Ended(error: nat, result: word)

  const OVERFLOWED := Ended(0, ERROR_STACK_OVERFLOW)

  /**
   * How rule `j` ends on a full stack: with a non-zero result and no error, unless it begins with a module that
   * is not loaded; a rule that begins with a reference ends as that rule does.
   */
  function FullEnd(w: World, j: nat): Option<Ended>
    requires EmittableWorld(w) && j < |w.rules|
    decreases j
  {
    var r := w.rules[j];
    assert Emittable(r.body);
    match First(r.body, r.event, None)
    case None => None
    case Some(PushModule(x)) => Some(if x in w.objects then OVERFLOWED else Ended(ERROR_MODULE, 0))
    case Some(RunRule(x)) =>
      var i := IndexOf(w.rules, x);
      if i.Some? && i.value < j then FullEnd(w, i.value) else None
    case Some(_) => Some(OVERFLOWED)
  }

  lemma FirstPlaced(img: Image, w: World, j: nat)
    requires Linked(img, w) && j < |w.rules|
    ensures |img.rules| == |w.rules| && Emittable(w.rules[j].body)
    ensures var i := First(w.rules[j].body, w.rules[j].event, None); i.Some? ==> At(img, img.rules[j].codeOffset, i.value)
  {
    hide I.Listed, I.Fetch, GetString, First, Code, Emittable;
    var r, b := w.rules[j], img.rules[j].codeOffset;
    assert RuleLinked(img, r, img.rules[j]);
    assert r in w.rules;
    FirstCode(r.body, r.event, None, b);
    var c := Code(r.body, r.event, None, b);
    if c != [] {
      assert c + [I.Halt] == [c[0]] + (c[1..] + [I.Halt]);
      Head(img, b, c[0], c[1..] + [I.Halt]);
    }
  }

  /** A push on a full stack ends the activation, and so does a module that is not loaded. */
  lemma PushEnds(img: Image, ip: nat, i: I.Instr, s: seq<Value>, k: nat)
    requires At(img, ip, i) && |s| == STACK_MAX
    requires i.PushInt? || i.PushBool? || i.PushString? || i.PushModule? || i == I.Load(0)
    ensures Exec(img, ip, s, ZERO, k + 1) ==
            if i.PushModule? && i.text !in img.objects then Stop(ERROR_MODULE, 0, s, k) else Stop(0, ERROR_STACK_OVERFLOW, s, k)
  {
    hide Exec, At;
    Fire(img, ip, i, s, ZERO, k);
  }

  lemma ReferenceEnds(img: Image, ip: nat, x: string, i: nat, s: seq<Value>, f: nat)
    requires At(img, ip, I.RunRule(x)) && FindRule(img, x) == Some(i) && i < |img.rules| && |s| == STACK_MAX
    requires var o := Exec(img, img.rules[i].codeOffset, s, ZERO, f);
             o.Stop? && o.stack == s && (o.result == if o.error == 0 then ERROR_STACK_OVERFLOW else 0)
    ensures Exec(img, ip, s, ZERO, f + 1) == Exec(img, img.rules[i].codeOffset, s, ZERO, f)
  {
  }

  /** On a full stack every rule ends so, and the stack stays as it is. */
  lemma {:induction false} FullStack(img: Image, w: World, j: nat, s: seq<Value>, k: nat) returns (f: nat)
    requires Linked(img, w) && EmittableWorld(w) && j < |w.rules| && |s| == STACK_MAX && FullEnd(w, j).Some?
    ensures |img.rules| == |w.rules|
    ensures var e := FullEnd(w, j).value;
            && (e == OVERFLOWED || e == Ended(ERROR_MODULE, 0))
            && Exec(img, img.rules[j].codeOffset, s, ZERO, f) == Stop(e.error, e.result, s, k)
    decreases j
  {
    hide Exec, At, First, FindRuleFrom, IndexFrom, RuleLinked;
    var r, b := w.rules[j], img.rules[j].codeOffset;
    FirstPlaced(img, w, j);
    FirstPushes(r.body, r.event, None);
    var first := First(r.body, r.event, None).value;
    f := k + 1;
    if first.RunRule? {
      var i := IndexOf(w.rules, first.text).value;
      FindLinked(img, w, first.text, 0);
      f := FullStack(img, w, i, s, k);
      ReferenceEnds(img, b, first.text, i, s, f);
      f := f + 1;
    } else {
      PushEnds(img, b, first, s, k);
    }
  }

  // ---------- which rules it covers ----------

  predicate Known(v: Evaluated) {
    v.Lost? ==> v.reason == UndefinedArithmetic
  }

  /** If the instruction refers to a rule, that rule comes before `n` and has a meaning. */
  ghost predicate RefersKnown(w: World, n: nat, i: I.Instr)
    requires EmittableWorld(w)
  {
    i.RunRule? ==> var j := IndexOf(w.rules, i.text); j.Some? && j.value < n && Known(EvalRule(w, j.value))
  }

  /** What a body begins with is evaluated whatever happens. */
  lemma {:induction false} LeftKnown(w: World, n: nat, mod: Option<string>, iter: Option<string>, e: Expr, regs: Registers)
    requires EmittableWorld(w) && Emittable(e) && Known(Eval(w, n, mod, iter, e, regs))
    ensures First(e, mod, iter).Some? && RefersKnown(w, n, First(e, mod, iter).value)
    decreases e, 1
  {
    hide EvalRule, IndexOf, Operate, OperateUnary, Match, Access, ItemOf, Invoke, Loop;
    match e
    case Binary(_, l, _, _) => LeftKnown(w, n, mod, iter, l, regs);
    case Unary(_, r) => LeftKnown(w, n, mod, iter, r, regs);
    case Grouping(i) => LeftKnown(w, n, mod, iter, i, regs);
    case Lit(_) =>
    case Call(_, args) => if args != [] { LeftArgumentKnown(w, n, mod, iter, args, regs); }
    case Field(o, _, _) => LeftKnown(w, n, mod, iter, o, regs);
    case Index(a, _) => LeftKnown(w, n, mod, iter, a, regs);
    case Range(_, x, _, t, _) => LeftKnown(w, n, mod, Some(x), t, regs);
  }

  lemma {:induction false} LeftArgumentKnown(w: World, n: nat, mod: Option<string>, iter: Option<string>, es: seq<Expr>, regs: Registers)
    requires EmittableWorld(w) && es != [] && AllEmittable(es)
    requires var r := EvalAll(w, n, mod, iter, es, regs); r.Failed? ==> Known(r.failure)
    ensures FirstOf(es, mod, iter).Some? && RefersKnown(w, n, FirstOf(es, mod, iter).value)
    decreases es, 0
  {
    hide EvalRule, IndexOf, Eval;
    if |es| == 1 {
      assert EvalAll(w, n, mod, iter, es[1..], regs) == Vals([], regs);
      LeftKnown(w, n, mod, iter, es[0], regs);
    } else {
      LeftArgumentKnown(w, n, mod, iter, es[1..], regs);
    }
  }

  /** Every rule with a meaning, undefined arithmetic included, is covered. */
  lemma {:induction false} MeaningCovered(w: World, j: nat)
    requires EmittableWorld(w) && j < |w.rules| && Known(EvalRule(w, j))
    ensures FullEnd(w, j).Some?
    decreases j
  {
    hide Eval, IndexFrom, First;
    var r := w.rules[j];
    LeftKnown(w, j, r.event, None, r.body, ZERO);
    var first := First(r.body, r.event, None).value;
    if first.RunRule? {
      MeaningCovered(w, IndexOf(w.rules, first.text).value);
    }
  }
}
