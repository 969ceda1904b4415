/**
 * What a run depends on: not on how much fuel is left over, and not on the values below the level at
 * which it starts, unless it meets the end of the stack.
 */
module Frame {
  import opened Machine
  import opened Semantics
  import opened Correctness
  import I = Instructions

  // ---------- fuel ----------

  /** The same end with `m` more fuel left over. */
  function WithMore(o: Outcome, m: nat): Outcome {
    match o
    case Stop(e, w, s, f) => Stop(e, w, s, f + m)
    case other => other
  }

  /** A run that ends, ends the same way with more fuel: what it does does not depend on the supply. */
  lemma {:induction false} MoreFuel(img: Image, ip: nat, s: seq<Value>, regs: Registers, f: nat, m: nat)
    requires Exec(img, ip, s, regs, f) != OutOfFuel
    ensures Exec(img, ip, s, regs, f + m) == WithMore(Exec(img, ip, s, regs, f), m)
    decreases f
  {
    hide Step, I.Fetch;
    if f > 0 {
      match I.Fetch(img.code, img.strings, ip)
      case Found(i) =>
        match Step(img, i, ip + I.Width(i), s, regs) {
          case Next(ip', s', regs') => MoreFuel(img, ip', s', regs', f - 1, m);
          case Run(j) =>
            if j < |img.rules| {
              var b := img.rules[j].codeOffset;
              MoreFuel(img, b, s, ZERO, f - 1, m);
              var o := Exec(img, b, s, ZERO, f - 1);
              if o.Stop? && o.error == 0 && |o.stack| < STACK_MAX {
                MoreFuel(img, ip + I.Width(i), o.stack + [Num(o.result)], regs, o.fuel, m);
              }
            }
          case _ =>
        }
      case _ =>
    }
  }

  /** So two runs of the same code that both end, end alike. */
  lemma SameEnd(img: Image, ip: nat, s: seq<Value>, regs: Registers, f: nat, g: nat)
    requires Exec(img, ip, s, regs, f) != OutOfFuel && f <= g
    ensures Exec(img, ip, s, regs, g) == WithMore(Exec(img, ip, s, regs, f), g - f)
  {
    hide Exec, WithMore;
    MoreFuel(img, ip, s, regs, f, g - f);
  }

  // ---------- height ----------

  lemma StepHeight(img: Image, i: I.Instr, next: nat, s: seq<Value>, regs: Registers)
    requires |s| <= STACK_MAX
    ensures match Step(img, i, next, s, regs)
            case Next(_, s', _) => |s'| <= STACK_MAX
            case End(_, _, s') => |s'| <= STACK_MAX
            case _ => true
  {
    hide Machine.Apply2, Machine.Apply1, ApplyMatches, Invoke, FieldOf, ItemOf, Unwrap, ModuleOf, FindRule;
  }

  /** The stack never grows over its 256 slots. */
  lemma {:induction false} HeightKept(img: Image, ip: nat, s: seq<Value>, regs: Registers, f: nat)
    requires |s| <= 256
    ensures var o := Exec(img, ip, s, regs, f); o.Stop? ==> |o.stack| <= 256
    decreases f
  {
    hide Step, I.Fetch;
    if f > 0 {
      match I.Fetch(img.code, img.strings, ip)
      case Found(i) =>
        StepHeight(img, i, ip + I.Width(i), s, regs);
        match Step(img, i, ip + I.Width(i), s, regs) {
          case Next(ip', s', regs') => HeightKept(img, ip', s', regs', f - 1);
          case Run(j) =>
            if j < |img.rules| {
              var b := img.rules[j].codeOffset;
              HeightKept(img, b, s, ZERO, f - 1);
              var o := Exec(img, b, s, ZERO, f - 1);
              if o.Stop? && o.error == 0 && |o.stack| < STACK_MAX {
                HeightKept(img, ip + I.Width(i), o.stack + [Num(o.result)], regs, o.fuel);
              }
            }
          case _ =>
        }
      case _ =>
    }
  }

  // ---------- the values below ----------

  /** The overflow exit: no error, a result that is not zero, and a full stack. */
  predicate Overflowed(o: Outcome) {
    o.Stop? && o.error == 0 && o.result == ERROR_STACK_OVERFLOW && |o.stack| >= STACK_MAX
  }

  predicate OverflowEnd(e: Effect) {
    e.End? && e.error == 0 && e.result == ERROR_STACK_OVERFLOW && |e.left| >= STACK_MAX
  }

  /** The effect `e` on a stack that has `below` underneath. */
  function Above(below: seq<Value>, e: Effect): Effect {
    match e
    case Next(ip, s, regs) => Next(ip, below + s, regs)
    case End(error, result, s) => End(error, result, below + s)
    case other => other
  }

  lemma DropAbove(below: seq<Value>, t: seq<Value>, n: nat)
    requires n <= |t|
    ensures Drop(below + t, n) == below + Drop(t, n)
    ensures t != [] ==> below + t != [] && Top(below + t) == Top(t)
    ensures |t| >= 2 ==> (below + t)[|below + t| - 2] == t[|t| - 2]
    ensures |t| >= 3 ==> (below + t)[|below + t| - 3] == t[|t| - 3]
  {
  }

  lemma PushAbove(below: seq<Value>, ip: nat, t: seq<Value>, c: Computed, regs: Registers)
    ensures var y := PushComputed(ip, below + t, c, regs); y == Above(below, PushComputed(ip, t, c, regs)) || OverflowEnd(y)
  {
    if c.Ok? {
      assert below + t + [c.value] == below + (t + [c.value]);
    }
  }

  /** An instruction that finds its operands on `t` does the same with anything underneath, or meets the end of the stack. */
  lemma StepAbove(img: Image, i: I.Instr, next: nat, below: seq<Value>, t: seq<Value>, regs: Registers)
    requires !Step(img, i, next, t, regs).Dies?
    ensures var y := Step(img, i, next, below + t, regs); y == Above(below, Step(img, i, next, t, regs)) || OverflowEnd(y)
  {
    hide Machine.Apply2, Machine.Apply1, ApplyMatches, Invoke, FieldOf, ItemOf, Unwrap, ModuleOf, FindRule, GetRegister, SetRegister;
    hide PushComputed, Drop, Top, Above, OverflowEnd;
    if i.PushInt? || i.PushBool? || i.PushString? || i.PushModule? || i.Load? {
      ConstantAbove(img, i, next, below, t, regs);
    } else if i.Jump? || i.RunRule? || i.Halt? || i.Pop? || i.Store? || i.JFalse? || i.JTrue? {
      PlainAbove(img, i, next, below, t, regs);
    } else if i.Call? {
      CallAbove(img, next, below, t, regs);
    } else {
      OperandsAbove(img, i, next, below, t, regs);
    }
  }

  lemma ConstantAbove(img: Image, i: I.Instr, next: nat, below: seq<Value>, t: seq<Value>, regs: Registers)
    requires i.PushInt? || i.PushBool? || i.PushString? || i.PushModule? || i.Load?
    ensures var y := Step(img, i, next, below + t, regs); y == Above(below, Step(img, i, next, t, regs)) || OverflowEnd(y)
  {
    hide ModuleOf, GetRegister;
    match i
    case PushModule(x) => PushAbove(below, next, t, ModuleOf(img.objects, x), regs);
    case Load(k) => PushAbove(below, next, t, GetRegister(regs, k), regs);
    case PushInt(v) => PushAbove(below, next, t, Ok(Num(v)), regs);
    case PushBool(v) => PushAbove(below, next, t, Ok(Num(v)), regs);
    case PushString(v) => PushAbove(below, next, t, Ok(Str(v)), regs);
  }

  lemma PlainAbove(img: Image, i: I.Instr, next: nat, below: seq<Value>, t: seq<Value>, regs: Registers)
    requires i.Jump? || i.RunRule? || i.Halt? || i.Pop? || i.Store? || i.JFalse? || i.JTrue?
    requires !Step(img, i, next, t, regs).Dies?
    ensures Step(img, i, next, below + t, regs) == Above(below, Step(img, i, next, t, regs))
  {
    hide Machine.Apply2, Machine.Apply1, ApplyMatches, StepCall, PushComputed, FindRule, SetRegister, Drop, Top;
    if t != [] {
      DropAbove(below, t, 1);
    }
  }

  lemma CallAbove(img: Image, next: nat, below: seq<Value>, t: seq<Value>, regs: Registers)
    requires !Step(img, I.Call, next, t, regs).Dies?
    ensures var y := Step(img, I.Call, next, below + t, regs); y == Above(below, Step(img, I.Call, next, t, regs)) || OverflowEnd(y)
  {
    hide Invoke, PushComputed, Above, OverflowEnd;
    DropAbove(below, t, 2);
    var n: nat := t[|t| - 2].w;
    DropAbove(below, t, 2 + n);
    assert Popped(Drop(below + t, 2), n) == Popped(Drop(t, 2), n);
    PushAbove(below, next, Drop(t, 2 + n), Invoke(img.externals, Top(t), Popped(Drop(t, 2), n)), regs);
  }

  lemma OperandsAbove(img: Image, i: I.Instr, next: nat, below: seq<Value>, t: seq<Value>, regs: Registers)
    requires i.Apply2? || i.Apply1? || i.Matches? || i.Object? || i.Index? || i.GetField?
    requires !Step(img, i, next, t, regs).Dies?
    ensures var y := Step(img, i, next, below + t, regs); y == Above(below, Step(img, i, next, t, regs)) || OverflowEnd(y)
  {
    hide Machine.Apply2, Machine.Apply1, ApplyMatches, FieldOf, ItemOf, Unwrap, PushComputed, Drop, Top, Above, OverflowEnd;
    match i {
      case Apply2(o) =>
        DropAbove(below, t, 2);
        PushAbove(below, next, Drop(t, 2), Machine.Apply2(o, t[|t| - 2], Top(t)), regs);
      case Apply1(o) =>
        DropAbove(below, t, 1);
        PushAbove(below, next, Drop(t, 1), Machine.Apply1(o, Top(t)), regs);
      case Matches =>
        DropAbove(below, t, 3);
        PushAbove(below, next, Drop(t, 3), ApplyMatches(img.externals, t[|t| - 3], t[|t| - 2], Top(t)), regs);
      case Object =>
        DropAbove(below, t, 1);
        PushAbove(below, next, Drop(t, 1), Unwrap(Top(t)), regs);
      case Index =>
        DropAbove(below, t, 2);
        PushAbove(below, next, Drop(t, 2), ItemOf(t[|t| - 2], Top(t)), regs);
      case GetField(x) =>
        DropAbove(below, t, 1);
        PushAbove(below, next, Drop(t, 1), FieldOf(Top(t), x), regs);
    }
  }

  /** The outcome `o` of a run on a stack that has `below` underneath. */
  function OutcomeAbove(below: seq<Value>, o: Outcome): Outcome {
    match o
    case Stop(e, w, s, f) => Stop(e, w, below + s, f)
    case other => other
  }

  /**
   * The frame property: a run that ends on the stack `t` alone, ends the same way with any values
   * underneath, and leaves them as they are; or it meets the end of the stack.
   */
  lemma {:induction false} FrameKept(img: Image, ip: nat, below: seq<Value>, t: seq<Value>, regs: Registers, f: nat)
    requires Exec(img, ip, t, regs, f).Stop?
    ensures var o := Exec(img, ip, below + t, regs, f); o == OutcomeAbove(below, Exec(img, ip, t, regs, f)) || Overflowed(o)
    decreases f
  {
    hide Step, I.Fetch;
    match I.Fetch(img.code, img.strings, ip)
    case Found(i) =>
      var next := ip + I.Width(i);
      StepAbove(img, i, next, below, t, regs);
      if Step(img, i, next, below + t, regs) == Above(below, Step(img, i, next, t, regs)) {
        match Step(img, i, next, t, regs) {
          case Next(ip', s', regs') => FrameKept(img, ip', below, s', regs', f - 1);
          case Run(j) => FrameNested(img, ip, i, j, below, t, regs, f);
          case _ =>
        }
      }
    case _ =>
  }

  lemma {:induction false} FrameNested(img: Image, ip: nat, i: I.Instr, j: nat, below: seq<Value>, t: seq<Value>, regs: Registers, f: nat)
    requires f > 0 && j < |img.rules| && Exec(img, ip, t, regs, f).Stop? && I.Fetch(img.code, img.strings, ip) == I.Found(i)
    requires Step(img, i, ip + I.Width(i), t, regs) == Run(j) && Step(img, i, ip + I.Width(i), below + t, regs) == Run(j)
    ensures var o := Exec(img, ip, below + t, regs, f); o == OutcomeAbove(below, Exec(img, ip, t, regs, f)) || Overflowed(o)
    decreases f, 0
  {
    hide Step, I.Fetch;
    var b := img.rules[j].codeOffset;
    FrameKept(img, b, below, t, ZERO, f - 1);
    var o := Exec(img, b, t, ZERO, f - 1);
    if o.error == 0 && |o.stack| < STACK_MAX {
      FrameKept(img, ip + I.Width(i), below, o.stack + [Num(o.result)], regs, o.fuel);
      assert below + o.stack + [Num(o.result)] == below + (o.stack + [Num(o.result)]);
    }
  }

  // ---------- what an error leaves behind ----------

  lemma SameLength(img: Image, w: World)
    requires Linked(img, w)
    ensures |img.rules| == |w.rules| && EmittableWorld(w)
  {
  }

  /**
   * A rule that stops with an error leaves the same values on every stack, no more than its depth; they
   * are not taken off.
   */
  lemma RuleResidue(img: Image, w: World, j: nat, s: seq<Value>) returns (f: nat, residue: seq<Value>)
    requires Linked(img, w) && j < |w.rules| && |s| + RuleDepth(w, j) <= STACK_MAX && EvalRule(w, j).Err?
    ensures |residue| <= RuleDepth(w, j)
    ensures Exec(img, img.rules[j].codeOffset, [], ZERO, f).Stop? && Exec(img, img.rules[j].codeOffset, [], ZERO, f).stack == residue
    ensures var o := Exec(img, img.rules[j].codeOffset, s, ZERO, f);
            o.Stop? && o.error == EvalRule(w, j).error && o.result == 0 && o.stack == s + residue
  {
    hide Exec, EvalRule, Linked, RuleDepth;
    SameLength(img, w);
    var b := img.rules[j].codeOffset;
    var tall := seq(STACK_MAX - RuleDepth(w, j), _ => Num(0));
    var f0 := RuleCompiled(img, w, j, [], 0);
    var f1 := RuleCompiled(img, w, j, tall, 0);
    var f2 := RuleCompiled(img, w, j, s, 0);
    f := f0 + f1 + f2;
    SameEnd(img, b, [], ZERO, f0, f);
    SameEnd(img, b, tall, ZERO, f1, f);
    SameEnd(img, b, s, ZERO, f2, f);
    residue := Exec(img, b, [], ZERO, f).stack;
    assert tall + [] == tall && s + [] == s;
    FrameKept(img, b, tall, [], ZERO, f);
    FrameKept(img, b, s, [], ZERO, f);
    HeightKept(img, b, tall, ZERO, f);
  }
}
