/**
 * Control-flow integrity: every jump of a rule's code goes to the first byte of an instruction of the
 * same rule, and the code refers only to strings that were interned for it.
 */
module ControlFlow {
  import opened Words
  import opened Wrappers
  import opened CStrings
  import opened Ast
  import opened Codegen
  import opened Emitter
  import I = Instructions

  // ---------- jump targets ----------

  /** `a` is the address of an instruction of `x`, which starts at `b`, or the address after the last. */
  predicate StartsAt(x: seq<I.Instr>, b: nat, a: nat) {
    a == b || (x != [] && StartsAt(x[1..], b + I.Width(x[0]), a))
  }

  predicate IsJump(i: I.Instr) {
    i.JTrue? || i.JFalse? || i.Jump?
  }

  /** All jumps in `x` go to instructions of `whole`, or right behind it. */
  predicate JumpsInto(x: seq<I.Instr>, whole: seq<I.Instr>, b: nat) {
    forall i <- x :: IsJump(i) ==> StartsAt(whole, b, i.target)
  }

  lemma {:induction false} StartsAppend(x: seq<I.Instr>, y: seq<I.Instr>, b: nat, a: nat)
    requires StartsAt(x, b, a) || StartsAt(y, b + I.Size(x), a)
    ensures StartsAt(x + y, b, a)
    decreases |x|
  {
    if x == [] {
      assert x + y == y;
    } else if a != b {
      assert (x + y)[1..] == x[1..] + y;
      StartsAppend(x[1..], y, b + I.Width(x[0]), a);
    }
  }

  /** A seam is the start of an instruction, or the end. */
  lemma {:induction false} SeamStarts(x: seq<I.Instr>, b: nat)
    ensures StartsAt(x, b, b + I.Size(x))
    decreases |x|
  {
    if x != [] {
      SeamStarts(x[1..], b + I.Width(x[0]));
    }
  }

  lemma JumpsAppend(x: seq<I.Instr>, y: seq<I.Instr>, b: nat)
    requires JumpsInto(x, x, b) && JumpsInto(y, y, b + I.Size(x))
    ensures JumpsInto(x + y, x + y, b)
  {
    hide StartsAt;
    forall i <- x + y | IsJump(i) ensures StartsAt(x + y, b, i.target) {
      StartsAppend(x, y, b, i.target);
    }
  }

  /** Straight code added behind leaves the jumps alone. */
  lemma JumpsThen(x: seq<I.Instr>, y: seq<I.Instr>, b: nat)
    requires JumpsInto(x, x, b) && forall i <- y :: !IsJump(i)
    ensures JumpsInto(x + y, x + y, b)
  {
    JumpsAppend(x, y, b);
  }

  lemma {:induction false} CodeJumps(e: Expr, mod: Option<string>, iter: Option<string>, b: nat)
    requires b + I.Size(Code(e, mod, iter, b)) < WORD_LIMIT
    ensures var x := Code(e, mod, iter, b); JumpsInto(x, x, b)
    decreases e, 1
  {
    hide Code, I.Size, IterAfter, Mentions, StartsAt, JumpsInto, BinaryInstr, UnaryInstr, IterAfterAll, MentionsAll;
    match e
    case Binary(op, l, r, tag) =>
      if op == And {
        AndJumps(e, mod, iter, b);
      } else {
        StrictCode(e, mod, iter, b);
        var x := Code(l, mod, iter, b);
        CodeJumps(l, mod, iter, b);
        CodeJumps(r, mod, IterAfter(l, iter), b + I.Size(x));
        JumpsAppend(x, Code(r, mod, IterAfter(l, iter), b + I.Size(x)), b);
        BinaryJumps(op, tag);
        JumpsThen(x + Code(r, mod, IterAfter(l, iter), b + I.Size(x)), [BinaryInstr(op, tag)], b);
      }
    case Unary(op, r) =>
      UnaryCode(e, mod, iter, b);
      CodeJumps(r, mod, iter, b);
      UnaryJumps(op);
      JumpsThen(Code(r, mod, iter, b), [UnaryInstr(op)], b);
    case Grouping(i) =>
      GroupingCode(e, mod, iter, b);
      CodeJumps(i, mod, iter, b);
    case Lit(_) => LiteralJumps(e, mod, iter, b);
    case Call(f, args) =>
      CallCode(e, mod, iter, b);
      var x, count := ArgumentsCode(args, mod, iter, b), I.PushInt(Wrap(|args|));
      var y := Code(f, mod, IterAfterAll(args, iter), b + I.Size(x) + 5);
      ArgumentsJumps(args, mod, iter, b);
      CodeJumps(f, mod, IterAfterAll(args, iter), b + I.Size(x) + 5);
      JumpsThen(x, [count], b);
      SizeThen(x, count);
      JumpsAppend(x + [count], y, b);
      JumpsThen(x + [count] + y, [I.Call], b);
    case Field(o, name, ty) =>
      FieldCode(e, mod, iter, b);
      CodeJumps(o, mod, iter, b);
      JumpsThen(Code(o, mod, iter, b), [I.GetField(name)], b);
      JumpsThen(Code(o, mod, iter, b) + [I.GetField(name)], [I.Object], b);
    case Index(a, i) =>
      IndexCode(e, mod, iter, b);
      var x := Code(a, mod, iter, b);
      var y := Code(i, mod, IterAfter(a, iter), b + I.Size(x));
      CodeJumps(a, mod, iter, b);
      CodeJumps(i, mod, IterAfter(a, iter), b + I.Size(x));
      JumpsAppend(x, y, b);
      JumpsThen(x + y, [I.Index], b);
    case Range(_, _, _, _, _) => RangeJumps(e, mod, iter, b);
    case Null => LiteralJumps(e, mod, iter, b);
  }

  lemma GroupingCode(e: Expr, mod: Option<string>, iter: Option<string>, b: nat)
    requires e.Grouping?
    ensures Code(e, mod, iter, b) == Code(e.inner, mod, iter, b)
  {
  }

  lemma BinaryJumps(op: BinOp, tag: Tag)
    ensures forall i <- [BinaryInstr(op, tag)] :: !IsJump(i)
  {
  }

  lemma UnaryJumps(op: UnOp)
    ensures forall i <- [UnaryInstr(op)] :: !IsJump(i)
  {
  }

  lemma LiteralJumps(e: Expr, mod: Option<string>, iter: Option<string>, b: nat)
    requires e.Lit? || e.Null?
    ensures var x := Code(e, mod, iter, b); JumpsInto(x, x, b)
  {
  }

  lemma {:induction false} ArgumentsJumps(es: seq<Expr>, mod: Option<string>, iter: Option<string>, b: nat)
    requires b + I.Size(ArgumentsCode(es, mod, iter, b)) < WORD_LIMIT
    ensures var x := ArgumentsCode(es, mod, iter, b); JumpsInto(x, x, b)
    decreases es, 0
  {
    hide Code, I.Size, StartsAt;
    if es != [] {
      var x := ArgumentsCode(es[1..], mod, iter, b);
      var y := Code(es[0], mod, IterAfterAll(es[1..], iter), b + I.Size(x));
      I.SizeAppend(x, y);
      ArgumentsJumps(es[1..], mod, iter, b);
      CodeJumps(es[0], mod, IterAfterAll(es[1..], iter), b + I.Size(x));
      JumpsAppend(x, y, b);
    }
  }

  /** The two jumps of `and`, one over the other and one over the right operand. */
  lemma {:induction false} AndJumps(e: Expr, mod: Option<string>, iter: Option<string>, b: nat)
    requires e.Binary? && e.op == And && b + I.Size(Code(e, mod, iter, b)) < WORD_LIMIT
    ensures var x := Code(e, mod, iter, b); JumpsInto(x, x, b)
    decreases e, 0
  {
    hide Code, I.Size, IterAfter, Mentions, StartsAt;
    AndCode(e, mod, iter, b);
    var x := Code(e.left, mod, iter, b);
    var q := b + I.Size(x);
    var y := Code(e.right, mod, IterAfter(e.left, iter), q + 15);
    CodeJumps(e.left, mod, iter, b);
    CodeJumps(e.right, mod, IterAfter(e.left, iter), q + 15);
    GuardJumps(q, y);
    JumpsAppend(x, Guarded(q + 15, y), b);
    JumpsThen(x + Guarded(q + 15, y), [I.Apply2(I.AndL)], b);
  }

  lemma GuardJumps(q: nat, y: seq<I.Instr>)
    requires JumpsInto(y, y, q + 15) && q + 15 + I.Size(y) < WORD_LIMIT
    ensures JumpsInto(Guarded(q + 15, y), Guarded(q + 15, y), q)
  {
    hide I.Size, StartsAt;
    var p := q + 15;
    var z, jump := [I.JTrue(Wrap(p)), I.PushBool(0)], I.Jump(Wrap(p + I.Size(y)));
    GuardSize(p);
    SizeThen(z, jump);
    SeamStarts(y, p);
    assert Guarded(p, y) == z + [jump] + y;
    forall i <- Guarded(p, y) | IsJump(i) ensures StartsAt(Guarded(p, y), q, i.target) {
      if i == z[0] {
        StartsHere(y, p);
      } else if i == jump {
      } else {
        assert i in y;
      }
      StartsAppend(z + [jump], y, q, i.target);
    }
  }

  lemma StartsHere(x: seq<I.Instr>, b: nat)
    ensures StartsAt(x, b, b)
  {
  }

  /** The bounds come first, then the loop. */
  lemma {:induction false} RangeJumps(e: Expr, mod: Option<string>, iter: Option<string>, b: nat)
    requires e.Range? && b + I.Size(Code(e, mod, iter, b)) < WORD_LIMIT
    ensures var x := Code(e, mod, iter, b); JumpsInto(x, x, b)
    decreases e, 0
  {
    hide Code, I.Size, IterAfter, Mentions, StartsAt, LoopCode;
    RangeCode(e, mod, iter, b);
    var last := Code(e.end, mod, Some(e.ivar), b);
    var iter1 := IterAfter(e.end, Some(e.ivar));
    var first := Code(e.start, mod, iter1, b + I.Size(last));
    var p := b + I.Size(last) + I.Size(first);
    var iter2 := IterAfter(e.start, iter1);
    var cond := Code(e.condition, mod, iter2, ConditionStart(p));
    LoopParts(e.quantifier, p, cond);
    CodeJumps(e.end, mod, Some(e.ivar), b);
    CodeJumps(e.start, mod, iter1, b + I.Size(last));
    CodeJumps(e.condition, mod, iter2, ConditionStart(p));
    LoopJumps(e.quantifier, p, cond);
    I.SizeAppend(last, first);
    JumpsAppend(last, first, b);
    JumpsAppend(last + first, LoopCode(e.quantifier, p, cond), b);
  }

  /** The head's jump to the exit, the verdict's to the exit, past the count or to the next round, and the one back. */
  lemma LoopJumps(q: Quantifier, b: nat, cond: seq<I.Instr>)
    requires JumpsInto(cond, cond, ConditionStart(b)) && b + I.Size(LoopCode(q, b, cond)) < WORD_LIMIT
    ensures JumpsInto(LoopCode(q, b, cond), LoopCode(q, b, cond), b)
  {
    hide I.Size, StartsAt, LoopCode, Verdict, LoopHead, NextRound;
    LoopParts(q, b, cond);
    var v := b + 27 + I.Size(cond);
    var next := v + VerdictSize(q);
    var exit := next + 22;
    var x := LoopCode(q, b, cond);
    LoopSeams(q, b, cond);
    forall i <- x | IsJump(i) ensures StartsAt(x, b, i.target) {
      LoopJumpTargets(q, b, cond, i);
    }
  }

  lemma LoopJumpTargets(q: Quantifier, b: nat, cond: seq<I.Instr>, i: I.Instr)
    requires i in LoopCode(q, b, cond) && IsJump(i) && b + I.Size(LoopCode(q, b, cond)) < WORD_LIMIT
    requires JumpsInto(cond, cond, ConditionStart(b))
    ensures var v := b + 27 + I.Size(cond); var next := v + VerdictSize(q);
            i.target == b + 10 || i.target == next || i.target == next + 22 || (q.AtLeast? && i.target == v + 20)
            || StartsAt(cond, ConditionStart(b), i.target)
  {
    hide I.Size, StartsAt, Verdict, LoopHead, NextRound, LoopCode;
    var v := b + 27 + I.Size(cond);
    LoopSizeBound(q, b, cond);
    InLoop(q, b, cond, i);
    FragmentTargets(q, v + VerdictSize(q) + 22, v, b + 10);
  }

  lemma LoopSizeBound(q: Quantifier, b: nat, cond: seq<I.Instr>)
    ensures b + I.Size(LoopCode(q, b, cond)) == b + 27 + I.Size(cond) + VerdictSize(q) + 22 + 6
  {
    LoopParts(q, b, cond);
  }

  lemma InLoop(q: Quantifier, b: nat, cond: seq<I.Instr>, i: I.Instr)
    requires i in LoopCode(q, b, cond)
    ensures var v := b + 27 + I.Size(cond); var exit := v + VerdictSize(q) + 22;
            || i in [I.Store(0), I.Store(1)] || i in LoopHead(exit) || i in cond || i in Verdict(q, v)
            || i in NextRound(b + 10) || i in LOOP_EXIT
  {
    hide I.Size, Verdict, LoopHead, NextRound;
  }

  /** Where the jumps of the fixed parts go. */
  lemma FragmentTargets(q: Quantifier, exit: nat, v: nat, head: nat)
    requires v + VerdictSize(q) + 22 == exit < WORD_LIMIT && head <= exit
    ensures forall i <- LoopHead(exit) :: (IsJump(i) ==> i.target == exit)
    ensures forall i <- NextRound(head) :: (IsJump(i) ==> i.target == head)
    ensures forall i <- Verdict(q, v) ::
              (IsJump(i) ==> i.target == exit || (q.AtLeast? && (i.target == v + 20 || i.target == v + 53)))
    ensures forall i <- LOOP_EXIT :: !IsJump(i)
  {
    hide Verdict;
    VerdictTargets(q, exit, v);
  }

  lemma VerdictTargets(q: Quantifier, exit: nat, v: nat)
    requires v + VerdictSize(q) + 22 == exit < WORD_LIMIT
    ensures forall i <- Verdict(q, v) ::
              (IsJump(i) ==> i.target == exit || (q.AtLeast? && (i.target == v + 20 || i.target == v + 53)))
  {
  }

  /** The addresses the jumps of a loop go to are seams of its parts. */
  lemma LoopSeams(q: Quantifier, b: nat, cond: seq<I.Instr>)
    ensures var x := LoopCode(q, b, cond); var v := b + 27 + I.Size(cond); var next := v + VerdictSize(q);
            && StartsAt(x, b, b + 10) && StartsAt(x, b, next) && StartsAt(x, b, next + 22)
            && (q.AtLeast? ==> StartsAt(x, b, v + 20))
            && (forall a: nat :: StartsAt(cond, ConditionStart(b), a) ==> StartsAt(x, b, a))
  {
    hide LoopCode;
    OuterSeams(q, b, cond);
    InnerSeams(q, b, cond);
  }

  lemma OuterSeams(q: Quantifier, b: nat, cond: seq<I.Instr>)
    ensures var x := LoopCode(q, b, cond); var next := b + 27 + I.Size(cond) + VerdictSize(q);
            StartsAt(x, b, b + 10) && StartsAt(x, b, next) && StartsAt(x, b, next + 22)
  {
    hide I.Size, StartsAt, Verdict, LoopHead, NextRound;
    var v := b + 27 + I.Size(cond);
    var exit := v + VerdictSize(q) + 22;
    var stores, head, verdict, next := [I.Store(0), I.Store(1)], LoopHead(exit), Verdict(q, v), NextRound(b + 10);
    var x := LoopCode(q, b, cond);
    StartParts();
    FragmentSizes(q, exit, v, b + 10);
    assert x == stores + head + cond + verdict + next + LOOP_EXIT;
    I.SizeAppend(stores + head + cond + verdict, next);
    I.SizeAppend(stores + head + cond, verdict);
    I.SizeAppend(stores + head, cond);
    I.SizeAppend(stores, head);
    assert x == stores + (head + cond + verdict + next + LOOP_EXIT);
    SeamOf(stores, head + cond + verdict + next + LOOP_EXIT, b);
    assert x == stores + head + cond + verdict + (next + LOOP_EXIT);
    SeamOf(stores + head + cond + verdict, next + LOOP_EXIT, b);
    SeamOf(stores + head + cond + verdict + next, LOOP_EXIT, b);
  }

  lemma InnerSeams(q: Quantifier, b: nat, cond: seq<I.Instr>)
    ensures var x := LoopCode(q, b, cond);
            && (q.AtLeast? ==> StartsAt(x, b, b + 27 + I.Size(cond) + 20))
            && (forall a: nat :: StartsAt(cond, ConditionStart(b), a) ==> StartsAt(x, b, a))
  {
    hide I.Size, StartsAt, Verdict, LoopHead, NextRound;
    var v := b + 27 + I.Size(cond);
    var exit := v + VerdictSize(q) + 22;
    var stores, head, verdict, next := [I.Store(0), I.Store(1)], LoopHead(exit), Verdict(q, v), NextRound(b + 10);
    var x := LoopCode(q, b, cond);
    StartParts();
    FragmentSizes(q, exit, v, b + 10);
    I.SizeAppend(stores + head, cond);
    I.SizeAppend(stores, head);
    assert x == stores + head + (cond + (verdict + next + LOOP_EXIT));
    forall a: nat | StartsAt(cond, ConditionStart(b), a) ensures StartsAt(x, b, a) {
      StartsAppend(cond, verdict + next + LOOP_EXIT, b + 27, a);
      StartsAppend(stores + head, cond + (verdict + next + LOOP_EXIT), b, a);
    }
    if q.AtLeast? {
      VerdictSeam(q.count, v);
      assert x == stores + head + cond + (verdict + (next + LOOP_EXIT));
      StartsAppend(verdict, next + LOOP_EXIT, v, v + 20);
      StartsAppend(stores + head + cond, verdict + (next + LOOP_EXIT), b, v + 20);
    }
  }

  lemma SeamOf(x: seq<I.Instr>, y: seq<I.Instr>, b: nat)
    ensures StartsAt(x + y, b, b + I.Size(x))
  {
    SeamStarts(x, b);
    StartsAppend(x, y, b, b + I.Size(x));
  }

  /** Past the jump for a condition that failed, the counting starts. */
  lemma VerdictSeam(n: word, v: nat)
    ensures StartsAt(Verdict(AtLeast(n), v), v, v + 20)
  {
    hide I.Size, StartsAt;
    var x := [I.Store(2), I.Load(2)] + [I.JTrue(Wrap(v + 20)), I.Jump(Wrap(v + 53))];
    var y := CountRun(n) + [I.JTrue(Wrap(v + 48 + 27))];
    assert Verdict(AtLeast(n), v) == x + y;
    SizeStep([I.Store(2), I.Load(2)]);
    SizeStep([I.JTrue(Wrap(v + 20)), I.Jump(Wrap(v + 53))]);
    I.SizeAppend([I.Store(2), I.Load(2)], [I.JTrue(Wrap(v + 20)), I.Jump(Wrap(v + 53))]);
    SeamOf(x, y, v);
  }

  // ---------- whole rules ----------

  /** An address inside a decoded listing where an instruction starts decodes to an instruction of the listing. */
  lemma {:induction false} StartDecodes(code: seq<byte>, t: StringTable, x: seq<I.Instr>, b: nat, a: nat)
    requires I.Listed(code, t, b, x) && StartsAt(x, b, a)
    ensures a == b + I.Size(x) || exists i <- x :: I.Fetch(code, t, a) == I.Found(i)
    decreases |x|
  {
    if x == [] {
    } else if a == b {
      assert x[0] in x;
    } else {
      StartDecodes(code, t, x[1..], b + I.Width(x[0]), a);
      if a != b + I.Size(x) {
        var i :| i in x[1..] && I.Fetch(code, t, a) == I.Found(i);
        assert i in x;
      }
    }
  }

  /**
   * In the image, from its start to its halt instruction, a rule decodes as whole instructions, and
   * every jump among them goes to an instruction of the same rule.
   */
  lemma JumpsStayInside(code: seq<byte>, t: StringTable, body: Expr, mod: Option<string>, b: nat, i: I.Instr)
    requires b + I.Size(RuleCode(body, mod, None, b)) < WORD_LIMIT
    requires I.Listed(code, t, b, RuleCode(body, mod, None, b))
    requires i in RuleCode(body, mod, None, b) && IsJump(i)
    ensures b <= i.target < b + I.Size(RuleCode(body, mod, None, b))
    ensures StartsAt(RuleCode(body, mod, None, b), b, i.target)
    ensures exists j <- RuleCode(body, mod, None, b) :: I.Fetch(code, t, i.target) == I.Found(j)
  {
    hide Code, I.Size, StartsAt, I.Listed, I.Fetch;
    var x := Code(body, mod, None, b);
    SizeThen(x, I.Halt);
    CodeJumps(body, mod, None, b);
    assert i in x;
    StartsInside(x, b, i.target);
    StartsAppend(x, [I.Halt], b, i.target);
    StartDecodes(code, t, x + [I.Halt], b, i.target);
  }

  lemma {:induction false} StartsInside(x: seq<I.Instr>, b: nat, a: nat)
    requires StartsAt(x, b, a)
    ensures b <= a <= b + I.Size(x)
    decreases |x|
  {
    if a != b {
      StartsInside(x[1..], b + I.Width(x[0]), a);
    }
  }

  // ---------- strings ----------

  predicate RefersInto(x: seq<I.Instr>, strings: seq<string>) {
    forall i <- x :: I.Refers(i) ==> i.text in strings
  }

  lemma RefersAppend(x: seq<I.Instr>, y: seq<I.Instr>, s: seq<string>, r: seq<string>)
    requires RefersInto(x, s) && RefersInto(y, r)
    ensures RefersInto(x + y, s + r)
  {
    forall i <- x + y | I.Refers(i) ensures i.text in s + r {
      assert i in x || i in y;
    }
  }

  /** The code of `e` refers to no string but those interned for it. */
  lemma {:induction false} CodeRefers(e: Expr, mod: Option<string>, iter: Option<string>, b: nat)
    ensures RefersInto(Code(e, mod, iter, b), Mentions(e))
    decreases e, 1
  {
    hide Code, I.Size, IterAfter, RefersInto, BinaryInstr, UnaryInstr;
    match e
    case Binary(op, l, r, tag) =>
      if op == And {
        AndRefers(e, mod, iter, b);
      } else {
        StrictCode(e, mod, iter, b);
        var x := Code(l, mod, iter, b);
        CodeRefers(l, mod, iter, b);
        CodeRefers(r, mod, IterAfter(l, iter), b + I.Size(x));
        RefersAppend(x, Code(r, mod, IterAfter(l, iter), b + I.Size(x)), Mentions(l), Mentions(r));
        RefersThen(x + Code(r, mod, IterAfter(l, iter), b + I.Size(x)), [BinaryInstr(op, tag)], Mentions(e));
      }
    case Unary(op, r) =>
      UnaryCode(e, mod, iter, b);
      CodeRefers(r, mod, iter, b);
      PlainUnary(op);
      RefersThen(Code(r, mod, iter, b), [UnaryInstr(op)], Mentions(e));
    case Grouping(i) =>
      GroupingCode(e, mod, iter, b);
      CodeRefers(i, mod, iter, b);
    case Lit(_) => LiteralRefers(e, mod, iter, b);
    case Call(f, args) =>
      CallCode(e, mod, iter, b);
      var x, count := ArgumentsCode(args, mod, iter, b), I.PushInt(Wrap(|args|));
      var y := Code(f, mod, IterAfterAll(args, iter), b + I.Size(x) + 5);
      ArgumentsRefer(args, mod, iter, b);
      CodeRefers(f, mod, IterAfterAll(args, iter), b + I.Size(x) + 5);
      RefersThen(x, [count], MentionsAll(args));
      RefersAppend(x + [count], y, MentionsAll(args), Mentions(f));
      RefersThen(x + [count] + y, [I.Call], Mentions(e));
    case Field(o, name, ty) =>
      FieldCode(e, mod, iter, b);
      CodeRefers(o, mod, iter, b);
      GetRefers(name);
      RefersAppend(Code(o, mod, iter, b), [I.GetField(name)], Mentions(o), [name]);
      RefersThen(Code(o, mod, iter, b) + [I.GetField(name)], [I.Object], Mentions(e));
    case Index(a, i) =>
      IndexCode(e, mod, iter, b);
      var x := Code(a, mod, iter, b);
      CodeRefers(a, mod, iter, b);
      CodeRefers(i, mod, IterAfter(a, iter), b + I.Size(x));
      RefersAppend(x, Code(i, mod, IterAfter(a, iter), b + I.Size(x)), Mentions(a), Mentions(i));
      RefersThen(x + Code(i, mod, IterAfter(a, iter), b + I.Size(x)), [I.Index], Mentions(e));
    case Range(_, _, _, _, _) => RangeRefers(e, mod, iter, b);
    case Null => LiteralRefers(e, mod, iter, b);
  }

  lemma RefersThen(x: seq<I.Instr>, y: seq<I.Instr>, s: seq<string>)
    requires RefersInto(x, s) && forall i <- y :: !I.Refers(i)
    ensures RefersInto(x + y, s)
  {
  }

  lemma GetRefers(name: string)
    ensures RefersInto([I.GetField(name)], [name])
  {
    assert name in [name];
  }

  lemma PlainUnary(op: UnOp)
    ensures !I.Refers(UnaryInstr(op))
  {
  }

  lemma LiteralRefers(e: Expr, mod: Option<string>, iter: Option<string>, b: nat)
    requires e.Lit? || e.Null?
    ensures RefersInto(Code(e, mod, iter, b), Mentions(e))
  {
  }

  lemma {:induction false} ArgumentsRefer(es: seq<Expr>, mod: Option<string>, iter: Option<string>, b: nat)
    ensures RefersInto(ArgumentsCode(es, mod, iter, b), MentionsAll(es))
    decreases es, 0
  {
    hide Code, I.Size, Mentions;
    if es != [] {
      var x := ArgumentsCode(es[1..], mod, iter, b);
      ArgumentsRefer(es[1..], mod, iter, b);
      CodeRefers(es[0], mod, IterAfterAll(es[1..], iter), b + I.Size(x));
      RefersAppend(x, Code(es[0], mod, IterAfterAll(es[1..], iter), b + I.Size(x)), MentionsAll(es[1..]), Mentions(es[0]));
    }
  }

  lemma {:induction false} AndRefers(e: Expr, mod: Option<string>, iter: Option<string>, b: nat)
    requires e.Binary? && e.op == And
    ensures RefersInto(Code(e, mod, iter, b), Mentions(e))
    decreases e, 0
  {
    hide Code, I.Size, IterAfter;
    AndCode(e, mod, iter, b);
    var x := Code(e.left, mod, iter, b);
    var p := b + I.Size(x) + 15;
    var y := Code(e.right, mod, IterAfter(e.left, iter), p);
    CodeRefers(e.left, mod, iter, b);
    CodeRefers(e.right, mod, IterAfter(e.left, iter), p);
    RefersAppend(x, Guarded(p, y), Mentions(e.left), Mentions(e.right));
    RefersThen(x + Guarded(p, y), [I.Apply2(I.AndL)], Mentions(e));
  }

  lemma {:induction false} RangeRefers(e: Expr, mod: Option<string>, iter: Option<string>, b: nat)
    requires e.Range?
    ensures RefersInto(Code(e, mod, iter, b), Mentions(e))
    decreases e, 0
  {
    hide Code, I.Size, IterAfter, LoopCode;
    RangeCode(e, mod, iter, b);
    var last := Code(e.end, mod, Some(e.ivar), b);
    var iter1 := IterAfter(e.end, Some(e.ivar));
    var first := Code(e.start, mod, iter1, b + I.Size(last));
    var p := b + I.Size(last) + I.Size(first);
    var iter2 := IterAfter(e.start, iter1);
    var cond := Code(e.condition, mod, iter2, ConditionStart(p));
    CodeRefers(e.end, mod, Some(e.ivar), b);
    CodeRefers(e.start, mod, iter1, b + I.Size(last));
    CodeRefers(e.condition, mod, iter2, ConditionStart(p));
    LoopRefers(e.quantifier, p, cond, Mentions(e.condition));
    RefersAppend(last, first, Mentions(e.end), Mentions(e.start));
    RefersAppend(last + first, LoopCode(e.quantifier, p, cond), Mentions(e.end) + Mentions(e.start), Mentions(e.condition));
  }

  lemma LoopRefers(q: Quantifier, b: nat, cond: seq<I.Instr>, s: seq<string>)
    requires RefersInto(cond, s)
    ensures RefersInto(LoopCode(q, b, cond), s)
  {
    hide I.Size, Verdict, LoopHead, NextRound, LoopCode;
    forall i <- LoopCode(q, b, cond) | I.Refers(i) ensures i.text in s {
      var v := b + 27 + I.Size(cond);
      InLoop(q, b, cond, i);
      PlainFragments(q, v + VerdictSize(q) + 22, v, b + 10);
    }
  }

  lemma PlainFragments(q: Quantifier, exit: nat, v: nat, head: nat)
    ensures forall i <- LoopHead(exit) :: !I.Refers(i)
    ensures forall i <- NextRound(head) :: !I.Refers(i)
    ensures forall i <- Verdict(q, v) :: !I.Refers(i)
    ensures forall i <- LOOP_EXIT :: !I.Refers(i)
  {
    assert forall i <- LOOP_EXIT :: !I.Refers(i);
    PlainRound(exit, head);
    PlainVerdict(q, v);
  }

  lemma PlainRound(exit: nat, head: nat)
    ensures forall i <- LoopHead(exit) :: !I.Refers(i)
    ensures forall i <- NextRound(head) :: !I.Refers(i)
  {
  }

  lemma PlainVerdict(q: Quantifier, v: nat)
    ensures forall i <- Verdict(q, v) :: !I.Refers(i)
  {
  }

  /** All strings of a rule's code are interned once those of its body are. */
  lemma RuleInterned(body: Expr, mod: Option<string>, b: nat, t: StringTable)
    requires forall s <- Mentions(body) :: s in t.offsets
    ensures I.AllInterned(RuleCode(body, mod, None, b), t)
  {
    hide Code, I.Size;
    CodeRefers(body, mod, None, b);
  }
}
