/**
 * The compiled code does what the rules mean: at any address, on any stack, with any registers, the
 * machine running the code of an expression agrees with the reference evaluator.
 */
module Correctness {
  import opened Words
  import opened Wrappers
  import opened CStrings
  import opened Ast
  import opened Machine
  import opened Semantics
  import opened Codegen
  import I = Instructions

  // ---------- stack use ----------

  function Max(a: nat, b: nat): nat {
    if a < b then b else a
  }

  /** How far above its starting level the code of `e` drives the stack, callee rules included. */
  function Depth(w: World, n: nat, mod: Option<string>, iter: Option<string>, e: Expr): nat
    decreases n, 0, e, 1
  {
    match e
    case Binary(op, l, r, _) =>
      Max(Depth(w, n, mod, iter, l), Max(2, 1 + if op == Matches then 2 else Depth(w, n, mod, IterAfter(l, iter), r)))
    case Unary(_, r) => Max(1, Depth(w, n, mod, iter, r))
    case Grouping(i) => Depth(w, n, mod, iter, i)
    case Lit(l) => LiteralDepth(w, n, mod, iter, l)
    case Call(f, args) => Max(ArgumentsDepth(w, n, mod, iter, args), |args| + 1 + Max(1, Depth(w, n, mod, IterAfterAll(args, iter), f)))
    case Field(o, _, _) => Max(1, Depth(w, n, mod, iter, o))
    case Index(a, i) => Max(Depth(w, n, mod, iter, a), 1 + Max(1, Depth(w, n, mod, IterAfter(a, iter), i)))
    case Range(_, x, s, t, c) =>
      var i1 := IterAfter(t, Some(x));
      Max(Max(Depth(w, n, mod, Some(x), t), 1 + Depth(w, n, mod, i1, s)), Max(2, Depth(w, n, mod, IterAfter(s, i1), c)))
    case Null => 0
  }

  function LiteralDepth(w: World, n: nat, mod: Option<string>, iter: Option<string>, l: Literal): nat
    decreases n, 0, l, 0
  {
    if l.Identifier? && mod != Some(l.name) && iter != Some(l.name) then
      match IndexOf(w.rules, l.name)
      case Some(j) => if j < n then Max(1, RuleDepth(w, j)) else 1
      case None => 1
    else 1
  }

  function ArgumentsDepth(w: World, n: nat, mod: Option<string>, iter: Option<string>, es: seq<Expr>): nat
    decreases n, 0, es, 1
  {
    if es == [] then 0
    else Max(ArgumentsDepth(w, n, mod, iter, es[1..]), |es| - 1 + Depth(w, n, mod, IterAfterAll(es[1..], iter), es[0]))
  }

  function RuleDepth(w: World, j: nat): nat
    requires j < |w.rules|
    decreases j, 1
  {
    Max(1, Depth(w, j, w.rules[j].event, None, w.rules[j].body))
  }

  // ---------- the image of a program ----------

  ghost predicate RuleLinked(img: Image, r: Rule, entry: RuleEntry) {
    && GetString(img.strings, entry.nameOffset) == Some(r.ruleName)
    && I.Listed(img.code, img.strings, entry.codeOffset, RuleCode(r.body, r.event, None, entry.codeOffset))
  }

  /** `img` holds the compiled rules of `w`, and its addresses fit in 32 bits. */
  ghost predicate Linked(img: Image, w: World) {
    && |img.code| < WORD_LIMIT
    && img.objects == w.objects && img.externals == w.externals
    && EmittableWorld(w)
    && |img.rules| == |w.rules|
    && forall j :: 0 <= j < |w.rules| ==> RuleLinked(img, w.rules[j], img.rules[j])
  }

  lemma {:induction false} FindLinked(img: Image, w: World, name: string, i: nat)
    requires Linked(img, w)
    ensures FindRuleFrom(img.strings, img.rules, name, i) == IndexFrom(w.rules, name, i)
    decreases |w.rules| - i
  {
    hide GetString, EmittableWorld, I.Listed, RuleCode;
    if i < |w.rules| {
      assert RuleLinked(img, w.rules[i], img.rules[i]);
      FindLinked(img, w, name, i + 1);
    }
  }

  predicate At(img: Image, ip: nat, i: I.Instr) {
    I.Fetch(img.code, img.strings, ip) == I.Found(i)
  }

  predicate ListedIn(img: Image, b: nat, listing: seq<I.Instr>) {
    I.Listed(img.code, img.strings, b, listing)
  }

  /** Splits a listing at a seam. */
  lemma Split(img: Image, b: nat, x: seq<I.Instr>, y: seq<I.Instr>)
    requires ListedIn(img, b, x + y)
    ensures ListedIn(img, b, x) && ListedIn(img, b + I.Size(x), y)
    ensures I.Size(x + y) == I.Size(x) + I.Size(y)
  {
    I.ListedAppend(img.code, img.strings, b, x, y);
    I.SizeAppend(x, y);
  }

  /** The first instruction of a listing, and what follows it. */
  lemma Head(img: Image, b: nat, i: I.Instr, rest: seq<I.Instr>)
    requires ListedIn(img, b, [i] + rest)
    ensures At(img, b, i) && ListedIn(img, b + I.Width(i), rest)
    ensures I.Size([i] + rest) == I.Width(i) + I.Size(rest)
  {
    assert ([i] + rest)[1..] == rest;
  }

  lemma Single(img: Image, b: nat, i: I.Instr)
    requires ListedIn(img, b, [i])
    ensures At(img, b, i) && I.Size([i]) == I.Width(i)
  {
    assert [i] == [i] + [];
    Head(img, b, i, []);
  }

  lemma {:induction false} ListedFits(img: Image, b: nat, listing: seq<I.Instr>)
    requires ListedIn(img, b, listing) && b <= |img.code|
    ensures b + I.Size(listing) <= |img.code|
    decreases |listing|
  {
    if listing == [] {
    } else {
      ListedFits(img, b + I.Width(listing[0]), listing[1..]);
    }
  }

  // ---------- single steps ----------

  /** One turn of the interpreter loop. */
  lemma Fire(img: Image, ip: nat, i: I.Instr, s: seq<Value>, regs: Registers, k: nat)
    requires At(img, ip, i)
    ensures match Step(img, i, ip + I.Width(i), s, regs)
            case Next(ip', s', regs') => Exec(img, ip, s, regs, k + 1) == Exec(img, ip', s', regs', k)
            case End(e, v, s') => Exec(img, ip, s, regs, k + 1) == Stop(e, v, s', k)
            case Dies(r) => Exec(img, ip, s, regs, k + 1) == Fault(r)
            case Run(_) => true
  {
  }

  /**
   * The outcome `o` of running a fragment that ends at `end`, on top of the stack `s`, is the one
   * the evaluator predicts: on a value, execution goes on at `end` with that value pushed and fuel
   * `k`; an error ends the activation with result 0 and leaves everything below in place.
   */
  ghost predicate Agrees(o: Outcome, img: Image, end: nat, s: seq<Value>, k: nat, v: Evaluated) {
    match v
    case Val(x, regs) => o == Exec(img, end, s + [x], regs, k)
    case Err(e) => o.Stop? && o.error == e && o.result == 0 && s <= o.stack
    case Lost(r) => o == Fault(r)
  }

  /** The last instruction of a fragment, which replaces its operands by one result. */
  lemma Tail(img: Image, ip: nat, i: I.Instr, stack: seq<Value>, s: seq<Value>, c: Computed, regs: Registers, k: nat)
    requires At(img, ip, i) && |s| < STACK_MAX
    requires Step(img, i, ip + I.Width(i), stack, regs) == PushComputed(ip + I.Width(i), s, c, regs)
    ensures Agrees(Exec(img, ip, stack, regs, k + 1), img, ip + I.Width(i), s, k, FromComputed(c, regs))
  {
    Fire(img, ip, i, stack, regs, k);
  }

  lemma DropTop(s: seq<Value>, x: Value)
    ensures Drop(s + [x], 1) == s && Top(s + [x]) == x
  {
  }

  lemma DropTwo(s: seq<Value>, x: Value, y: Value)
    ensures var t := s + [x] + [y]; |t| == |s| + 2 && Drop(t, 2) == s && t[|t| - 2] == x && Top(t) == y
  {
  }

  lemma UnaryAgrees(op: UnOp, x: Value)
    ensures UnaryInstr(op).Apply1? && Apply1(UnaryInstr(op).op1, x) == OperateUnary(op, x)
  {
  }

  lemma NumbersAgree(op: BinOp, tag: Tag, x: word, y: word)
    requires op != Matches && !ComparesText(op, tag)
    ensures BinaryInstr(op, tag).Apply2? && NumericOp(BinaryInstr(op, tag).op2, x, y) == Arithmetic(op, x, y)
  {
    hide Wrap, ShiftLeft, ShiftRight, Words.BitAnd, Words.BitOr, Words.BitXor;
    match op
    case _ =>
  }

  lemma TextsAgree(op: BinOp, tag: Tag, x: string, y: string)
    requires op != Matches
    ensures BinaryInstr(op, tag).Apply2?
    ensures StringOp(BinaryInstr(op, tag).op2, x, y) ==
            if ComparesText(op, tag) then Ok(Truth(TextTest(op, x, y))) else Crash(WrongKind)
  {
    hide Occurs, HasPrefix, HasSuffix, Lower;
    match op
    case _ =>
  }

  lemma MixedAgree(op: BinOp, tag: Tag, x: word, y: word)
    requires op != Matches && ComparesText(op, tag)
    ensures BinaryInstr(op, tag).Apply2? && NumericOp(BinaryInstr(op, tag).op2, x, y) == Crash(WrongKind)
  {
    match op
    case _ =>
  }

  lemma BinaryAgrees(op: BinOp, tag: Tag, x: Value, y: Value)
    requires op != Matches
    ensures BinaryInstr(op, tag).Apply2? && Apply2(BinaryInstr(op, tag).op2, x, y) == Operate(op, tag, x, y)
  {
    hide NumericOp, StringOp, Arithmetic, TextTest, ComparesText, BinaryInstr;
    if x.Num? && y.Num? {
      if ComparesText(op, tag) { MixedAgree(op, tag, x.w, y.w); } else { NumbersAgree(op, tag, x.w, y.w); }
    } else if x.Str? && y.Str? {
      TextsAgree(op, tag, x.s, y.s);
    } else {
      TextsAgree(op, tag, "", "");
    }
  }

  // ---------- expressions ----------

  /** The hypotheses under which the code of `e` at `b` is run with `level` values on the stack. */
  ghost predicate Ready(img: Image, w: World, n: nat, mod: Option<string>, iter: Option<string>, e: Expr, b: nat, level: nat) {
    && Linked(img, w) && EmittableWorld(w)
    && Emittable(e)
    && b <= |img.code| && ListedIn(img, b, Code(e, mod, iter, b))
    && level + Depth(w, n, mod, iter, e) <= STACK_MAX
  }

  function End(mod: Option<string>, iter: Option<string>, e: Expr, b: nat): nat {
    b + I.Size(Code(e, mod, iter, b))
  }

  /** Evaluation met no reference to a rule that is not an earlier one, no identifier without code, and did not give up on a loop. */
  ghost predicate Grounded(v: Evaluated) {
    v.Lost? ==> v.reason != RunawayCode && v.reason != NoCode && v.reason != Endless
  }

  lemma {:induction false} Compiled(img: Image, w: World, n: nat, mod: Option<string>, iter: Option<string>, e: Expr,
                                    b: nat, s: seq<Value>, regs: Registers, k: nat)
    returns (f: nat)
    requires Ready(img, w, n, mod, iter, e, b, |s|) && EmittableWorld(w) && Emittable(e)
    requires Grounded(Eval(w, n, mod, iter, e, regs))
    ensures f >= k && Agrees(Exec(img, b, s, regs, f), img, End(mod, iter, e, b), s, k, Eval(w, n, mod, iter, e, regs))
    decreases n, 1, e, 1, 0
  {
    hide Exec, Linked, Ready, End, Code, Depth, EmittableWorld, HasRange, IterAfter, ListedIn, I.Fetch, I.Size, RuleDepth, LiteralDepth, BinaryInstr, UnaryInstr;
    match e
    case Binary(op, _, _, _) =>
      if op == And {
        f := CompiledAnd(img, w, n, mod, iter, e, b, s, regs, k);
      } else if op == Matches {
        f := CompiledMatches(img, w, n, mod, iter, e, b, s, regs, k);
      } else {
        f := CompiledBinary(img, w, n, mod, iter, e, b, s, regs, k);
      }
    case Unary(_, _) => f := CompiledUnary(img, w, n, mod, iter, e, b, s, regs, k);
    case Grouping(_) => f := CompiledGrouping(img, w, n, mod, iter, e, b, s, regs, k);
    case Lit(_) => f := CompiledLiteral(img, w, n, mod, iter, e, b, s, regs, k);
    case Call(_, _) => f := CompiledCall(img, w, n, mod, iter, e, b, s, regs, k);
    case Field(_, _, _) => f := CompiledField(img, w, n, mod, iter, e, b, s, regs, k);
    case Index(_, _) => f := CompiledIndex(img, w, n, mod, iter, e, b, s, regs, k);
    case Range(_, _, _, _, _) => f := CompiledRange(img, w, n, mod, iter, e, b, s, regs, k);
  }

  lemma GroupingParts(img: Image, w: World, n: nat, mod: Option<string>, iter: Option<string>, e: Expr, b: nat, level: nat)
    requires e.Grouping? && Ready(img, w, n, mod, iter, e, b, level)
    ensures Ready(img, w, n, mod, iter, e.inner, b, level) && End(mod, iter, e, b) == End(mod, iter, e.inner, b)
  {
    hide Linked, EmittableWorld, I.Listed, I.Size, RuleDepth, LiteralDepth, BinaryInstr, UnaryInstr, I.Fetch;
  }

  lemma {:induction false} CompiledGrouping(img: Image, w: World, n: nat, mod: Option<string>, iter: Option<string>, e: Expr,
                                            b: nat, s: seq<Value>, regs: Registers, k: nat)
    returns (f: nat)
    requires e.Grouping? && Ready(img, w, n, mod, iter, e, b, |s|) && EmittableWorld(w) && Emittable(e)
    requires Grounded(Eval(w, n, mod, iter, e, regs))
    ensures f >= k && Agrees(Exec(img, b, s, regs, f), img, End(mod, iter, e, b), s, k, Eval(w, n, mod, iter, e, regs))
    decreases n, 1, e, 0, 0
  {
    hide Exec, Linked, Ready, End, Code, Depth, EmittableWorld, HasRange, IterAfter, ListedIn, I.Fetch, I.Size, RuleDepth, LiteralDepth, BinaryInstr, UnaryInstr;
    GroupingParts(img, w, n, mod, iter, e, b, |s|);
    f := Compiled(img, w, n, mod, iter, e.inner, b, s, regs, k);
  }

  lemma UnaryParts(img: Image, w: World, n: nat, mod: Option<string>, iter: Option<string>, e: Expr, b: nat, level: nat)
    requires e.Unary? && Ready(img, w, n, mod, iter, e, b, level)
    ensures var p := End(mod, iter, e.operand, b);
            && Ready(img, w, n, mod, iter, e.operand, b, level) && level < STACK_MAX
            && At(img, p, UnaryInstr(e.unop)) && End(mod, iter, e, b) == p + 1
  {
    hide Linked, EmittableWorld, I.Listed, I.Size, RuleDepth, LiteralDepth, BinaryInstr, UnaryInstr, I.Fetch;
    var code := Code(e.operand, mod, iter, b);
    Split(img, b, code, [UnaryInstr(e.unop)]);
    Single(img, b + I.Size(code), UnaryInstr(e.unop));
    UnaryAgrees(e.unop, Num(0));
  }

  lemma UnaryTail(img: Image, ip: nat, op: UnOp, s: seq<Value>, x: Value, regs: Registers, k: nat)
    requires At(img, ip, UnaryInstr(op)) && |s| < STACK_MAX
    ensures Agrees(Exec(img, ip, s + [x], regs, k + 1), img, ip + 1, s, k, FromComputed(OperateUnary(op, x), regs))
  {
    hide Exec;
    DropTop(s, x);
    UnaryAgrees(op, x);
    Tail(img, ip, UnaryInstr(op), s + [x], s, OperateUnary(op, x), regs, k);
  }

  lemma {:induction false} CompiledUnary(img: Image, w: World, n: nat, mod: Option<string>, iter: Option<string>, e: Expr,
                                         b: nat, s: seq<Value>, regs: Registers, k: nat)
    returns (f: nat)
    requires e.Unary? && Ready(img, w, n, mod, iter, e, b, |s|) && EmittableWorld(w) && Emittable(e)
    requires Grounded(Eval(w, n, mod, iter, e, regs))
    ensures f >= k && Agrees(Exec(img, b, s, regs, f), img, End(mod, iter, e, b), s, k, Eval(w, n, mod, iter, e, regs))
    decreases n, 1, e, 0, 0
  {
    hide Exec, Linked, Ready, End, Code, Depth, EmittableWorld, HasRange, IterAfter, ListedIn, I.Fetch, I.Size, RuleDepth, LiteralDepth, BinaryInstr, UnaryInstr;
    UnaryParts(img, w, n, mod, iter, e, b, |s|);
    f := Compiled(img, w, n, mod, iter, e.operand, b, s, regs, k + 1);
    match Eval(w, n, mod, iter, e.operand, regs)
    case Val(x, regs1) => UnaryTail(img, End(mod, iter, e.operand, b), e.unop, s, x, regs1, k);
    case _ =>
  }

  lemma BinaryListing(e: Expr, mod: Option<string>, iter: Option<string>, b: nat)
    requires e.Binary? && e.op != And
    ensures var left := Code(e.left, mod, iter, b);
            Code(e, mod, iter, b) == left + Code(e.right, mod, IterAfter(e.left, iter), b + I.Size(left)) + [BinaryInstr(e.op, e.operandType)]
  {
    hide I.Size, BinaryInstr, IterAfter;
  }

  lemma BinaryParts(img: Image, w: World, n: nat, mod: Option<string>, iter: Option<string>, e: Expr, b: nat, level: nat)
    requires e.Binary? && e.op != And && e.op != Matches && Ready(img, w, n, mod, iter, e, b, level)
    ensures var p := End(mod, iter, e.left, b);
            var m := End(mod, IterAfter(e.left, iter), e.right, p);
            && Ready(img, w, n, mod, iter, e.left, b, level) && Ready(img, w, n, mod, IterAfter(e.left, iter), e.right, p, level + 1)
            && level < STACK_MAX && At(img, m, BinaryInstr(e.op, e.operandType)) && End(mod, iter, e, b) == m + 1
  {
    hide Linked, EmittableWorld, ListedIn, At, I.Size, Depth, BinaryInstr, UnaryInstr, Code, Emittable, IterAfter;
    BinaryListing(e, mod, iter, b);
    BinaryRoom(w, n, mod, iter, e);
    var left := Code(e.left, mod, iter, b);
    var p := b + I.Size(left);
    var right, i := Code(e.right, mod, IterAfter(e.left, iter), p), BinaryInstr(e.op, e.operandType);
    Split(img, b, left + right, [i]);
    Split(img, b, left, right);
    Single(img, p + I.Size(right), i);
    ListedFits(img, b, left);
    BinaryAgrees(e.op, e.operandType, Num(0), Num(0));
  }

  lemma BinaryRoom(w: World, n: nat, mod: Option<string>, iter: Option<string>, e: Expr)
    requires e.Binary? && e.op != And && e.op != Matches && EmittableWorld(w) && Emittable(e)
    ensures var iter' := IterAfter(e.left, iter);
            && Emittable(e.left) && Emittable(e.right) && Depth(w, n, mod, iter, e) >= 1
            && Depth(w, n, mod, iter, e.left) <= Depth(w, n, mod, iter, e) && Depth(w, n, mod, iter', e.right) + 1 <= Depth(w, n, mod, iter, e)
  {
    hide EmittableWorld, RuleDepth, LiteralDepth, IterAfter;
  }

  lemma BinaryTail(img: Image, ip: nat, op: BinOp, tag: Tag, s: seq<Value>, x: Value, y: Value, regs: Registers, k: nat)
    requires op != Matches && At(img, ip, BinaryInstr(op, tag)) && |s| < STACK_MAX
    ensures Agrees(Exec(img, ip, s + [x] + [y], regs, k + 1), img, ip + 1, s, k, FromComputed(Operate(op, tag, x, y), regs))
  {
    hide Exec, BinaryInstr, Operate;
    DropTwo(s, x, y);
    BinaryAgrees(op, tag, x, y);
    Tail(img, ip, BinaryInstr(op, tag), s + [x] + [y], s, Operate(op, tag, x, y), regs, k);
  }

  lemma {:induction false} CompiledBinary(img: Image, w: World, n: nat, mod: Option<string>, iter: Option<string>, e: Expr,
                                          b: nat, s: seq<Value>, regs: Registers, k: nat)
    returns (f: nat)
    requires e.Binary? && e.op != And && e.op != Matches && Ready(img, w, n, mod, iter, e, b, |s|) && EmittableWorld(w) && Emittable(e)
    requires Grounded(Eval(w, n, mod, iter, e, regs))
    ensures f >= k && Agrees(Exec(img, b, s, regs, f), img, End(mod, iter, e, b), s, k, Eval(w, n, mod, iter, e, regs))
    decreases n, 1, e, 0, 0
  {
    hide Exec, Linked, Ready, End, Code, Depth, EmittableWorld, HasRange, IterAfter, ListedIn, I.Fetch, I.Size, RuleDepth, LiteralDepth, BinaryInstr, UnaryInstr;
    hide Operate;
    BinaryParts(img, w, n, mod, iter, e, b, |s|);
    var p := End(mod, iter, e.left, b);
    match Eval(w, n, mod, iter, e.left, regs)
    case Val(x, regs1) =>
      var f1 := Compiled(img, w, n, mod, IterAfter(e.left, iter), e.right, p, s + [x], regs1, k + 1);
      f := Compiled(img, w, n, mod, iter, e.left, b, s, regs, f1);
      match Eval(w, n, mod, IterAfter(e.left, iter), e.right, regs1) {
        case Val(y, regs2) =>
          BinaryTail(img, End(mod, IterAfter(e.left, iter), e.right, p), e.op, e.operandType, s, x, y, regs2, k);
        case _ =>
      }
    case _ => f := Compiled(img, w, n, mod, iter, e.left, b, s, regs, k);
  }

  lemma IndexParts(img: Image, w: World, n: nat, mod: Option<string>, iter: Option<string>, e: Expr, b: nat, level: nat)
    requires e.Index? && Ready(img, w, n, mod, iter, e, b, level)
    ensures var p := End(mod, iter, e.indexed, b);
            var m := End(mod, IterAfter(e.indexed, iter), e.index, p);
            && Ready(img, w, n, mod, iter, e.indexed, b, level) && Ready(img, w, n, mod, IterAfter(e.indexed, iter), e.index, p, level + 1)
            && level < STACK_MAX && At(img, m, I.Index) && End(mod, iter, e, b) == m + 1
  {
    hide Linked, EmittableWorld, I.Listed, I.Size, RuleDepth, LiteralDepth, BinaryInstr, UnaryInstr, I.Fetch;
    var left := Code(e.indexed, mod, iter, b);
    var p := b + I.Size(left);
    var right := Code(e.index, mod, IterAfter(e.indexed, iter), p);
    Split(img, b, left + right, [I.Index]);
    Split(img, b, left, right);
    Single(img, p + I.Size(right), I.Index);
    ListedFits(img, b, left);
  }

  lemma IndexTail(img: Image, ip: nat, s: seq<Value>, x: Value, y: Value, regs: Registers, k: nat)
    requires At(img, ip, I.Index) && |s| < STACK_MAX
    ensures Agrees(Exec(img, ip, s + [x] + [y], regs, k + 1), img, ip + 1, s, k, FromComputed(ItemOf(x, y), regs))
  {
    hide Exec, ItemOf;
    DropTwo(s, x, y);
    Tail(img, ip, I.Index, s + [x] + [y], s, ItemOf(x, y), regs, k);
  }

  lemma {:induction false} CompiledIndex(img: Image, w: World, n: nat, mod: Option<string>, iter: Option<string>, e: Expr,
                                         b: nat, s: seq<Value>, regs: Registers, k: nat)
    returns (f: nat)
    requires e.Index? && Ready(img, w, n, mod, iter, e, b, |s|) && EmittableWorld(w) && Emittable(e)
    requires Grounded(Eval(w, n, mod, iter, e, regs))
    ensures f >= k && Agrees(Exec(img, b, s, regs, f), img, End(mod, iter, e, b), s, k, Eval(w, n, mod, iter, e, regs))
    decreases n, 1, e, 0, 0
  {
    hide Exec, Linked, Ready, End, Code, Depth, EmittableWorld, HasRange, IterAfter, ListedIn, I.Fetch, I.Size, RuleDepth, LiteralDepth, BinaryInstr, UnaryInstr;
    hide ItemOf;
    IndexParts(img, w, n, mod, iter, e, b, |s|);
    var p := End(mod, iter, e.indexed, b);
    match Eval(w, n, mod, iter, e.indexed, regs)
    case Val(x, regs1) =>
      var f1 := Compiled(img, w, n, mod, IterAfter(e.indexed, iter), e.index, p, s + [x], regs1, k + 1);
      f := Compiled(img, w, n, mod, iter, e.indexed, b, s, regs, f1);
      match Eval(w, n, mod, IterAfter(e.indexed, iter), e.index, regs1) {
        case Val(y, regs2) => IndexTail(img, End(mod, IterAfter(e.indexed, iter), e.index, p), s, x, y, regs2, k);
        case _ =>
      }
    case _ => f := Compiled(img, w, n, mod, iter, e.indexed, b, s, regs, k);
  }

  /** The jumps of `and` at address `m`: to the right operand at `p`, or past it to `end` with false. */
  lemma ShortCircuitSteps(img: Image, m: nat, p: word, end: word, s: seq<Value>, x: Value, regs: Registers, k: nat)
    requires At(img, m, I.JTrue(p)) && At(img, m + 5, I.PushBool(0)) && At(img, m + 10, I.Jump(end))
    requires |s| + 2 <= STACK_MAX
    ensures !x.Num? ==> Exec(img, m, s + [x], regs, k + 1) == Fault(WrongKind)
    ensures x.Num? && x.w != 0 ==> Exec(img, m, s + [x], regs, k + 1) == Exec(img, p, s + [x], regs, k)
    ensures x.Num? && x.w == 0 ==> Exec(img, m, s + [x], regs, k + 3) == Exec(img, end, s + [x] + [Num(0)], regs, k)
  {
    hide Exec, At, Apply2, Apply1, ApplyMatches, Unwrap, StepCall, ItemOf, FieldOf, ModuleOf, FindRule, GetRegister, SetRegister, Drop;
    Fire(img, m, I.JTrue(p), s + [x], regs, k);
    Fire(img, m, I.JTrue(p), s + [x], regs, k + 2);
    Fire(img, m + 5, I.PushBool(0), s + [x], regs, k + 1);
    Fire(img, m + 10, I.Jump(end), s + [x] + [Num(0)], regs, k);
  }

  /** The listing of `and`, taken apart. */
  lemma AndListing(img: Image, b: nat, left: seq<I.Instr>, right: seq<I.Instr>)
    requires |img.code| < WORD_LIMIT && b <= |img.code|
    requires ListedIn(img, b, Operands(And, b, left, right) + [I.Apply2(I.AndL)])
    ensures var m := b + I.Size(left); var p := m + 15; var end := p + I.Size(right);
            && end < |img.code|
            && ListedIn(img, b, left) && ListedIn(img, p, right)
            && At(img, m, I.JTrue(p)) && At(img, m + 5, I.PushBool(0)) && At(img, m + 10, I.Jump(end))
            && At(img, end, I.Apply2(I.AndL))
            && b + I.Size(Operands(And, b, left, right) + [I.Apply2(I.AndL)]) == end + 1
  {
    hide I.Listed, I.Size, I.Fetch;
    var m := b + I.Size(left);
    var i, j, t := I.JTrue(Wrap(m + 15)), I.PushBool(0), I.Jump(Wrap(m + 15 + I.Size(right)));
    ListedFits(img, b, Operands(And, b, left, right) + [I.Apply2(I.AndL)]);
    Split(img, b, Operands(And, b, left, right), [I.Apply2(I.AndL)]);
    Split(img, b, left + [i, j, t], right);
    Split(img, b, left, [i, j, t]);
    assert [i, j, t] == [i] + ([j] + [t]);
    Head(img, m, i, [j] + [t]);
    Head(img, m + 5, j, [t]);
    Single(img, m + 10, t);
    Single(img, m + 15 + I.Size(right), I.Apply2(I.AndL));
  }

  /** The three instructions between the operands of `and`, the first at `m`; the code of the right operand ends at `end`. */
  ghost predicate AndPlaced(img: Image, m: nat, end: nat) {
    m + 15 <= end < WORD_LIMIT && At(img, m, I.JTrue(m + 15)) && At(img, m + 5, I.PushBool(0)) && At(img, m + 10, I.Jump(end))
  }

  lemma AndParts(img: Image, w: World, n: nat, mod: Option<string>, iter: Option<string>, e: Expr, b: nat, level: nat)
    requires e.Binary? && e.op == And && Ready(img, w, n, mod, iter, e, b, level)
    ensures var m := End(mod, iter, e.left, b);
            var end := End(mod, IterAfter(e.left, iter), e.right, m + 15);
            && end < WORD_LIMIT && level + 2 <= STACK_MAX && AndPlaced(img, m, end)
            && Ready(img, w, n, mod, iter, e.left, b, level) && Ready(img, w, n, mod, IterAfter(e.left, iter), e.right, m + 15, level + 1)
            && At(img, end, BinaryInstr(And, e.operandType)) && End(mod, iter, e, b) == end + 1
  {
    hide EmittableWorld, I.Listed, I.Size, RuleDepth, LiteralDepth, I.Fetch;
    var left := Code(e.left, mod, iter, b);
    AndListing(img, b, left, Code(e.right, mod, IterAfter(e.left, iter), b + I.Size(left) + 15));
  }

  lemma {:induction false} CompiledAnd(img: Image, w: World, n: nat, mod: Option<string>, iter: Option<string>, e: Expr,
                                       b: nat, s: seq<Value>, regs: Registers, k: nat)
    returns (f: nat)
    requires e.Binary? && e.op == And && Ready(img, w, n, mod, iter, e, b, |s|) && EmittableWorld(w) && Emittable(e)
    requires Grounded(Eval(w, n, mod, iter, e, regs))
    ensures f >= k && Agrees(Exec(img, b, s, regs, f), img, End(mod, iter, e, b), s, k, Eval(w, n, mod, iter, e, regs))
    decreases n, 1, e, 0, 0
  {
    hide Exec, Linked, Ready, End, Code, Depth, EmittableWorld, HasRange, IterAfter, ListedIn, I.Fetch, I.Size, RuleDepth, LiteralDepth, BinaryInstr, UnaryInstr;
    hide Operate;
    AndParts(img, w, n, mod, iter, e, b, |s|);
    var m := End(mod, iter, e.left, b);
    var end := End(mod, IterAfter(e.left, iter), e.right, m + 15);
    match Eval(w, n, mod, iter, e.left, regs)
    case Val(x, regs1) =>
      if !x.Num? {
        ShortCircuitSteps(img, m, m + 15, end, s, x, regs1, k);
        f := Compiled(img, w, n, mod, iter, e.left, b, s, regs, k + 1);
      } else if x.w == 0 {
        ShortCircuitSteps(img, m, m + 15, end, s, x, regs1, k + 1);
        AndFalse(e.operandType, x);
        BinaryTail(img, end, And, e.operandType, s, x, Num(0), regs1, k);
        f := Compiled(img, w, n, mod, iter, e.left, b, s, regs, k + 4);
      } else {
        var f1 := Compiled(img, w, n, mod, IterAfter(e.left, iter), e.right, m + 15, s + [x], regs1, k + 1);
        ShortCircuitSteps(img, m, m + 15, end, s, x, regs1, f1);
        f := Compiled(img, w, n, mod, iter, e.left, b, s, regs, f1 + 1);
        match Eval(w, n, mod, IterAfter(e.left, iter), e.right, regs1) {
          case Val(y, regs2) => BinaryTail(img, end, And, e.operandType, s, x, y, regs2, k);
          case _ =>
        }
      }
    case _ => f := Compiled(img, w, n, mod, iter, e.left, b, s, regs, k);
  }

  lemma AndFalse(tag: Tag, x: Value)
    requires x.Num? && x.w == 0
    ensures Operate(And, tag, x, Num(0)) == Ok(Truth(false))
  {
  }

  /** Parentheses leave no trace in the code. */
  lemma {:induction false} StripCode(e: Expr, mod: Option<string>, iter: Option<string>, b: nat)
    ensures Code(e, mod, iter, b) == Code(Strip(e), mod, iter, b)
  {
    if e.Grouping? {
      StripCode(e.inner, mod, iter, b);
    }
  }

  lemma MatchComputed(x: Externals, v: Value, l: Literal)
    requires l.Pattern?
    ensures ApplyMatches(x, v, Str(l.pattern), Num(l.modifiers)) == Match(x, v, l)
  {
  }

  /** `matches` on a subject `x` already pushed: pattern, flags, comparison. */
  lemma MatchSteps(img: Image, p: nat, l: Literal, s: seq<Value>, x: Value, regs: Registers, k: nat)
    requires l.Pattern? && |s| + 3 <= STACK_MAX
    requires At(img, p, I.PushString(l.pattern)) && At(img, p + 5, I.PushInt(l.modifiers)) && At(img, p + 10, I.Matches)
    ensures Agrees(Exec(img, p, s + [x], regs, k + 3), img, p + 11, s, k, FromComputed(Match(img.externals, x, l), regs))
  {
    hide Exec, At, Apply2, Apply1, ApplyMatches, Unwrap, StepCall, ItemOf, FieldOf, ModuleOf, FindRule, GetRegister, SetRegister;
    var t := s + [x] + [Str(l.pattern)] + [Num(l.modifiers)];
    MatchComputed(img.externals, x, l);
    hide Match;
    Fire(img, p, I.PushString(l.pattern), s + [x], regs, k + 2);
    Fire(img, p + 5, I.PushInt(l.modifiers), s + [x] + [Str(l.pattern)], regs, k + 1);
    assert Drop(t, 3) == s && t[|t| - 3] == x;
    Tail(img, p + 10, I.Matches, t, s, Match(img.externals, x, l), regs, k);
  }

  lemma MatchParts(img: Image, w: World, n: nat, mod: Option<string>, iter: Option<string>, e: Expr, b: nat, level: nat)
    requires e.Binary? && e.op == Matches && Ready(img, w, n, mod, iter, e, b, level)
    ensures var p := End(mod, iter, e.left, b); var l := Strip(e.right).literal;
            && l.Pattern? && level + 3 <= STACK_MAX && img.externals == w.externals
            && Ready(img, w, n, mod, iter, e.left, b, level)
            && At(img, p, I.PushString(l.pattern)) && At(img, p + 5, I.PushInt(l.modifiers)) && At(img, p + 10, I.Matches)
            && End(mod, iter, e, b) == p + 11
  {
    hide EmittableWorld, I.Listed, I.Size, RuleDepth, LiteralDepth, I.Fetch;
    var left, l := Code(e.left, mod, iter, b), Strip(e.right).literal;
    var p := b + I.Size(left);
    StripCode(e.right, mod, IterAfter(e.left, iter), p);
    var i, j := I.PushString(l.pattern), I.PushInt(l.modifiers);
    Split(img, b, left + [i, j], [I.Matches]);
    Split(img, b, left, [i, j]);
    assert [i, j] == [i] + [j];
    Head(img, p, i, [j]);
    Single(img, p + 5, j);
    Single(img, p + 10, I.Matches);
  }

  lemma {:induction false} CompiledMatches(img: Image, w: World, n: nat, mod: Option<string>, iter: Option<string>, e: Expr,
                                           b: nat, s: seq<Value>, regs: Registers, k: nat)
    returns (f: nat)
    requires e.Binary? && e.op == Matches && Ready(img, w, n, mod, iter, e, b, |s|) && EmittableWorld(w) && Emittable(e)
    requires Grounded(Eval(w, n, mod, iter, e, regs))
    ensures f >= k && Agrees(Exec(img, b, s, regs, f), img, End(mod, iter, e, b), s, k, Eval(w, n, mod, iter, e, regs))
    decreases n, 1, e, 0, 0
  {
    hide Exec, Linked, Ready, End, Code, Depth, EmittableWorld, HasRange, IterAfter, ListedIn, I.Fetch, I.Size, RuleDepth, LiteralDepth, BinaryInstr, UnaryInstr;
    hide Match;
    MatchParts(img, w, n, mod, iter, e, b, |s|);
    match Eval(w, n, mod, iter, e.left, regs)
    case Val(x, regs1) =>
      MatchSteps(img, End(mod, iter, e.left, b), Strip(e.right).literal, s, x, regs1, k);
      f := Compiled(img, w, n, mod, iter, e.left, b, s, regs, k + 3);
    case _ => f := Compiled(img, w, n, mod, iter, e.left, b, s, regs, k);
  }

  lemma FieldParts(img: Image, w: World, n: nat, mod: Option<string>, iter: Option<string>, e: Expr, b: nat, level: nat)
    requires e.Field? && Ready(img, w, n, mod, iter, e, b, level)
    ensures var p := End(mod, iter, e.owner, b);
            && Ready(img, w, n, mod, iter, e.owner, b, level) && level < STACK_MAX
            && At(img, p, I.GetField(e.fieldName))
            && (Unwraps(e.fieldType) ==> At(img, p + 5, I.Object))
            && End(mod, iter, e, b) == p + if Unwraps(e.fieldType) then 6 else 5
  {
    hide Linked, EmittableWorld, I.Listed, I.Size, RuleDepth, LiteralDepth, BinaryInstr, UnaryInstr, I.Fetch;
    var code, get := Code(e.owner, mod, iter, b), I.GetField(e.fieldName);
    var p := b + I.Size(code);
    if Unwraps(e.fieldType) {
      Split(img, b, code, [get, I.Object]);
      assert [get, I.Object] == [get] + [I.Object];
      Head(img, p, get, [I.Object]);
      Single(img, p + 5, I.Object);
    } else {
      Split(img, b, code, [get]);
      Single(img, p, get);
    }
  }

  /** A field access on the value `x`, with the unwrapping that follows it for a plain field. */
  lemma FieldTail(img: Image, p: nat, name: string, fieldType: set<Flag>, s: seq<Value>, x: Value, regs: Registers, k: nat)
    requires At(img, p, I.GetField(name)) && (Unwraps(fieldType) ==> At(img, p + 5, I.Object)) && |s| < STACK_MAX
    ensures var extra := if Unwraps(fieldType) then 1 else 0;
            Agrees(Exec(img, p, s + [x], regs, k + 1 + extra), img, p + 5 + extra, s, k,
                   FromComputed(Access(x, name, fieldType), regs))
  {
    hide Exec, FieldOf, Unwrap;
    DropTop(s, x);
    var extra := if Unwraps(fieldType) then 1 else 0;
    Tail(img, p, I.GetField(name), s + [x], s, FieldOf(x, name), regs, k + extra);
    if Unwraps(fieldType) && FieldOf(x, name).Ok? {
      var y := FieldOf(x, name).value;
      DropTop(s, y);
      Tail(img, p + 5, I.Object, s + [y], s, Unwrap(y), regs, k);
    }
  }

  lemma {:induction false} CompiledField(img: Image, w: World, n: nat, mod: Option<string>, iter: Option<string>, e: Expr,
                                         b: nat, s: seq<Value>, regs: Registers, k: nat)
    returns (f: nat)
    requires e.Field? && Ready(img, w, n, mod, iter, e, b, |s|) && EmittableWorld(w) && Emittable(e)
    requires Grounded(Eval(w, n, mod, iter, e, regs))
    ensures f >= k && Agrees(Exec(img, b, s, regs, f), img, End(mod, iter, e, b), s, k, Eval(w, n, mod, iter, e, regs))
    decreases n, 1, e, 0, 0
  {
    hide Exec, Linked, Ready, End, Code, Depth, EmittableWorld, HasRange, IterAfter, ListedIn, I.Fetch, I.Size, RuleDepth, LiteralDepth, BinaryInstr, UnaryInstr;
    hide Access;
    FieldParts(img, w, n, mod, iter, e, b, |s|);
    match Eval(w, n, mod, iter, e.owner, regs)
    case Val(x, regs1) =>
      FieldTail(img, End(mod, iter, e.owner, b), e.fieldName, e.fieldType, s, x, regs1, k);
      f := Compiled(img, w, n, mod, iter, e.owner, b, s, regs, if Unwraps(e.fieldType) then k + 2 else k + 1);
    case _ => f := Compiled(img, w, n, mod, iter, e.owner, b, s, regs, k);
  }

  // ---------- rules ----------

  /** Running a rule from its entry point, as an event does and as a reference from another rule does. */
  lemma {:induction false} RuleCompiled(img: Image, w: World, j: nat, s: seq<Value>, k: nat) returns (f: nat)
    requires Linked(img, w) && j < |w.rules| && |s| + RuleDepth(w, j) <= STACK_MAX
    requires Grounded(EvalRule(w, j))
    ensures f >= k
    ensures var o := Exec(img, img.rules[j].codeOffset, s, ZERO, f);
            match EvalRule(w, j)
            case Val(v, _) => v.Num? && o == Stop(0, v.w, s, k)
            case Err(e) => o.Stop? && o.error == e && o.result == 0 && s <= o.stack
            case Lost(r) => o == Fault(r)
    decreases j, 2
  {
    hide Exec, Eval, Code, I.Listed, I.Size, I.Fetch, LiteralDepth;
    var r, b := w.rules[j], img.rules[j].codeOffset;
    assert RuleLinked(img, r, img.rules[j]);
    var code := Code(r.body, r.event, None, b);
    Split(img, b, code, [I.Halt]);
    Single(img, b + I.Size(code), I.Halt);
    EntryInside(img, b, code + [I.Halt]);
    f := Compiled(img, w, j, r.event, None, r.body, b, s, ZERO, k + 1);
    match Eval(w, j, r.event, None, r.body, ZERO)
    case Val(x, regs) =>
      HaltStep(img, b + I.Size(code), s, x, regs, k);
    case _ =>
  }

  lemma EntryInside(img: Image, b: nat, listing: seq<I.Instr>)
    requires ListedIn(img, b, listing) && listing != []
    ensures b <= |img.code|
  {
  }

  lemma LiteralParts(img: Image, w: World, n: nat, mod: Option<string>, iter: Option<string>, e: Expr, b: nat, level: nat)
    requires e.Lit? && Ready(img, w, n, mod, iter, e, b, level) && (e.literal.Identifier? ==> mod.Some?)
    ensures level < STACK_MAX && img.objects == w.objects && Linked(img, w) && !e.literal.Pattern?
    ensures var l := e.literal;
            match l
            case Identifier(x) =>
              if mod == Some(x) then At(img, b, I.PushModule(x))
              else if iter == Some(x) then At(img, b, I.Load(0))
              else
                var r := IndexOf(w.rules, x);
                && At(img, b, I.RunRule(x))
                && (r.Some? && r.value < n ==> level + RuleDepth(w, r.value) <= STACK_MAX)
            case Integer(v) => At(img, b, I.PushInt(v))
            case Text(t) => At(img, b, I.PushString(t))
            case Boolean(t) => At(img, b, I.PushBool(AsWord(t)))
            case Pattern(_, _) => true
    ensures End(mod, iter, e, b) == b + 5
  {
    hide EmittableWorld, I.Listed, I.Size, I.Fetch, RuleDepth;
    var code := LiteralCode(e.literal, mod, iter);
    assert level + LiteralDepth(w, n, mod, iter, e.literal) <= STACK_MAX;
    Single(img, b, code[0]);
  }

  lemma {:induction false} CompiledLiteral(img: Image, w: World, n: nat, mod: Option<string>, iter: Option<string>, e: Expr,
                                           b: nat, s: seq<Value>, regs: Registers, k: nat)
    returns (f: nat)
    requires e.Lit? && Ready(img, w, n, mod, iter, e, b, |s|) && EmittableWorld(w) && Emittable(e)
    requires Grounded(Eval(w, n, mod, iter, e, regs))
    ensures f >= k && Agrees(Exec(img, b, s, regs, f), img, End(mod, iter, e, b), s, k, Eval(w, n, mod, iter, e, regs))
    decreases n, 1, e, 0, 0
  {
    hide Exec, Linked, Ready, End, Code, Depth, EmittableWorld, HasRange, IterAfter, ListedIn, I.Fetch, I.Size, RuleDepth, LiteralDepth, BinaryInstr, UnaryInstr;
    hide EvalRule, IndexOf, ModuleOf;
    LiteralParts(img, w, n, mod, iter, e, b, |s|);
    match e.literal
    case Identifier(x) =>
      if mod == Some(x) {
        Tail(img, b, I.PushModule(x), s, s, ModuleOf(w.objects, x), regs, k);
        f := k + 1;
      } else if iter == Some(x) {
        Tail(img, b, I.Load(0), s, s, Ok(regs.r0), regs, k);
        f := k + 1;
      } else {
        f := CompiledReference(img, w, n, x, b, s, regs, k);
      }
    case Integer(v) =>
      Tail(img, b, I.PushInt(v), s, s, Ok(Num(v)), regs, k);
      f := k + 1;
    case Text(t) =>
      Tail(img, b, I.PushString(t), s, s, Ok(Str(t)), regs, k);
      f := k + 1;
    case Boolean(t) =>
      Tail(img, b, I.PushBool(AsWord(t)), s, s, Ok(Truth(t)), regs, k);
      f := k + 1;
  }

  /** One turn of the interpreter loop that calls rule `j` and gets a verdict, an error or a fault from it. */
  lemma FireRule(img: Image, ip: nat, x: string, j: nat, s: seq<Value>, regs: Registers, f: nat)
    requires At(img, ip, I.RunRule(x)) && FindRule(img, x) == Some(j) && j < |img.rules| && |s| < STACK_MAX
    ensures var o := Exec(img, ip, s, regs, f + 1);
            match Exec(img, img.rules[j].codeOffset, s, ZERO, f)
            case Stop(e, v, s', k) =>
              if e != 0 then o == Stop(e, 0, s', k)
              else s' == s ==> o == Exec(img, ip + 5, s + [Num(v)], regs, k)
            case other => o == other
  {
  }

  lemma MissingRule(img: Image, ip: nat, x: string, s: seq<Value>, regs: Registers, k: nat)
    requires At(img, ip, I.RunRule(x)) && FindRule(img, x) == None
    ensures Exec(img, ip, s, regs, k + 1) == Fault(FailedAssertion)
  {
  }

  lemma HaltStep(img: Image, ip: nat, s: seq<Value>, v: Value, regs: Registers, k: nat)
    requires At(img, ip, I.Halt)
    ensures Exec(img, ip, s + [v], regs, k + 1) == if v.Num? then Stop(0, v.w, s, k) else Fault(WrongKind)
  {
    DropTop(s, v);
    Fire(img, ip, I.Halt, s + [v], regs, k);
  }

  /** A reference to an earlier rule runs it with registers of its own and pushes its verdict. */
  lemma {:induction false} CompiledReference(img: Image, w: World, n: nat, x: string, b: nat, s: seq<Value>, regs: Registers, k: nat)
    returns (f: nat)
    requires Linked(img, w) && At(img, b, I.RunRule(x)) && |s| < STACK_MAX
    requires IndexOf(w.rules, x).Some? ==>
               var j := IndexOf(w.rules, x).value; j < n && |s| + RuleDepth(w, j) <= STACK_MAX && Grounded(EvalRule(w, j))
    ensures f >= k && Agrees(Exec(img, b, s, regs, f), img, b + 5, s, k,
              match IndexOf(w.rules, x)
              case None => Lost(FailedAssertion)
              case Some(j) => match EvalRule(w, j) case Val(v, _) => Val(v, regs) case failed => failed)
    decreases n, 0
  {
    hide Exec, Step, At, Linked, EvalRule, RuleDepth, FindRuleFrom, IndexFrom;
    FindLinked(img, w, x, 0);
    match IndexOf(w.rules, x)
    case None =>
      MissingRule(img, b, x, s, regs, k);
      f := k + 1;
    case Some(j) =>
      var f1 := RuleCompiled(img, w, j, s, k);
      FireRule(img, b, x, j, s, regs, f1);
      f := f1 + 1;
  }

  // ---------- calls ----------

  /** The values of call arguments as they lie on the stack: the first one on top. */
  function Reversed(vs: seq<Value>): (r: seq<Value>)
    ensures |r| == |vs|
    ensures forall i :: 0 <= i < |vs| ==> r[|vs| - 1 - i] == vs[i]
  {
    if vs == [] then [] else Reversed(vs[1..]) + [vs[0]]
  }

  lemma ReversedCons(v: Value, vs: seq<Value>, s: seq<Value>)
    ensures s + Reversed(vs) + [v] == s + Reversed([v] + vs)
  {
    assert ([v] + vs)[1..] == vs;
  }

  ghost predicate AgreesAll(o: Outcome, img: Image, end: nat, s: seq<Value>, k: nat, v: EvaluatedAll) {
    match v
    case Vals(vs, regs) => o == Exec(img, end, s + Reversed(vs), regs, k)
    case Failed(failure) => !failure.Val? && Agrees(o, img, end, s, k, failure)
  }

  /** `Ready` for an argument list. */
  ghost predicate ReadyAll(img: Image, w: World, n: nat, mod: Option<string>, iter: Option<string>, es: seq<Expr>, b: nat, level: nat) {
    && Linked(img, w) && EmittableWorld(w)
    && AllEmittable(es)
    && b <= |img.code| && ListedIn(img, b, ArgumentsCode(es, mod, iter, b))
    && level + ArgumentsDepth(w, n, mod, iter, es) <= STACK_MAX
  }

  function EndAll(mod: Option<string>, iter: Option<string>, es: seq<Expr>, b: nat): nat {
    b + I.Size(ArgumentsCode(es, mod, iter, b))
  }

  lemma ArgumentParts(img: Image, w: World, n: nat, mod: Option<string>, iter: Option<string>, es: seq<Expr>, b: nat, level: nat)
    requires es != [] && ReadyAll(img, w, n, mod, iter, es, b, level)
    ensures var p := EndAll(mod, iter, es[1..], b);
            && ReadyAll(img, w, n, mod, iter, es[1..], b, level)
            && Ready(img, w, n, mod, IterAfterAll(es[1..], iter), es[0], p, level + |es| - 1)
            && EndAll(mod, iter, es, b) == End(mod, IterAfterAll(es[1..], iter), es[0], p)
  {
    hide Linked, EmittableWorld, I.Listed, I.Size, RuleDepth, LiteralDepth, I.Fetch, Code, Depth;
    var later := ArgumentsCode(es[1..], mod, iter, b);
    Split(img, b, later, Code(es[0], mod, IterAfterAll(es[1..], iter), b + I.Size(later)));
    ListedFits(img, b, later);
  }

  lemma {:induction false} CompiledArguments(img: Image, w: World, n: nat, mod: Option<string>, iter: Option<string>, es: seq<Expr>,
                                             b: nat, s: seq<Value>, regs: Registers, k: nat)
    returns (f: nat)
    requires ReadyAll(img, w, n, mod, iter, es, b, |s|) && EmittableWorld(w) && AllEmittable(es)
    requires var r := EvalAll(w, n, mod, iter, es, regs); r.Failed? ==> Grounded(r.failure)
    ensures f >= k && AgreesAll(Exec(img, b, s, regs, f), img, EndAll(mod, iter, es, b), s, k, EvalAll(w, n, mod, iter, es, regs))
    decreases n, 1, es, 1, 0
  {
    hide Exec, Linked, Ready, End, Code, Depth, EmittableWorld, HasRange, IterAfterAll, ListedIn, I.Fetch, Eval, Reversed;
    if es == [] {
      f := k;
      assert s + Reversed([]) == s;
    } else {
      ArgumentParts(img, w, n, mod, iter, es, b, |s|);
      match EvalAll(w, n, mod, iter, es[1..], regs)
      case Vals(vs, regs1) =>
        var p := EndAll(mod, iter, es[1..], b);
        f := Compiled(img, w, n, mod, IterAfterAll(es[1..], iter), es[0], p, s + Reversed(vs), regs1, k);
        f := CompiledArguments(img, w, n, mod, iter, es[1..], b, s, regs, f);
        match Eval(w, n, mod, IterAfterAll(es[1..], iter), es[0], regs1) {
          case Val(v, _) => ReversedCons(v, vs, s);
          case _ =>
        }
      case Failed(_) => f := CompiledArguments(img, w, n, mod, iter, es[1..], b, s, regs, k);
    }
  }

  /** The call instruction pops the callee, the count and the arguments, first argument first. */
  lemma CallTail(img: Image, ip: nat, s: seq<Value>, vs: seq<Value>, callee: Value, regs: Registers, k: nat)
    requires At(img, ip, I.Call) && |s| + |vs| + 2 <= STACK_MAX
    ensures Agrees(Exec(img, ip, s + Reversed(vs) + [Num(|vs|)] + [callee], regs, k + 1), img, ip + 1, s, k,
                   FromComputed(Invoke(img.externals, callee, vs), regs))
  {
    hide Exec, Invoke;
    var t := s + Reversed(vs) + [Num(|vs|)] + [callee];
    assert t[|t| - 2] == Num(|vs|) && Top(t) == callee;
    assert Drop(t, 2) == s + Reversed(vs);
    assert Popped(Drop(t, 2), |vs|) == vs;
    assert Drop(t, 2 + |vs|) == s;
    Tail(img, ip, I.Call, t, s, Invoke(img.externals, callee, vs), regs, k);
  }

  lemma CallParts(img: Image, w: World, n: nat, mod: Option<string>, iter: Option<string>, e: Expr, b: nat, level: nat)
    requires e.Call? && Ready(img, w, n, mod, iter, e, b, level)
    ensures var c := |e.arguments|;
            var p := EndAll(mod, iter, e.arguments, b);
            var m := End(mod, IterAfterAll(e.arguments, iter), e.callee, p + 5);
            && img.externals == w.externals && level + c + 2 <= STACK_MAX
            && ReadyAll(img, w, n, mod, iter, e.arguments, b, level)
            && Ready(img, w, n, mod, IterAfterAll(e.arguments, iter), e.callee, p + 5, level + c + 1)
            && At(img, p, I.PushInt(c)) && At(img, m, I.Call) && End(mod, iter, e, b) == m + 1
  {
    hide EmittableWorld, I.Listed, I.Size, RuleDepth, LiteralDepth, I.Fetch;
    var pushed, count := ArgumentsCode(e.arguments, mod, iter, b), I.PushInt(Wrap(|e.arguments|));
    var p := b + I.Size(pushed);
    var callee := Code(e.callee, mod, IterAfterAll(e.arguments, iter), p + 5);
    Split(img, b, pushed + [count] + callee, [I.Call]);
    Split(img, b, pushed + [count], callee);
    Split(img, b, pushed, [count]);
    Single(img, p, count);
    Single(img, p + 5 + I.Size(callee), I.Call);
    ListedFits(img, b, pushed + [count]);
  }

  lemma {:induction false} CompiledCall(img: Image, w: World, n: nat, mod: Option<string>, iter: Option<string>, e: Expr,
                                        b: nat, s: seq<Value>, regs: Registers, k: nat)
    returns (f: nat)
    requires e.Call? && Ready(img, w, n, mod, iter, e, b, |s|) && EmittableWorld(w) && Emittable(e)
    requires Grounded(Eval(w, n, mod, iter, e, regs))
    ensures f >= k && Agrees(Exec(img, b, s, regs, f), img, End(mod, iter, e, b), s, k, Eval(w, n, mod, iter, e, regs))
    decreases n, 1, e, 0, 0
  {
    hide Exec, Linked, Ready, End, Code, Depth, EmittableWorld, HasRange, IterAfter, ListedIn, I.Fetch, I.Size, RuleDepth, LiteralDepth, BinaryInstr, UnaryInstr;
    hide IterAfterAll, EvalAll, ReadyAll, EndAll, Invoke, Reversed, ArgumentsCode, ArgumentsDepth;
    CallParts(img, w, n, mod, iter, e, b, |s|);
    var p := EndAll(mod, iter, e.arguments, b);
    match EvalAll(w, n, mod, iter, e.arguments, regs)
    case Vals(vs, regs1) =>
      var t := s + Reversed(vs) + [Num(|vs|)];
      f := Compiled(img, w, n, mod, IterAfterAll(e.arguments, iter), e.callee, p + 5, t, regs1, k + 1);
      Tail(img, p, I.PushInt(|vs|), s + Reversed(vs), s + Reversed(vs), Ok(Num(|vs|)), regs1, f);
      f := CompiledArguments(img, w, n, mod, iter, e.arguments, b, s, regs, f + 1);
      match Eval(w, n, mod, IterAfterAll(e.arguments, iter), e.callee, regs1) {
        case Val(c, regs2) => CallTail(img, End(mod, IterAfterAll(e.arguments, iter), e.callee, p + 5), s, vs, c, regs2, k);
        case _ => assert s <= t;
      }
    case Failed(_) => f := CompiledArguments(img, w, n, mod, iter, e.arguments, b, s, regs, k);
  }

  // ---------- loops ----------

  /** The addresses of a loop whose code starts at `b`. */
  datatype Layout = Layout(head: nat, cond: nat, verdict: nat, next: nat, exit: nat)

  function LayoutOf(q: Quantifier, b: nat, cond: seq<I.Instr>): Layout {
    var c := ConditionStart(b);
    var v := c + I.Size(cond);
    Layout(b + 10, c, v, v + VerdictSize(q), LoopExit(q, b, cond))
  }

  ghost predicate HeadPlaced(img: Image, l: Layout) {
    && l.exit < WORD_LIMIT && l.cond == l.head + 17
    && At(img, l.head, I.Load(0)) && At(img, l.head + 5, I.Load(1)) && At(img, l.head + 10, I.Apply2(I.Lt))
    && At(img, l.head + 11, I.JFalse(l.exit)) && At(img, l.head + 16, I.Pop)
  }

  ghost predicate VerdictPlaced(img: Image, q: Quantifier, l: Layout) {
    && l.exit < WORD_LIMIT && l.next == l.verdict + VerdictSize(q) && l.exit == l.next + 22
    && At(img, l.verdict, I.Store(2)) && At(img, l.verdict + 5, I.Load(2))
    && match q
       case All => At(img, l.verdict + 10, I.JFalse(l.exit))
       case Any => At(img, l.verdict + 10, I.JTrue(l.exit))
       case AtLeast(n) =>
         && At(img, l.verdict + 10, I.JTrue(l.verdict + 20)) && At(img, l.verdict + 15, I.Jump(l.next))
         && CountPlaced(img, n, l.verdict + 20, l.exit)
  }

  /** Counting a match, at address `p`. */
  ghost predicate CountPlaced(img: Image, n: word, p: nat, exit: word) {
    && At(img, p, I.Pop) && At(img, p + 1, I.Load(3)) && At(img, p + 6, I.PushInt(1))
    && At(img, p + 11, I.Apply2(I.Add)) && At(img, p + 12, I.Store(3))
    && At(img, p + 17, I.Load(3)) && At(img, p + 22, I.PushInt(n)) && At(img, p + 27, I.Apply2(I.Gte))
    && At(img, p + 28, I.JTrue(exit))
  }

  ghost predicate NextPlaced(img: Image, l: Layout) {
    && l.head < WORD_LIMIT
    && At(img, l.next, I.Pop) && At(img, l.next + 1, I.Load(0)) && At(img, l.next + 6, I.PushInt(1))
    && At(img, l.next + 11, I.Apply2(I.Add)) && At(img, l.next + 12, I.Store(0)) && At(img, l.next + 17, I.Jump(l.head))
  }

  ghost predicate ExitPlaced(img: Image, l: Layout) {
    At(img, l.exit, I.Pop) && At(img, l.exit + 1, I.Load(2))
  }

  ghost predicate LoopPlaced(img: Image, q: Quantifier, l: Layout) {
    HeadPlaced(img, l) && VerdictPlaced(img, q, l) && NextPlaced(img, l) && ExitPlaced(img, l)
  }

  /** The parts of a loop listing, each at its address. */
  lemma LoopListing(img: Image, q: Quantifier, b: nat, cond: seq<I.Instr>)
    requires |img.code| < WORD_LIMIT && b <= |img.code| && ListedIn(img, b, LoopCode(q, b, cond))
    ensures var l := LayoutOf(q, b, cond);
            && At(img, b, I.Store(0)) && At(img, b + 5, I.Store(1))
            && ListedIn(img, l.cond, cond) && l.cond <= |img.code|
            && ListedIn(img, l.head, LoopHead(l.exit)) && ListedIn(img, l.verdict, Verdict(q, l.verdict))
            && ListedIn(img, l.next, NextRound(l.head)) && ListedIn(img, l.exit, LOOP_EXIT)
            && b + I.Size(LoopCode(q, b, cond)) == l.exit + 6 <= |img.code|
  {
    hide I.Listed, I.Size, I.Fetch, LoopHead, Verdict, NextRound;
    var l := LayoutOf(q, b, cond);
    var stores, first, last := [I.Store(0), I.Store(1)], LoopHead(l.exit), Verdict(q, l.verdict);
    ListedFits(img, b, LoopCode(q, b, cond));
    Split(img, b, stores + first + cond + last + NextRound(l.head), LOOP_EXIT);
    Split(img, b, stores + first + cond + last, NextRound(l.head));
    Split(img, b, stores + first + cond, last);
    Split(img, b, stores + first, cond);
    Split(img, b, stores, first);
    assert stores == [I.Store(0)] + [I.Store(1)];
    Head(img, b, I.Store(0), [I.Store(1)]);
    Single(img, b + 5, I.Store(1));
    FragmentSizes(q, l.exit, l.verdict, l.head);
    ListedFits(img, b, stores + first);
  }

  /** A listing that starts with five instructions has each of them at its address. */
  lemma FiveInstructions(img: Image, b: nat, i0: I.Instr, i1: I.Instr, i2: I.Instr, i3: I.Instr, i4: I.Instr, rest: seq<I.Instr>)
    requires ListedIn(img, b, [i0, i1, i2, i3, i4] + rest)
    ensures var b1 := b + I.Width(i0); var b2 := b1 + I.Width(i1); var b3 := b2 + I.Width(i2); var b4 := b3 + I.Width(i3);
            && At(img, b, i0) && At(img, b1, i1) && At(img, b2, i2) && At(img, b3, i3) && At(img, b4, i4)
            && ListedIn(img, b4 + I.Width(i4), rest)
  {
    hide I.Listed, I.Size, I.Fetch, I.Width;
    var b1 := b + I.Width(i0);
    var b2 := b1 + I.Width(i1);
    var b3 := b2 + I.Width(i2);
    assert [i0, i1, i2, i3, i4] + rest == [i0] + ([i1] + ([i2] + ([i3] + ([i4] + rest))));
    Head(img, b, i0, [i1] + ([i2] + ([i3] + ([i4] + rest))));
    Head(img, b1, i1, [i2] + ([i3] + ([i4] + rest)));
    Head(img, b2, i2, [i3] + ([i4] + rest));
    Head(img, b3, i3, [i4] + rest);
    Head(img, b3 + I.Width(i3), i4, rest);
  }

  lemma ThreeInstructions(img: Image, b: nat, i0: I.Instr, i1: I.Instr, i2: I.Instr)
    requires ListedIn(img, b, [i0, i1, i2])
    ensures var b1 := b + I.Width(i0); At(img, b, i0) && At(img, b1, i1) && At(img, b1 + I.Width(i1), i2)
  {
    hide I.Listed, I.Size, I.Fetch, I.Width;
    assert [i0, i1, i2] == [i0] + ([i1] + [i2]);
    Head(img, b, i0, [i1] + [i2]);
    Head(img, b + I.Width(i0), i1, [i2]);
    Single(img, b + I.Width(i0) + I.Width(i1), i2);
  }

  lemma PlacedHead(img: Image, l: Layout)
    requires ListedIn(img, l.head, LoopHead(l.exit)) && l.exit < WORD_LIMIT && l.cond == l.head + 17
    ensures HeadPlaced(img, l)
  {
    hide I.Listed, I.Size, I.Fetch;
    var h := LoopHead(l.exit);
    assert h == [h[0], h[1], h[2], h[3], h[4]] + [];
    FiveInstructions(img, l.head, h[0], h[1], h[2], h[3], h[4], []);
  }

  lemma PlacedNext(img: Image, l: Layout)
    requires ListedIn(img, l.next, NextRound(l.head)) && l.head < WORD_LIMIT
    ensures NextPlaced(img, l)
  {
    hide I.Listed, I.Size, I.Fetch;
    var h := NextRound(l.head);
    assert h == [h[0], h[1], h[2], h[3], h[4]] + [h[5]];
    FiveInstructions(img, l.next, h[0], h[1], h[2], h[3], h[4], [h[5]]);
    Single(img, l.next + 17, h[5]);
  }

  lemma PlacedVerdict(img: Image, q: Quantifier, l: Layout)
    requires ListedIn(img, l.verdict, Verdict(q, l.verdict))
    requires l.exit < WORD_LIMIT && l.next == l.verdict + VerdictSize(q) && l.exit == l.next + 22
    ensures VerdictPlaced(img, q, l)
  {
    hide I.Listed, I.Size, I.Fetch;
    if q.AtLeast? {
      PlacedCount(img, q, l);
    } else {
      var v := Verdict(q, l.verdict);
      assert v == [v[0], v[1], v[2]];
      ThreeInstructions(img, l.verdict, v[0], v[1], v[2]);
    }
  }

  lemma PlacedCount(img: Image, q: Quantifier, l: Layout)
    requires q.AtLeast? && ListedIn(img, l.verdict, Verdict(q, l.verdict))
    requires l.exit < WORD_LIMIT && l.next == l.verdict + VerdictSize(q) && l.exit == l.next + 22
    ensures VerdictPlaced(img, q, l)
  {
    hide I.Listed, I.Size, I.Fetch;
    var v := Verdict(q, l.verdict);
    CountListing(img, l.verdict, v);
    assert Wrap(l.verdict + 10 + 10) == l.verdict + 20 && Wrap(l.verdict + 53) == l.next && Wrap(l.verdict + 48 + 27) == l.exit;
  }

  lemma CountListing(img: Image, b: nat, v: seq<I.Instr>)
    requires |v| == 13 && ListedIn(img, b, v)
    requires v[0].Store? && v[1].Load? && v[2].JTrue? && v[3].Jump? && v[4].Pop? && v[5].Load? && v[6].PushInt? && v[7].Apply2?
    requires v[8].Store? && v[9].Load? && v[10].PushInt? && v[11].Apply2?
    ensures At(img, b, v[0]) && At(img, b + 5, v[1]) && At(img, b + 10, v[2]) && At(img, b + 15, v[3]) && At(img, b + 20, v[4])
    ensures At(img, b + 21, v[5]) && At(img, b + 26, v[6]) && At(img, b + 31, v[7]) && At(img, b + 32, v[8]) && At(img, b + 37, v[9])
    ensures At(img, b + 42, v[10]) && At(img, b + 47, v[11]) && At(img, b + 48, v[12])
  {
    hide I.Listed, I.Size, I.Fetch, At;
    var x, y := v[5..10], v[10..];
    assert v == [v[0], v[1], v[2], v[3], v[4]] + v[5..];
    assert v[5..] == [v[5], v[6], v[7], v[8], v[9]] + y;
    assert y == [v[10], v[11], v[12]];
    FiveInstructions(img, b, v[0], v[1], v[2], v[3], v[4], v[5..]);
    FiveInstructions(img, b + 21, v[5], v[6], v[7], v[8], v[9], y);
    ThreeInstructions(img, b + 42, v[10], v[11], v[12]);
  }

  lemma PlacedExit(img: Image, l: Layout)
    requires ListedIn(img, l.exit, LOOP_EXIT)
    ensures ExitPlaced(img, l)
  {
    hide I.Listed, I.Size, I.Fetch;
    assert LOOP_EXIT == [I.Pop] + [I.Load(2)];
    Head(img, l.exit, I.Pop, [I.Load(2)]);
    Single(img, l.exit + 1, I.Load(2));
  }

  // Single steps of the loop code, on a stack `s` with the operands on top.

  function Register(regs: Registers, r: word): Value
    requires r < 4
  {
    GetRegister(regs, r).value
  }

  lemma LoadStep(img: Image, ip: nat, r: word, s: seq<Value>, regs: Registers, k: nat)
    requires At(img, ip, I.Load(r)) && r < 4 && |s| < STACK_MAX
    ensures Exec(img, ip, s, regs, k + 1) == Exec(img, ip + 5, s + [Register(regs, r)], regs, k)
  {
    hide Exec, At, Apply2, Apply1, ApplyMatches, Unwrap, StepCall, ItemOf, FieldOf, ModuleOf, FindRule, SetRegister, Drop;
    Fire(img, ip, I.Load(r), s, regs, k);
  }

  lemma StoreStep(img: Image, ip: nat, r: word, s: seq<Value>, v: Value, regs: Registers, k: nat)
    requires At(img, ip, I.Store(r)) && r < 4
    ensures Exec(img, ip, s + [v], regs, k + 1) == Exec(img, ip + 5, s, SetRegister(regs, r, v), k)
  {
    hide Exec, At, Apply2, Apply1, ApplyMatches, Unwrap, StepCall, ItemOf, FieldOf, ModuleOf, FindRule, GetRegister, SetRegister;
    DropTop(s, v);
    Fire(img, ip, I.Store(r), s + [v], regs, k);
  }

  lemma PushStep(img: Image, ip: nat, n: word, s: seq<Value>, regs: Registers, k: nat)
    requires At(img, ip, I.PushInt(n)) && |s| < STACK_MAX
    ensures Exec(img, ip, s, regs, k + 1) == Exec(img, ip + 5, s + [Num(n)], regs, k)
  {
    hide Exec, At, Apply2, Apply1, ApplyMatches, Unwrap, StepCall, ItemOf, FieldOf, ModuleOf, FindRule, GetRegister, SetRegister, Drop;
    Fire(img, ip, I.PushInt(n), s, regs, k);
  }

  lemma PopStep(img: Image, ip: nat, s: seq<Value>, v: Value, regs: Registers, k: nat)
    requires At(img, ip, I.Pop)
    ensures Exec(img, ip, s + [v], regs, k + 1) == Exec(img, ip + 1, s, regs, k)
  {
    DropTop(s, v);
    Fire(img, ip, I.Pop, s + [v], regs, k);
  }

  /** Addition and comparison of two numbers; anything else on the stack is a fault. */
  lemma NumberStep(img: Image, ip: nat, o: I.Op2, s: seq<Value>, x: Value, y: Value, regs: Registers, k: nat)
    requires At(img, ip, I.Apply2(o)) && |s| < STACK_MAX && (o == I.Add || o == I.Lt || o == I.Gte)
    ensures !(x.Num? && y.Num?) ==> Exec(img, ip, s + [x] + [y], regs, k + 1) == Fault(WrongKind)
    ensures x.Num? && y.Num? ==>
              var z := if o == I.Add then Num(Wrap(x.w + y.w)) else if o == I.Lt then Truth(x.w < y.w) else Truth(x.w >= y.w);
              Exec(img, ip, s + [x] + [y], regs, k + 1) == Exec(img, ip + 1, s + [z], regs, k)
  {
    hide Wrap, Machine.Apply2;
    DropTwo(s, x, y);
    NumberApplied(o, x, y);
    Fire(img, ip, I.Apply2(o), s + [x] + [y], regs, k);
  }

  lemma NumberApplied(o: I.Op2, x: Value, y: Value)
    requires o == I.Add || o == I.Lt || o == I.Gte
    ensures !(x.Num? && y.Num?) ==> Machine.Apply2(o, x, y) == Crash(WrongKind)
    ensures x.Num? && y.Num? ==>
              Machine.Apply2(o, x, y) ==
                Ok(if o == I.Add then Num(Wrap(x.w + y.w)) else if o == I.Lt then Truth(x.w < y.w) else Truth(x.w >= y.w))
  {
    hide Wrap;
  }

  lemma BranchStep(img: Image, ip: nat, i: I.Instr, s: seq<Value>, v: Value, regs: Registers, k: nat)
    requires At(img, ip, i) && (i.JFalse? || i.JTrue?)
    ensures !v.Num? ==> Exec(img, ip, s + [v], regs, k + 1) == Fault(WrongKind)
    ensures v.Num? ==>
              var taken := if i.JTrue? then v.w != 0 else v.w == 0;
              Exec(img, ip, s + [v], regs, k + 1) == Exec(img, if taken then i.target else ip + 5, s + [v], regs, k)
  {
    DropTop(s, v);
    Fire(img, ip, i, s + [v], regs, k);
  }

  lemma JumpStep(img: Image, ip: nat, t: word, s: seq<Value>, regs: Registers, k: nat)
    requires At(img, ip, I.Jump(t))
    ensures Exec(img, ip, s, regs, k + 1) == Exec(img, t, s, regs, k)
  {
    Fire(img, ip, I.Jump(t), s, regs, k);
  }

  /** The loop test: enter the next round, leave, or fault on registers that hold no numbers. */
  lemma HeadSteps(img: Image, l: Layout, s: seq<Value>, regs: Registers, k: nat)
    requires HeadPlaced(img, l) && |s| + 2 <= STACK_MAX
    ensures var numeric := regs.r0.Num? && regs.r1.Num?;
            && (!numeric ==> Exec(img, l.head, s, regs, k + 3) == Fault(WrongKind))
            && (numeric && regs.r0.w >= regs.r1.w ==>
                  Exec(img, l.head, s, regs, k + 4) == Exec(img, l.exit, s + [Num(0)], regs, k))
            && (numeric && regs.r0.w < regs.r1.w ==>
                  Exec(img, l.head, s, regs, k + 5) == Exec(img, l.cond, s, regs, k))
  {
    hide Exec, At;
    var numeric := regs.r0.Num? && regs.r1.Num?;
    var d := if !numeric then 0 else if regs.r0.w >= regs.r1.w then 1 else 2;
    LoadStep(img, l.head, 0, s, regs, k + 2 + d);
    LoadStep(img, l.head + 5, 1, s + [regs.r0], regs, k + 1 + d);
    NumberStep(img, l.head + 10, I.Lt, s, regs.r0, regs.r1, regs, k + d);
    if numeric {
      var t := Truth(regs.r0.w < regs.r1.w);
      BranchStep(img, l.head + 11, I.JFalse(l.exit), s, t, regs, k + d - 1);
      if d == 2 {
        PopStep(img, l.head + 16, s, t, regs, k);
      }
    }
  }

  lemma ExitSteps(img: Image, l: Layout, s: seq<Value>, t: Value, regs: Registers, k: nat)
    requires ExitPlaced(img, l) && |s| < STACK_MAX
    ensures Exec(img, l.exit, s + [t], regs, k + 2) == Exec(img, l.exit + 6, s + [regs.r2], regs, k)
  {
    hide Exec, At;
    PopStep(img, l.exit, s, t, regs, k + 1);
    LoadStep(img, l.exit + 1, 2, s, regs, k);
  }

  /** `i++`, discarding what the verdict left on the stack. */
  lemma NextSteps(img: Image, l: Layout, s: seq<Value>, t: Value, regs: Registers, k: nat)
    requires NextPlaced(img, l) && |s| + 2 <= STACK_MAX && regs.r0.Num?
    ensures Exec(img, l.next, s + [t], regs, k + 6) ==
            Exec(img, l.head, s, regs.(r0 := Num(Wrap(regs.r0.w + 1))), k)
  {
    hide Exec, At, Wrap;
    var i := Num(Wrap(regs.r0.w + 1));
    PopStep(img, l.next, s, t, regs, k + 5);
    LoadStep(img, l.next + 1, 0, s, regs, k + 4);
    PushStep(img, l.next + 6, 1, s + [regs.r0], regs, k + 3);
    NumberStep(img, l.next + 11, I.Add, s, regs.r0, Num(1), regs, k + 2);
    StoreStep(img, l.next + 12, 0, s, i, regs, k + 1);
    JumpStep(img, l.next + 17, l.head, s, regs.(r0 := i), k);
  }

  /** A counter that is no number cannot be stepped. */
  lemma NextFaults(img: Image, l: Layout, s: seq<Value>, t: Value, regs: Registers, k: nat)
    requires NextPlaced(img, l) && |s| + 2 <= STACK_MAX && !regs.r0.Num?
    ensures Exec(img, l.next, s + [t], regs, k + 4) == Fault(WrongKind)
  {
    hide Exec, At, Wrap;
    PopStep(img, l.next, s, t, regs, k + 3);
    LoadStep(img, l.next + 1, 0, s, regs, k + 2);
    PushStep(img, l.next + 6, 1, s + [regs.r0], regs, k + 1);
    NumberStep(img, l.next + 11, I.Add, s, regs.r0, Num(1), regs, k);
  }

  /** Saving the condition's value, with a copy left on the stack. */
  lemma SaveSteps(img: Image, l: Layout, q: Quantifier, s: seq<Value>, v: Value, regs: Registers, k: nat)
    requires VerdictPlaced(img, q, l) && |s| < STACK_MAX
    ensures Exec(img, l.verdict, s + [v], regs, k + 2) == Exec(img, l.verdict + 10, s + [v], regs.(r2 := v), k)
  {
    hide Exec, At, CountPlaced;
    StoreStep(img, l.verdict, 2, s, v, regs, k + 1);
    LoadStep(img, l.verdict + 5, 2, s, regs.(r2 := v), k);
  }

  /** Counting a match: fault, leave with the quota reached, or fall through to the next round. */
  lemma CountSteps(img: Image, n: word, p: nat, exit: word, s: seq<Value>, v: Value, regs: Registers, k: nat)
    requires CountPlaced(img, n, p, exit) && |s| + 2 <= STACK_MAX
    ensures !regs.r3.Num? ==> Exec(img, p, s + [v], regs, k + 4) == Fault(WrongKind)
    ensures regs.r3.Num? ==>
              var found := Wrap(regs.r3.w + 1);
              Exec(img, p, s + [v], regs, k + 9) ==
              Exec(img, if found >= n then exit else p + 33, s + [Truth(found >= n)], regs.(r3 := Num(found)), k)
  {
    hide Exec, At, Wrap;
    var d := if regs.r3.Num? then 5 else 0;
    PopStep(img, p, s, v, regs, k + d + 3);
    LoadStep(img, p + 1, 3, s, regs, k + d + 2);
    PushStep(img, p + 6, 1, s + [regs.r3], regs, k + d + 1);
    NumberStep(img, p + 11, I.Add, s, regs.r3, Num(1), regs, k + d);
    if regs.r3.Num? {
      CompareSteps(img, n, p, exit, s, Wrap(regs.r3.w + 1), regs, k);
    }
  }

  lemma CompareSteps(img: Image, n: word, p: nat, exit: word, s: seq<Value>, found: word, regs: Registers, k: nat)
    requires CountPlaced(img, n, p, exit) && |s| + 2 <= STACK_MAX
    ensures Exec(img, p + 12, s + [Num(found)], regs, k + 5) ==
            Exec(img, if found >= n then exit else p + 33, s + [Truth(found >= n)], regs.(r3 := Num(found)), k)
  {
    hide Exec, At;
    var regs1 := regs.(r3 := Num(found));
    StoreStep(img, p + 12, 3, s, Num(found), regs, k + 4);
    LoadStep(img, p + 17, 3, s, regs1, k + 3);
    PushStep(img, p + 22, n, s + [Num(found)], regs1, k + 2);
    NumberStep(img, p + 27, I.Gte, s, Num(found), Num(n), regs1, k + 1);
    BranchStep(img, p + 28, I.JTrue(exit), s, Truth(found >= n), regs1, k);
  }

  /** Where the verdict on a condition value leads: out of the loop, or into the next round. */
  lemma VerdictSteps(img: Image, l: Layout, q: Quantifier, s: seq<Value>, v: Value, regs: Registers, k: nat)
    returns (f: nat, t: Value)
    requires VerdictPlaced(img, q, l) && |s| + 2 <= STACK_MAX
    ensures var o := Exec(img, l.verdict, s + [v], regs, f);
            var d := Decide(q, v, regs);
            && f >= k && (d.Some? ==> !d.value.Err?)
            && (v.Num? && v.w == 0 ==> t == v && f == k + if q.AtLeast? then 4 else 3)
            && (d.Some? && d.value.Val? ==>
                  v == d.value.value == d.value.regs.r2 && o == Exec(img, l.exit, s + [t], d.value.regs, k))
            && (d.Some? && d.value.Lost? ==> o == Fault(d.value.reason))
            && (d.None? ==> v.Num? && (q.AtLeast? && v.w != 0 ==> regs.r3.Num?))
            && (d.None? ==> o == Exec(img, l.next, s + [t], Recorded(q, v, regs), k))
  {
    hide Exec, At, Wrap, CountPlaced;
    t := v;
    var regs1, p := regs.(r2 := v), l.verdict + 10;
    if !v.Num? || !q.AtLeast? {
      f := k + 3;
      SaveSteps(img, l, q, s, v, regs, k + 1);
      match q
      case All => BranchStep(img, p, I.JFalse(l.exit), s, v, regs1, k);
      case Any => BranchStep(img, p, I.JTrue(l.exit), s, v, regs1, k);
      case AtLeast(n) => BranchStep(img, p, I.JTrue(l.verdict + 20), s, v, regs1, k);
    } else if v.w == 0 {
      f := k + 4;
      SaveSteps(img, l, q, s, v, regs, k + 2);
      BranchStep(img, p, I.JTrue(l.verdict + 20), s, v, regs1, k + 1);
      JumpStep(img, p + 5, l.next, s + [v], regs1, k);
    } else {
      var d := if regs.r3.Num? then 9 else 4;
      f := k + d + 3;
      SaveSteps(img, l, q, s, v, regs, k + d + 1);
      BranchStep(img, p, I.JTrue(l.verdict + 20), s, v, regs1, k + d);
      CountSteps(img, q.count, l.verdict + 20, l.exit, s, v, regs1, k);
      t := if regs.r3.Num? then Truth(Wrap(regs.r3.w + 1) >= q.count) else v;
    }
  }

  lemma {:induction false} CompiledLoop(img: Image, w: World, n: nat, mod: Option<string>, iter: Option<string>, q: Quantifier, c: Expr,
                                        l: Layout, s: seq<Value>, regs: Registers, rounds: nat, k: nat)
    returns (f: nat)
    requires LoopPlaced(img, q, l) && EmittableWorld(w) && Emittable(c)
    requires Ready(img, w, n, mod, iter, c, l.cond, |s|) && End(mod, iter, c, l.cond) == l.verdict
    requires |s| + 2 <= STACK_MAX && Grounded(Loop(w, n, mod, iter, q, c, regs, rounds))
    ensures f >= k && Agrees(Exec(img, l.head, s, regs, f), img, l.exit + 6, s, k, Loop(w, n, mod, iter, q, c, regs, rounds))
    decreases n, 1, c, 2, rounds, Remaining(regs)
  {
    hide Exec, Linked, Ready, End, Code, Depth, EmittableWorld, HasRange, IterAfter, ListedIn, I.Fetch, I.Size, RuleDepth, LiteralDepth, BinaryInstr, UnaryInstr;
    hide Decide, Advance, Eval, At, Emittable;
    if !regs.r0.Num? || !regs.r1.Num? {
      HeadSteps(img, l, s, regs, k);
      f := k + 3;
    } else if regs.r0.w >= regs.r1.w {
      HeadSteps(img, l, s, regs, k + 2);
      ExitSteps(img, l, s, Num(0), regs, k);
      f := k + 6;
    } else {
      match Eval(w, n, mod, iter, c, regs)
      case Val(v, regs1) =>
        f := CompiledRound(img, w, n, mod, iter, q, c, l, s, regs, v, regs1, rounds, k);
        f := Compiled(img, w, n, mod, iter, c, l.cond, s, regs, f);
        HeadSteps(img, l, s, regs, f);
        f := f + 5;
      case _ =>
        f := Compiled(img, w, n, mod, iter, c, l.cond, s, regs, k);
        HeadSteps(img, l, s, regs, f);
        f := f + 5;
    }
  }

  /** The rest of the loop once the condition's value `v` is on the stack. */
  lemma {:induction false} CompiledRound(img: Image, w: World, n: nat, mod: Option<string>, iter: Option<string>, q: Quantifier, c: Expr,
                                         l: Layout, s: seq<Value>, regs: Registers, v: Value, regs1: Registers, rounds: nat, k: nat)
    returns (f: nat)
    requires LoopPlaced(img, q, l) && EmittableWorld(w) && Emittable(c)
    requires Ready(img, w, n, mod, iter, c, l.cond, |s|) && End(mod, iter, c, l.cond) == l.verdict
    requires |s| + 2 <= STACK_MAX && Grounded(Loop(w, n, mod, iter, q, c, regs, rounds))
    requires regs.r0.Num? && regs.r1.Num? && regs.r0.w < regs.r1.w && Eval(w, n, mod, iter, c, regs) == Val(v, regs1)
    ensures f >= k && Agrees(Exec(img, l.verdict, s + [v], regs1, f), img, l.exit + 6, s, k, Loop(w, n, mod, iter, q, c, regs, rounds))
    decreases n, 1, c, 2, rounds, Remaining(regs), 0
  {
    hide Exec, Linked, Ready, End, Code, Depth, EmittableWorld, HasRange, IterAfter, ListedIn, I.Fetch, I.Size, RuleDepth, LiteralDepth, BinaryInstr, UnaryInstr;
    hide Eval, At, Emittable, Recorded;
    var t;
    match Decide(q, v, regs1)
    case Some(d) =>
      f, t := VerdictSteps(img, l, q, s, v, regs1, k + 2);
      if d.Val? {
        ExitSteps(img, l, s, t, d.regs, k);
      }
    case None =>
      RecordedKeeps(q, v, regs1);
      if regs1.r0.Num? {
        var next := Advance(q, v, regs1);
        f := CompiledLoop(img, w, n, mod, iter, q, c, l, s, next, if Remaining(next) < Remaining(regs) then rounds else rounds - 1, k);
        var f1 := f;
        f, t := VerdictSteps(img, l, q, s, v, regs1, f1 + 6);
        NextSteps(img, l, s, t, Recorded(q, v, regs1), f1);
      } else {
        f, t := VerdictSteps(img, l, q, s, v, regs1, k + 4);
        NextFaults(img, l, s, t, Recorded(q, v, regs1), k);
      }
  }

  lemma RecordedKeeps(q: Quantifier, v: Value, regs: Registers)
    requires Decide(q, v, regs).None?
    ensures v.Num? && (q.AtLeast? && v.w != 0 ==> regs.r3.Num?) && Recorded(q, v, regs).r0 == regs.r0
  {
  }

  lemma RangeListing(e: Expr, mod: Option<string>, iter: Option<string>, b: nat)
    requires e.Range?
    ensures var i0 := Some(e.ivar); var i1 := IterAfter(e.end, i0);
            var last := Code(e.end, mod, i0, b); var p := b + I.Size(last);
            var first := Code(e.start, mod, i1, p); var m := p + I.Size(first);
            Code(e, mod, iter, b) == last + first + LoopCode(e.quantifier, m, Code(e.condition, mod, IterAfter(e.start, i1), ConditionStart(m)))
  {
    hide I.Size, LoopCode, IterAfter;
  }

  lemma RangeParts(img: Image, w: World, n: nat, mod: Option<string>, iter: Option<string>, e: Expr, b: nat, level: nat)
    requires e.Range? && Ready(img, w, n, mod, iter, e, b, level)
    ensures var i0 := Some(e.ivar); var i1 := IterAfter(e.end, i0); var i2 := IterAfter(e.start, i1);
            var p := End(mod, i0, e.end, b);
            var m := End(mod, i1, e.start, p);
            var cond := Code(e.condition, mod, i2, ConditionStart(m));
            var l := LayoutOf(e.quantifier, m, cond);
            && level + 2 <= STACK_MAX
            && Ready(img, w, n, mod, i0, e.end, b, level) && Ready(img, w, n, mod, i1, e.start, p, level + 1)
            && Ready(img, w, n, mod, i2, e.condition, l.cond, level) && End(mod, i2, e.condition, l.cond) == l.verdict
            && At(img, m, I.Store(0)) && At(img, m + 5, I.Store(1)) && l.head == m + 10
            && ListedIn(img, m, LoopCode(e.quantifier, m, cond)) && |img.code| < WORD_LIMIT && m <= |img.code|
            && End(mod, iter, e, b) == l.exit + 6 && l.exit < WORD_LIMIT
  {
    hide EmittableWorld, I.Listed, I.Size, RuleDepth, LiteralDepth, I.Fetch, LoopCode, IterAfter, Code;
    RangeListing(e, mod, iter, b);
    var q, i0 := e.quantifier, Some(e.ivar);
    var i1 := IterAfter(e.end, i0);
    var last := Code(e.end, mod, i0, b);
    var p := b + I.Size(last);
    var first := Code(e.start, mod, i1, p);
    var m := p + I.Size(first);
    var cond := Code(e.condition, mod, IterAfter(e.start, i1), ConditionStart(m));
    Split(img, b, last + first, LoopCode(q, m, cond));
    Split(img, b, last, first);
    ListedFits(img, b, last);
    ListedFits(img, p, first);
    LoopListing(img, q, m, cond);
  }

  lemma PlacedLoop(img: Image, q: Quantifier, m: nat, cond: seq<I.Instr>)
    requires |img.code| < WORD_LIMIT && m <= |img.code| && ListedIn(img, m, LoopCode(q, m, cond))
    ensures LoopPlaced(img, q, LayoutOf(q, m, cond))
  {
    hide I.Listed, I.Size, I.Fetch, LoopCode, LoopHead, Verdict, NextRound;
    var l := LayoutOf(q, m, cond);
    LoopListing(img, q, m, cond);
    PlacedHead(img, l);
    PlacedVerdict(img, q, l);
    PlacedNext(img, l);
    PlacedExit(img, l);
  }

  /** The bounds, pushed end first, go to registers 0 and 1. */
  lemma BoundSteps(img: Image, m: nat, s: seq<Value>, last: Value, first: Value, regs: Registers, k: nat)
    requires At(img, m, I.Store(0)) && At(img, m + 5, I.Store(1))
    ensures Exec(img, m, s + [last] + [first], regs, k + 2) == Exec(img, m + 10, s, regs.(r0 := first, r1 := last), k)
  {
    hide Exec;
    DropTop(s + [last], first);
    DropTop(s, last);
    Fire(img, m, I.Store(0), s + [last] + [first], regs, k + 1);
    Fire(img, m + 5, I.Store(1), s + [last], regs.(r0 := first), k);
  }

  lemma {:induction false} CompiledRange(img: Image, w: World, n: nat, mod: Option<string>, iter: Option<string>, e: Expr,
                                         b: nat, s: seq<Value>, regs: Registers, k: nat)
    returns (f: nat)
    requires e.Range? && Ready(img, w, n, mod, iter, e, b, |s|) && EmittableWorld(w) && Emittable(e)
    requires Grounded(Eval(w, n, mod, iter, e, regs))
    ensures f >= k && Agrees(Exec(img, b, s, regs, f), img, End(mod, iter, e, b), s, k, Eval(w, n, mod, iter, e, regs))
    decreases n, 1, e, 0, 0
  {
    hide Exec, Linked, Ready, End, Code, Depth, EmittableWorld, HasRange, IterAfter, ListedIn, I.Fetch, I.Size, RuleDepth, LiteralDepth, BinaryInstr, UnaryInstr;
    hide Loop, LoopPlaced, LoopCode, LayoutOf;
    RangeParts(img, w, n, mod, iter, e, b, |s|);
    var i0 := Some(e.ivar);
    var i1 := IterAfter(e.end, i0);
    var i2, p := IterAfter(e.start, i1), End(mod, i0, e.end, b);
    match Eval(w, n, mod, i0, e.end, regs)
    case Val(last, regs1) =>
      match Eval(w, n, mod, i1, e.start, regs1) {
        case Val(first, regs2) =>
          var m := End(mod, i1, e.start, p);
          var cond := Code(e.condition, mod, i2, ConditionStart(m));
          PlacedLoop(img, e.quantifier, m, cond);
          var regs3 := regs2.(r0 := first, r1 := last);
          f := CompiledLoop(img, w, n, mod, i2, e.quantifier, e.condition, LayoutOf(e.quantifier, m, cond), s, regs3, w.rounds, k);
          BoundSteps(img, m, s, last, first, regs2, f);
          f := Compiled(img, w, n, mod, i1, e.start, p, s + [last], regs1, f + 2);
        case _ => f := Compiled(img, w, n, mod, i1, e.start, p, s + [last], regs1, k);
      }
      f := Compiled(img, w, n, mod, i0, e.end, b, s, regs, f);
    case _ => f := Compiled(img, w, n, mod, i0, e.end, b, s, regs, k);
  }
}
