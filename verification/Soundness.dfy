/**
 * Type soundness: what the checker accepts, under the conditions listed in `Proper`, never applies
 * an operator to a value of the wrong kind and yields a value of the kind the checker announced.
 */
module Soundness {
  import opened Words
  import opened Wrappers
  import opened Ast
  import opened Machine
  import opened Semantics
  import opened Checker

  // ---------- run-time objects that match their declarations ----------

  predicate KindOk(v: Value, t: Tag) {
    match t
    case String => v.Str?
    case Number => v.Num?
    case True => v.Num?
    case False => v.Num?
    case _ => false
  }

  predicate AllKinds(vs: seq<Value>, ts: seq<Tag>) {
    |vs| == |ts| && forall i :: 0 <= i < |vs| ==> KindOk(vs[i], ts[i])
  }

  /** A value that stands for a declared element, field value or function result. */
  ghost predicate ValueConforms(v: Value, s: Schema, x: Externals)
    decreases s, 1
  {
    if OfStruct in s.flags then v.Obj? && StructConforms(v.o, s, x) else KindOk(v, ScalarTag(s.flags))
  }

  /** Every declared field is there, and matches. */
  ghost predicate StructConforms(o: Object, s: Schema, x: Externals)
    decreases s, 0
  {
    forall f <- s.fields :: f in o.fields && FieldConforms(o.fields[f], s.fields[f], x)
  }

  ghost predicate FieldConforms(o: Object, s: Schema, x: Externals)
    decreases s, 2
  {
    && o.flags == s.flags
    && (OfArray in s.flags ==> o.payload.Items? && forall v <- o.payload.items :: ValueConforms(v, s, x))
    && (OfFunction in s.flags ==>
          forall args: seq<Value> :: AllKinds(args, s.params) ==>
            var r := x.call(o.entry, args); r.Returned? ==> ValueConforms(r.result, s, x))
    && (!IsContainer(s.flags) && ScalarTag(s.flags) != Eof ==>
          o.payload.Scalar? && KindOk(o.payload.value, ScalarTag(s.flags)))
  }

  // ---------- the conditions the checker does not check ----------

  /** The tree with its annotations reduced to what the emitter reads off them. */
  function Canon(e: Expr): Expr {
    match e
    case Binary(op, l, r, tag) => Binary(op, Canon(l), Canon(r), CanonTag(tag))
    case Unary(op, r) => Unary(op, Canon(r))
    case Grouping(i) => Grouping(Canon(i))
    case Lit(_) => e
    case Call(f, args) => Call(Canon(f), CanonAll(args))
    case Field(o, name, ty) => Field(Canon(o), name, if IsContainer(ty) then {OfArray} else {})
    case Index(a, i) => Index(Canon(a), Canon(i))
    case Range(q, x, s, t, c) => Range(q, x, Canon(s), Canon(t), Canon(c))
    case Null => Null
  }

  function CanonAll(es: seq<Expr>): (r: seq<Expr>)
    ensures |r| == |es|
  {
    if es == [] then [] else [Canon(es[0])] + CanonAll(es[1..])
  }

  /** Only string comparisons are told apart by the operand type: numbers and Booleans compare alike. */
  function CanonTag(t: Tag): Tag {
    if t == String then String else Unset
  }

  /**
   * What the checker takes on trust.  A rule does not refer to itself, a regex stands only after
   * `matches` and a `for` contains no `for`; a path ends at its first scalar, its calls have the right number of arguments, and an
   * index inside it is a number whose code needs no annotation.
   */
  predicate Proper(sc: Scope, e: Expr)
    decreases e, 1
  {
    match e
    case Binary(op, l, r, _) => Proper(sc, l) && (if op == Matches then IsRegex(Strip(r)) else Proper(sc, r))
    case Unary(_, r) => Proper(sc, r)
    case Grouping(i) => Proper(sc, i)
    case Lit(l) => !l.Pattern? && !(l.Identifier? && Some(l.name) == sc.self)
    case Call(_, _) => ProperPath(sc, e)
    case Field(_, _, _) => ProperPath(sc, e)
    case Index(a, i) =>
      a.Field? && Trace(sc, a.owner).reach.Container? && ProperPath(sc, a.owner) && Proper(sc, i)
    case Range(_, x, s, t, c) =>
      && Proper(sc, s) && Proper(sc, t) && Proper(sc.(env := sc.env[x := Variable]), c)
      && !HasRange(s) && !HasRange(t) && !HasRange(c)
    case Null => false
  }

  predicate ProperPath(sc: Scope, e: Expr)
    decreases e, 0
  {
    match e
    case Lit(l) => !l.Pattern?
    case Field(o, _, _) => Trace(sc, o).reach.Container? && ProperPath(sc, o)
    case Index(a, i) =>
      && a.Field? && Trace(sc, a.owner).reach.Container? && ProperPath(sc, a.owner)
      && Proper(sc, i) && !HasRange(i) && Resolve(sc, i).tag == Number && Canon(Resolve(sc, i).expr) == Canon(i)
    case Call(f, args) =>
      && f.Field? && f.owner.Lit? && !f.owner.literal.Pattern? && AllProper(sc, args)
      && sc.mod.Some? && f.fieldName in sc.mod.value.fields && |sc.mod.value.fields[f.fieldName].params| == |args|
    case _ => false
  }

  predicate AllProper(sc: Scope, es: seq<Expr>)
    decreases es, 2
  {
    es == [] || (Proper(sc, es[0]) && AllProper(sc, es[1..]))
  }

  // ---------- annotation keeps the shape ----------

  lemma {:induction false} ProperEmittable(sc: Scope, e: Expr)
    requires Proper(sc, e)
    ensures Emittable(e)
    decreases e, 1
  {
    match e
    case Binary(op, l, r, _) =>
      ProperEmittable(sc, l);
      if op != Matches { ProperEmittable(sc, r); }
    case Unary(_, r) => ProperEmittable(sc, r);
    case Grouping(i) => ProperEmittable(sc, i);
    case Lit(_) =>
    case Call(_, _) => PathEmittable(sc, e);
    case Field(_, _, _) => PathEmittable(sc, e);
    case Index(a, i) =>
      PathEmittable(sc, a.owner);
      ProperEmittable(sc, i);
    case Range(_, x, s, t, c) =>
      ProperEmittable(sc, s);
      ProperEmittable(sc, t);
      ProperEmittable(sc.(env := sc.env[x := Variable]), c);
  }

  lemma {:induction false} PathEmittable(sc: Scope, e: Expr)
    requires ProperPath(sc, e)
    ensures Emittable(e)
    decreases e, 0
  {
    match e
    case Lit(_) =>
    case Field(o, _, _) => PathEmittable(sc, o);
    case Index(a, i) =>
      PathEmittable(sc, a.owner);
      ProperEmittable(sc, i);
    case Call(f, args) => ArgumentsEmittable(sc, args);
  }

  lemma {:induction false} ArgumentsEmittable(sc: Scope, es: seq<Expr>)
    requires AllProper(sc, es)
    ensures AllEmittable(es)
    decreases es, 2
  {
    if es != [] {
      ProperEmittable(sc, es[0]);
      ArgumentsEmittable(sc, es[1..]);
    }
  }

  predicate SameShape(e: Expr, e': Expr) {
    (Emittable(e) ==> Emittable(e')) && HasRange(e') == HasRange(e)
  }

  lemma {:induction false} ResolveShape(sc: Scope, e: Expr)
    ensures SameShape(e, Resolve(sc, e).expr)
    ensures IsRegex(Strip(e)) ==> Strip(Resolve(sc, e).expr) == Strip(e)
    decreases e, 1
  {
    match e
    case Binary(_, l, r, _) => ResolveShape(sc, l); ResolveShape(sc, r);
    case Unary(_, r) => ResolveShape(sc, r);
    case Grouping(i) => ResolveShape(sc, i);
    case Call(_, _) => TraceShape(sc, e);
    case Field(_, _, _) => TraceShape(sc, e);
    case Index(_, i) =>
      TraceShape(sc, e);
      ResolveShape(sc, i);
    case Range(_, x, s, t, c) =>
      ResolveShape(sc, s);
      ResolveShape(sc, t);
      ResolveShape(sc.(env := sc.env[x := Variable]), c);
    case _ =>
  }

  lemma {:induction false} TraceShape(sc: Scope, e: Expr)
    ensures SameShape(e, Trace(sc, e).path)
    ensures e.Index? ==> Trace(sc, e).path.Index? && Trace(sc, e).path.index == e.index
    decreases e, 0
  {
    match e
    case Field(o, _, _) => TraceShape(sc, o);
    case Index(a, _) =>
      if a.Field? {
        TraceShape(sc, a.owner);
        assert Emittable(e) ==> Emittable(a);
      }
    case Call(f, args) =>
      if f.Field? && f.owner.Lit? {
        TraceShape(sc, f.owner);
        ArgumentsShape(sc, args);
      }
    case _ =>
  }

  lemma {:induction false} ArgumentsShape(sc: Scope, es: seq<Expr>)
    ensures var r := ResolveAll(sc, es);
            r.Some? ==> (AllEmittable(es) ==> AllEmittable(Exprs(r.value))) && AnyRange(Exprs(r.value)) == AnyRange(es)
    decreases es, 2
  {
    if es != [] {
      ResolveShape(sc, es[0]);
      ArgumentsShape(sc, es[1..]);
      var r := ResolveAll(sc, es);
      if r.Some? {
        assert Exprs(r.value)[1..] == Exprs(r.value[1..]);
      }
    }
  }

  // ---------- annotations that carry nothing ----------

  lemma {:induction false} CanonShape(e: Expr)
    ensures SameShape(e, Canon(e)) && (IsRegex(Strip(e)) ==> Strip(Canon(e)) == Strip(e))
    decreases e, 1
  {
    match e
    case Binary(_, l, r, _) => CanonShape(l); CanonShape(r);
    case Unary(_, r) => CanonShape(r);
    case Grouping(i) => CanonShape(i);
    case Call(f, args) => CanonShape(f); CanonAllShape(args);
    case Field(o, _, _) => CanonShape(o);
    case Index(a, i) => CanonShape(a); CanonShape(i);
    case Range(_, _, s, t, c) => CanonShape(s); CanonShape(t); CanonShape(c);
    case _ =>
  }

  lemma {:induction false} CanonAllShape(es: seq<Expr>)
    ensures (AllEmittable(es) ==> AllEmittable(CanonAll(es))) && AnyRange(CanonAll(es)) == AnyRange(es)
    decreases es, 2
  {
    if es != [] {
      CanonShape(es[0]);
      CanonAllShape(es[1..]);
      assert CanonAll(es)[1..] == CanonAll(es[1..]);
    }
  }

  /** The evaluator sees no more of the annotations than `Canon` keeps. */
  lemma CanonOperate(op: BinOp, tag: Tag)
    ensures forall x, y :: Operate(op, CanonTag(tag), x, y) == Operate(op, tag, x, y)
  {
    hide Arithmetic, TextTest;
  }

  lemma CanonAccess(name: string, ty: set<Flag>)
    ensures forall v :: Access(v, name, if IsContainer(ty) then {OfArray} else {}) == Access(v, name, ty)
  {
    hide FieldOf;
  }

  lemma {:induction false} CanonEval(w: World, n: nat, mod: Option<string>, iter: Option<string>, e: Expr, regs: Registers)
    requires EmittableWorld(w) && Emittable(e) && !HasRange(e)
    ensures Emittable(Canon(e)) && Eval(w, n, mod, iter, Canon(e), regs) == Eval(w, n, mod, iter, e, regs)
    decreases e, 1
  {
    hide EvalRule, IndexOf, Match, Operate, OperateUnary, Access, ItemOf, Invoke;
    CanonShape(e);
    match e
    case Binary(op, l, r, tag) =>
      CanonOperate(op, tag);
      CanonEval(w, n, mod, iter, l, regs);
      RegistersKept(w, n, mod, iter, l, regs);
      if op != Matches { CanonEval(w, n, mod, iter, r, regs); } else { CanonShape(r); }
    case Unary(_, r) => CanonEval(w, n, mod, iter, r, regs);
    case Grouping(i) => CanonEval(w, n, mod, iter, i, regs);
    case Call(f, args) =>
      CanonEvalAll(w, n, mod, iter, args, regs);
      AllRegistersKept(w, n, mod, iter, args, regs);
      CanonEval(w, n, mod, iter, f, regs);
    case Field(o, name, ty) =>
      CanonAccess(name, ty);
      CanonEval(w, n, mod, iter, o, regs);
    case Index(a, i) =>
      CanonEval(w, n, mod, iter, a, regs);
      RegistersKept(w, n, mod, iter, a, regs);
      CanonEval(w, n, mod, iter, i, regs);
    case _ =>
  }

  lemma {:induction false} CanonEvalAll(w: World, n: nat, mod: Option<string>, iter: Option<string>, es: seq<Expr>, regs: Registers)
    requires EmittableWorld(w) && AllEmittable(es) && !AnyRange(es)
    ensures AllEmittable(CanonAll(es)) && EvalAll(w, n, mod, iter, CanonAll(es), regs) == EvalAll(w, n, mod, iter, es, regs)
    decreases es, 2
  {
    CanonAllShape(es);
    if es != [] {
      assert CanonAll(es)[1..] == CanonAll(es[1..]);
      CanonEvalAll(w, n, mod, iter, es[1..], regs);
      AllRegistersKept(w, n, mod, iter, es[1..], regs);
      CanonEval(w, n, mod, iter, es[0], regs);
    }
  }

  // ---------- soundness ----------

  /**
   * No fault, except undefined arithmetic, a zero divisor or a shift by exactly 32; and no meaning at all only
   * where an identifier has no code.
   */
  predicate Safe(v: Evaluated) {
    v.Lost? ==> v.reason == UndefinedArithmetic || v.reason == NoCode
  }

  predicate Numeric(regs: Registers) {
    regs.r0.Num? && regs.r1.Num? && regs.r2.Num? && regs.r3.Num?
  }

  /** A safe outcome whose value, if there is one, is of type `t`. */
  predicate Good(v: Evaluated, t: Tag) {
    Safe(v) && (v.Val? ==> KindOk(v.value, t) && Numeric(v.regs))
  }

  ghost predicate GoodReach(v: Value, r: Reach, x: Externals) {
    match r
    case Container(s) => v.Obj? && StructConforms(v.o, s, x)
    case Scalar(t) => KindOk(v, t)
    case Failed => true
  }

  ghost predicate GoodPath(v: Evaluated, r: Reach, x: Externals) {
    Safe(v) && (v.Val? ==> GoodReach(v.value, r, x) && Numeric(v.regs))
  }

  predicate GoodAll(v: EvaluatedAll, ts: seq<Tag>) {
    match v
    case Vals(vs, regs) => AllKinds(vs, ts) && Numeric(regs)
    case Failed(f) => Safe(f)
  }

  /**
   * The checker's scope and the run-time world fit: an event's module is the one the code is compiled under and
   * conforms to its declaration, the module compiled under, inherited or not, is no rule and no variable, every
   * rule name of this event leads to an earlier rule that is itself safe, and the only variable is the loop variable.
   */
  ghost predicate InScope(sc: Scope, w: World, n: nat, mod: Option<string>, iter: Option<string>) {
    && EmittableWorld(w)
    && (sc.mod.Some? <==> sc.event.Some?) && (sc.event.Some? ==> sc.event == mod)
    && (mod.Some? ==> mod.value in sc.env && sc.env[mod.value] == OtherName)
    && (sc.mod.Some? && mod.value in w.objects ==> StructConforms(w.objects[mod.value], sc.mod.value, w.externals))
    && (forall x <- sc.env :: sc.env[x].RuleName? && sc.env[x].event == sc.event && sc.self != Some(x) ==>
          iter != Some(x) && IndexOf(w.rules, x).Some? && IndexOf(w.rules, x).value < n &&
          Safe(EvalRule(w, IndexOf(w.rules, x).value)))
    && (forall x <- sc.env :: sc.env[x] == Variable ==> iter == Some(x))
  }

  /** A `for` brings its variable into scope, for the emitter already in the bounds, for the checker in the condition. */
  lemma EnterLoop(sc: Scope, w: World, n: nat, mod: Option<string>, x: string)
    requires InScope(sc, w, n, mod, None) && x !in sc.env
    ensures InScope(sc, w, n, mod, Some(x)) && InScope(sc.(env := sc.env[x := Variable]), w, n, mod, Some(x))
  {
  }

  lemma OperateGood(op: BinOp, t1: Tag, t2: Tag, x: Value, y: Value)
    requires op != Matches && OperationTag(op, t1, t2) != Eof && t2 != Regex && KindOk(x, t1) && KindOk(y, t2)
    ensures var c := Operate(op, t1, x, y);
            && (c.Crash? ==> c.reason == UndefinedArithmetic) && (c.Ok? ==> KindOk(c.value, OperationTag(op, t1, t2)))
  {
    hide Wrap, Words.BitAnd, Words.BitOr, Words.BitXor, ShiftLeft, ShiftRight, TextTest;
  }

  lemma UnaryGood(op: UnOp, t: Tag, x: Value)
    requires UnaryTag(op, t) != Eof && KindOk(x, t)
    ensures var c := OperateUnary(op, x); c.Ok? && KindOk(c.value, UnaryTag(op, t))
  {
  }

  lemma {:induction false} NoRegex(sc: Scope, e: Expr)
    requires Proper(sc, e)
    ensures Resolve(sc, e).tag != Regex && Resolve(sc, e).tag != Unset
    decreases e
  {
    match e
    case Binary(_, l, _, _) => NoRegex(sc, l);
    case Unary(_, r) => NoRegex(sc, r);
    case Grouping(i) => NoRegex(sc, i);
    case Call(_, _) => TraceTag(sc, e);
    case Field(_, _, _) => TraceTag(sc, e);
    case Index(_, _) => TraceTag(sc, e);
    case _ =>
  }

  lemma {:induction false} TraceTag(sc: Scope, e: Expr)
    ensures var r := Trace(sc, e).reach; r.Scalar? ==> r.tag == String || r.tag == Number || r.tag == True
    decreases e
  {
    match e
    case Field(o, _, _) => TraceTag(sc, o);
    case Index(a, _) => if a.Field? { TraceTag(sc, a.owner); }
    case _ =>
  }

  lemma {:induction false} Sound(sc: Scope, w: World, n: nat, mod: Option<string>, iter: Option<string>, e: Expr, regs: Registers)
    requires InScope(sc, w, n, mod, iter) && Proper(sc, e) && (iter.Some? ==> !HasRange(e)) && Numeric(regs)
    requires EmittableWorld(w) && Resolve(sc, e).tag != Eof
    ensures var c := Resolve(sc, e); Emittable(c.expr) && Good(Eval(w, n, mod, iter, c.expr, regs), c.tag)
    decreases e, 3, 0
  {
    hide InScope, StructConforms, FieldConforms, ValueConforms, EmittableWorld, EvalRule, IndexOf;
    hide Resolve, Proper, Eval;
    match e
    case Binary(_, _, _, _) => SoundBinary(sc, w, n, mod, iter, e, regs);
    case Unary(_, _) => SoundUnary(sc, w, n, mod, iter, e, regs);
    case Grouping(_) => SoundGrouping(sc, w, n, mod, iter, e, regs);
    case Lit(_) => SoundLiteral(sc, w, n, mod, iter, e, regs);
    case Range(_, _, _, _, _) => SoundRange(sc, w, n, mod, iter, e, regs);
    case Index(_, _) => SoundIndex(sc, w, n, mod, iter, e, regs);
    case Null => SoundNull(sc, e);
    case _ => SoundOnPath(sc, w, n, mod, iter, e, regs);
  }

  lemma SoundNull(sc: Scope, e: Expr)
    requires e.Null?
    ensures !Proper(sc, e)
  {
  }

  lemma {:induction false} SoundGrouping(sc: Scope, w: World, n: nat, mod: Option<string>, iter: Option<string>, e: Expr, regs: Registers)
    requires e.Grouping? && InScope(sc, w, n, mod, iter) && Proper(sc, e) && (iter.Some? ==> !HasRange(e)) && Numeric(regs)
    requires EmittableWorld(w) && Resolve(sc, e).tag != Eof
    ensures var c := Resolve(sc, e); Emittable(c.expr) && Good(Eval(w, n, mod, iter, c.expr, regs), c.tag)
    decreases e, 0, 0
  {
    hide InScope, StructConforms, FieldConforms, ValueConforms, EmittableWorld, EvalRule, IndexOf;
    Sound(sc, w, n, mod, iter, e.inner, regs);
  }

  lemma {:induction false} SoundUnary(sc: Scope, w: World, n: nat, mod: Option<string>, iter: Option<string>, e: Expr, regs: Registers)
    requires e.Unary? && InScope(sc, w, n, mod, iter) && Proper(sc, e) && (iter.Some? ==> !HasRange(e)) && Numeric(regs)
    requires EmittableWorld(w) && Resolve(sc, e).tag != Eof
    ensures var c := Resolve(sc, e); Emittable(c.expr) && Good(Eval(w, n, mod, iter, c.expr, regs), c.tag)
    decreases e, 0, 0
  {
    hide InScope, StructConforms, FieldConforms, ValueConforms, EmittableWorld, EvalRule, IndexOf;
    hide OperateUnary;
    Sound(sc, w, n, mod, iter, e.operand, regs);
    var c := Resolve(sc, e.operand);
    match Eval(w, n, mod, iter, c.expr, regs)
    case Val(x, _) => UnaryGood(e.unop, c.tag, x);
    case _ =>
  }

  /** Behind an annotated expression the emitter still knows the loop variable, since no `for` stands inside another. */
  lemma SameIter(sc: Scope, e: Expr, iter: Option<string>)
    requires iter.Some? ==> !HasRange(e)
    ensures IterAfter(Resolve(sc, e).expr, iter) == iter && IterAfter(Trace(sc, e).path, iter) == iter
  {
    ResolveShape(sc, e);
    TraceShape(sc, e);
  }

  lemma SameIterAll(sc: Scope, es: seq<Expr>, iter: Option<string>)
    requires (iter.Some? ==> !AnyRange(es)) && ResolveAll(sc, es).Some?
    ensures IterAfterAll(Exprs(ResolveAll(sc, es).value), iter) == iter
  {
    ArgumentsShape(sc, es);
  }

  lemma {:induction false} SoundBinary(sc: Scope, w: World, n: nat, mod: Option<string>, iter: Option<string>, e: Expr, regs: Registers)
    requires e.Binary? && InScope(sc, w, n, mod, iter) && Proper(sc, e) && (iter.Some? ==> !HasRange(e)) && Numeric(regs)
    requires EmittableWorld(w) && Resolve(sc, e).tag != Eof
    ensures var c := Resolve(sc, e); Emittable(c.expr) && Good(Eval(w, n, mod, iter, c.expr, regs), c.tag)
    decreases e, 1, 0
  {
    hide InScope, StructConforms, FieldConforms, ValueConforms, EmittableWorld, EvalRule, IndexOf;
    hide Operate, OperationTag;
    if e.op == Matches {
      SoundMatch(sc, w, e);
      Sound(sc, w, n, mod, iter, e.left, regs);
    } else {
      SoundOperands(sc, w, n, mod, iter, e, regs);
      SameIter(sc, e.left, iter);
      var c1, c2 := Resolve(sc, e.left), Resolve(sc, e.right);
      match Eval(w, n, mod, iter, c1.expr, regs)
      case Val(x, regs1) =>
        if e.op == And { AndGood(c1.tag, c2.tag, x); }
        match Eval(w, n, mod, iter, c2.expr, regs1) {
          case Val(y, _) => OperateGood(e.op, c1.tag, c2.tag, x, y);
          case _ =>
        }
      case _ =>
    }
  }

  lemma {:induction false} SoundOperands(sc: Scope, w: World, n: nat, mod: Option<string>, iter: Option<string>, e: Expr, regs: Registers)
    requires e.Binary? && InScope(sc, w, n, mod, iter) && Proper(sc, e) && (iter.Some? ==> !HasRange(e)) && Numeric(regs)
    requires EmittableWorld(w) && Resolve(sc, e).tag != Eof && e.op != Matches
    ensures var c1 := Resolve(sc, e.left); var c2 := Resolve(sc, e.right);
            && c1.tag != Eof && c2.tag != Eof && c2.tag != Regex && Emittable(c1.expr) && Emittable(c2.expr)
            && var v1 := Eval(w, n, mod, iter, c1.expr, regs);
            && Good(v1, c1.tag) && (v1.Val? ==> Good(Eval(w, n, mod, iter, c2.expr, v1.regs), c2.tag))
    decreases e, 0, 0
  {
    hide InScope, StructConforms, FieldConforms, ValueConforms, EmittableWorld, EvalRule, IndexOf;
    hide Eval, BinaryTag;
    Sound(sc, w, n, mod, iter, e.left, regs);
    NoRegex(sc, e.right);
    ResolveShape(sc, e.right);
    ProperEmittable(sc, e.right);
    match Eval(w, n, mod, iter, Resolve(sc, e.left).expr, regs)
    case Val(_, regs1) => Sound(sc, w, n, mod, iter, e.right, regs1);
    case _ =>
  }

  lemma AndGood(t1: Tag, t2: Tag, x: Value)
    requires OperationTag(And, t1, t2) != Eof && KindOk(x, t1)
    ensures x.Num? && KindOk(Truth(false), OperationTag(And, t1, t2))
  {
  }

  /** The right operand of `matches` is a regex, its left operand a string. */
  lemma SoundMatch(sc: Scope, w: World, e: Expr)
    requires e.Binary? && e.op == Matches && Proper(sc, e) && Resolve(sc, e).tag != Eof
    ensures var c := Resolve(sc, e);
            && c.tag == True && Resolve(sc, e.left).tag == String
            && c.expr == Binary(Matches, Resolve(sc, e.left).expr, Resolve(sc, e.right).expr, String)
            && IsRegex(Strip(c.expr.right))
    ensures forall x: Value, l: Literal :: x.Str? && l.Pattern? ==> Match(w.externals, x, l).Ok? && Match(w.externals, x, l).value.Num?
  {
    ResolveShape(sc, e.right);
  }

  lemma {:induction false} SoundLiteral(sc: Scope, w: World, n: nat, mod: Option<string>, iter: Option<string>, e: Expr, regs: Registers)
    requires e.Lit? && InScope(sc, w, n, mod, iter) && Proper(sc, e) && (iter.Some? ==> !HasRange(e)) && Numeric(regs)
    requires EmittableWorld(w) && Resolve(sc, e).tag != Eof
    ensures var c := Resolve(sc, e); Emittable(c.expr) && Good(Eval(w, n, mod, iter, c.expr, regs), c.tag)
    decreases e, 0, 0
  {
    hide StructConforms, EmittableWorld;
  }

  lemma {:induction false} SoundOnPath(sc: Scope, w: World, n: nat, mod: Option<string>, iter: Option<string>, e: Expr, regs: Registers)
    requires (e.Field? || e.Call?) && InScope(sc, w, n, mod, iter) && Proper(sc, e) && (iter.Some? ==> !HasRange(e)) && Numeric(regs)
    requires EmittableWorld(w) && Resolve(sc, e).tag != Eof
    ensures var c := Resolve(sc, e); Emittable(c.expr) && Good(Eval(w, n, mod, iter, c.expr, regs), c.tag)
    decreases e, 2, 0
  {
    hide InScope, StructConforms, FieldConforms, ValueConforms, EmittableWorld, EvalRule, IndexOf;
    hide Eval;
    SoundPath(sc, w, n, mod, iter, e, regs);
  }

  lemma {:induction false} SoundIndex(sc: Scope, w: World, n: nat, mod: Option<string>, iter: Option<string>, e: Expr, regs: Registers)
    requires e.Index? && InScope(sc, w, n, mod, iter) && Proper(sc, e) && (iter.Some? ==> !HasRange(e)) && Numeric(regs)
    requires EmittableWorld(w) && Resolve(sc, e).tag != Eof
    ensures var c := Resolve(sc, e); Emittable(c.expr) && Good(Eval(w, n, mod, iter, c.expr, regs), c.tag)
    decreases e, 0, 0
  {
    hide InScope, StructConforms, FieldConforms, ValueConforms, EmittableWorld, EvalRule, IndexOf;
    hide Eval;
    var t, c := Trace(sc, e.indexed.owner), Resolve(sc, e.index);
    ProperEmittable(sc, e.index);
    ResolveShape(sc, e.index);
    SoundPath(sc, w, n, mod, iter, e.indexed.owner, regs);
    match Eval(w, n, mod, iter, t.path, regs) {
      case Val(_, regs1) => Sound(sc, w, n, mod, iter, e.index, regs1);
      case _ =>
    }
    SameIter(sc, e.indexed.owner, iter);
    IndexedGood(w, n, mod, iter, t.path, e.indexed.fieldName, t.reach.schema, c.expr, regs);
  }

  lemma {:induction false} SoundPath(sc: Scope, w: World, n: nat, mod: Option<string>, iter: Option<string>, e: Expr, regs: Registers)
    requires InScope(sc, w, n, mod, iter) && ProperPath(sc, e) && (iter.Some? ==> !HasRange(e)) && Numeric(regs)
    requires EmittableWorld(w) && !Trace(sc, e).reach.Failed?
    ensures var t := Trace(sc, e); Emittable(t.path) && GoodPath(Eval(w, n, mod, iter, t.path, regs), t.reach, w.externals)
    decreases e, 1, 0
  {
    hide InScope, StructConforms, FieldConforms, ValueConforms, EmittableWorld, EvalRule, IndexOf;
    hide Eval, Trace, ProperPath;
    match e
    case Lit(_) => PathRoot(sc, w, n, mod, iter, e, regs);
    case Field(_, _, _) => PathField(sc, w, n, mod, iter, e, regs);
    case Index(_, _) => PathIndex(sc, w, n, mod, iter, e, regs);
    case Call(_, _) => PathCall(sc, w, n, mod, iter, e, regs);
    case _ => NoPath(sc, e);
  }

  lemma NoPath(sc: Scope, e: Expr)
    requires !e.Lit? && !e.Field? && !e.Index? && !e.Call?
    ensures !ProperPath(sc, e)
  {
  }

  lemma {:induction false} PathRoot(sc: Scope, w: World, n: nat, mod: Option<string>, iter: Option<string>, e: Expr, regs: Registers)
    requires e.Lit? && InScope(sc, w, n, mod, iter) && ProperPath(sc, e) && (iter.Some? ==> !HasRange(e)) && Numeric(regs)
    requires EmittableWorld(w) && !Trace(sc, e).reach.Failed?
    ensures var t := Trace(sc, e); Emittable(t.path) && GoodPath(Eval(w, n, mod, iter, t.path, regs), t.reach, w.externals)
    decreases e, 0, 0
  {
    hide StructConforms, EmittableWorld, EvalRule;
  }

  lemma {:induction false} PathField(sc: Scope, w: World, n: nat, mod: Option<string>, iter: Option<string>, e: Expr, regs: Registers)
    requires e.Field? && InScope(sc, w, n, mod, iter) && ProperPath(sc, e) && (iter.Some? ==> !HasRange(e)) && Numeric(regs)
    requires EmittableWorld(w) && !Trace(sc, e).reach.Failed?
    ensures var t := Trace(sc, e); Emittable(t.path) && GoodPath(Eval(w, n, mod, iter, t.path, regs), t.reach, w.externals)
    decreases e, 0, 0
  {
    hide InScope, StructConforms, FieldConforms, ValueConforms, EmittableWorld, EvalRule, IndexOf;
    hide Access;
    SoundPath(sc, w, n, mod, iter, e.owner, regs);
    var t := Trace(sc, e.owner);
    match Eval(w, n, mod, iter, t.path, regs)
    case Val(v, _) => AccessGood(v, e.fieldName, t.reach.schema, w.externals);
    case _ =>
  }

  /** Reading a plain field of a conforming struct gives a value of the declared type. */
  lemma AccessGood(v: Value, name: string, s: Schema, x: Externals)
    requires v.Obj? && StructConforms(v.o, s, x) && name in s.fields
    requires IsContainer(s.fields[name].flags) || ScalarTag(s.fields[name].flags) != Eof
    ensures var f := s.fields[name]; var c := Access(v, name, f.flags);
            && c.Ok?
            && (IsContainer(f.flags) ==> c.value.Obj? && FieldConforms(c.value.o, f, x))
            && (!IsContainer(f.flags) && ScalarTag(f.flags) != Eof ==> KindOk(c.value, ScalarTag(f.flags)))
  {
    assert FieldConforms(v.o.fields[name], s.fields[name], x);
  }

  lemma {:induction false} PathIndex(sc: Scope, w: World, n: nat, mod: Option<string>, iter: Option<string>, e: Expr, regs: Registers)
    requires e.Index? && InScope(sc, w, n, mod, iter) && ProperPath(sc, e) && (iter.Some? ==> !HasRange(e)) && Numeric(regs)
    requires EmittableWorld(w) && !Trace(sc, e).reach.Failed?
    ensures var t := Trace(sc, e); Emittable(t.path) && GoodPath(Eval(w, n, mod, iter, t.path, regs), t.reach, w.externals)
    decreases e, 0, 0
  {
    hide InScope, StructConforms, FieldConforms, ValueConforms, EmittableWorld, EvalRule, IndexOf;
    hide Eval;
    var t := Trace(sc, e.indexed.owner);
    ProperEmittable(sc, e.index);
    SoundPath(sc, w, n, mod, iter, e.indexed.owner, regs);
    match Eval(w, n, mod, iter, t.path, regs) {
      case Val(_, regs1) => BareIndexGood(sc, w, n, mod, iter, e.index, regs1);
      case _ =>
    }
    SameIter(sc, e.indexed.owner, iter);
    IndexedGood(w, n, mod, iter, t.path, e.indexed.fieldName, t.reach.schema, e.index, regs);
  }

  /** An index the checker passed over is as good as its annotated form. */
  lemma {:induction false} BareIndexGood(sc: Scope, w: World, n: nat, mod: Option<string>, iter: Option<string>, i: Expr, regs: Registers)
    requires InScope(sc, w, n, mod, iter) && Proper(sc, i) && !HasRange(i) && Numeric(regs) && EmittableWorld(w)
    requires Resolve(sc, i).tag == Number && Canon(Resolve(sc, i).expr) == Canon(i)
    ensures Emittable(i) && Good(Eval(w, n, mod, iter, i, regs), Number)
    decreases i, 4, 0
  {
    hide InScope, StructConforms, FieldConforms, ValueConforms, EmittableWorld, EvalRule, IndexOf;
    hide Eval, Resolve, Proper, Canon;
    var i' := Resolve(sc, i).expr;
    ProperEmittable(sc, i);
    ResolveShape(sc, i);
    Sound(sc, w, n, mod, iter, i, regs);
    CanonEval(w, n, mod, iter, i, regs);
    CanonEval(w, n, mod, iter, i', regs);
  }

  /** Indexing an array field of a conforming struct. */
  lemma IndexedGood(w: World, n: nat, mod: Option<string>, iter: Option<string>, o: Expr, name: string, s: Schema, i: Expr, regs: Registers)
    requires EmittableWorld(w) && Emittable(o) && Emittable(i) && GoodPath(Eval(w, n, mod, iter, o, regs), Container(s), w.externals)
    requires var v := Eval(w, n, mod, iter, o, regs); v.Val? ==> Good(Eval(w, n, mod, iter, i, v.regs), Number)
    requires name in s.fields && OfArray in s.fields[name].flags && !Enter(s.fields[name]).Failed?
    requires IterAfter(o, iter) == iter
    ensures var f := s.fields[name];
            GoodPath(Eval(w, n, mod, iter, Index(Field(o, name, f.flags), i), regs), Enter(f), w.externals)
  {
    hide StructConforms, FieldConforms, ValueConforms, EmittableWorld, Access, ItemOf;
    var f := s.fields[name];
    match Eval(w, n, mod, iter, o, regs)
    case Val(v, regs1) =>
      AccessGood(v, name, s, w.externals);
      var a := Access(v, name, f.flags).value;
      match Eval(w, n, mod, iter, i, regs1) {
        case Val(k, _) => ItemGood(a, k, f, w.externals);
        case _ =>
      }
    case _ =>
  }

  lemma ItemGood(a: Value, k: Value, f: Schema, x: Externals)
    requires a.Obj? && FieldConforms(a.o, f, x) && k.Num? && OfArray in f.flags && !Enter(f).Failed?
    ensures var c := ItemOf(a, k); !c.Crash? && (c.Ok? ==> GoodReach(c.value, Enter(f), x))
  {
    hide StructConforms;
    if ItemOf(a, k).Ok? {
      assert ValueConforms(a.o.payload.items[k.w], f, x);
    }
  }

  lemma {:induction false} PathCall(sc: Scope, w: World, n: nat, mod: Option<string>, iter: Option<string>, e: Expr, regs: Registers)
    requires e.Call? && InScope(sc, w, n, mod, iter) && ProperPath(sc, e) && (iter.Some? ==> !HasRange(e)) && Numeric(regs)
    requires EmittableWorld(w) && !Trace(sc, e).reach.Failed?
    ensures var t := Trace(sc, e); Emittable(t.path) && GoodPath(Eval(w, n, mod, iter, t.path, regs), t.reach, w.externals)
    decreases e, 0, 0
  {
    hide InScope, StructConforms, FieldConforms, ValueConforms, EmittableWorld, EvalRule, IndexOf;
    hide Invoke, Access, IterAfterAll, AnyRange, AllEmittable;
    SameIterAll(sc, e.arguments, iter);
    var t, given := Trace(sc, e.callee.owner), ResolveAll(sc, e.arguments).value;
    SoundArguments(sc, w, n, mod, iter, e.arguments, regs);
    match EvalAll(w, n, mod, iter, Exprs(given), regs)
    case Vals(vs, regs1) =>
      PathRoot(sc, w, n, mod, iter, e.callee.owner, regs1);
      match Eval(w, n, mod, iter, t.path, regs1) {
        case Val(v, _) =>
          AccessGood(v, e.callee.fieldName, t.reach.schema, w.externals);
          InvokeGood(Access(v, e.callee.fieldName, t.reach.schema.fields[e.callee.fieldName].flags).value, vs,
                     t.reach.schema.fields[e.callee.fieldName], w.externals);
        case _ =>
      }
    case Failed(_) => PathRoot(sc, w, n, mod, iter, e.callee.owner, regs);
  }

  lemma InvokeGood(callee: Value, vs: seq<Value>, f: Schema, x: Externals)
    requires callee.Obj? && FieldConforms(callee.o, f, x) && OfFunction in f.flags && AllKinds(vs, f.params) && !Enter(f).Failed?
    ensures var c := Invoke(x, callee, vs); !c.Crash? && (c.Ok? ==> GoodReach(c.value, Enter(f), x))
  {
    hide StructConforms;
  }

  /** The first argument and the others. */
  lemma ArgumentsParts(sc: Scope, es: seq<Expr>)
    requires AllProper(sc, es) && ResolveAll(sc, es).Some? && es != []
    ensures var cs := ResolveAll(sc, es).value; var c := Resolve(sc, es[0]);
            && cs[0] == Checked(ArgumentTag(c.tag), c.expr) && c.tag != Eof && Proper(sc, es[0])
            && AllProper(sc, es[1..]) && ResolveAll(sc, es[1..]) == Some(cs[1..])
            && Exprs(cs) == [c.expr] + Exprs(cs[1..]) && Exprs(cs)[1..] == Exprs(cs[1..])
            && Tags(cs) == [ArgumentTag(c.tag)] + Tags(cs[1..]) && Tags(cs)[1..] == Tags(cs[1..])
            && (!AnyRange(es) ==> !HasRange(es[0]) && !AnyRange(es[1..]))
            && (AllEmittable(Exprs(cs)) ==> Emittable(c.expr) && AllEmittable(Exprs(cs[1..])))
  {
    hide Resolve, Proper, Exprs, Tags, AllEmittable;
    var cs, c := ResolveAll(sc, es).value, Resolve(sc, es[0]);
    assert cs == [Checked(ArgumentTag(c.tag), c.expr)] + ResolveAll(sc, es[1..]).value;
    ArgumentLists(Checked(ArgumentTag(c.tag), c.expr), cs[1..]);
  }

  lemma ArgumentLists(c: Checked, cs: seq<Checked>)
    ensures var all := [c] + cs;
            && Exprs(all) == [c.expr] + Exprs(cs) && Exprs(all)[1..] == Exprs(cs)
            && Tags(all) == [c.tag] + Tags(cs) && Tags(all)[1..] == Tags(cs)
            && (AllEmittable(Exprs(all)) ==> Emittable(c.expr) && AllEmittable(Exprs(cs)))
  {
    hide Emittable;
    var all := [c] + cs;
    assert Exprs(all)[1..] == Exprs(cs) && Tags(all)[1..] == Tags(cs);
  }

  /** One argument more, evaluated after the others. */
  lemma ArgumentsGood(w: World, n: nat, mod: Option<string>, iter: Option<string>, e: Expr, t: Tag, es: seq<Expr>, ts: seq<Tag>, regs: Registers)
    requires EmittableWorld(w) && Emittable(e) && AllEmittable(es) && IterAfterAll(es, iter) == iter
    requires GoodAll(EvalAll(w, n, mod, iter, es, regs), ts)
    requires var r := EvalAll(w, n, mod, iter, es, regs); r.Vals? ==> Good(Eval(w, n, mod, iter, e, r.registers), t)
    ensures AllEmittable([e] + es) && GoodAll(EvalAll(w, n, mod, iter, [e] + es, regs), [ArgumentTag(t)] + ts)
  {
    hide Eval;
    assert ([e] + es)[1..] == es;
  }

  lemma GoodRegisters(v: EvaluatedAll, ts: seq<Tag>)
    requires GoodAll(v, ts)
    ensures v.Vals? ==> Numeric(v.registers)
  {
  }

  lemma NoArguments(w: World, n: nat, mod: Option<string>, iter: Option<string>, regs: Registers)
    requires EmittableWorld(w) && Numeric(regs)
    ensures AllEmittable([]) && GoodAll(EvalAll(w, n, mod, iter, [], regs), [])
  {
  }

  lemma {:induction false} SoundArguments(sc: Scope, w: World, n: nat, mod: Option<string>, iter: Option<string>, es: seq<Expr>, regs: Registers)
    requires InScope(sc, w, n, mod, iter) && AllProper(sc, es) && (iter.Some? ==> !AnyRange(es)) && Numeric(regs)
    requires EmittableWorld(w) && ResolveAll(sc, es).Some?
    ensures var cs := ResolveAll(sc, es).value;
            AllEmittable(Exprs(cs)) && GoodAll(EvalAll(w, n, mod, iter, Exprs(cs), regs), Tags(cs))
    decreases es, 4, 0
  {
    hide InScope, StructConforms, FieldConforms, ValueConforms, EmittableWorld, EvalRule, IndexOf;
    hide Eval, EvalAll, Resolve, Proper, GoodAll;
    hide ResolveAll, AllEmittable, AnyRange, AllProper;
    NoArguments(w, n, mod, iter, regs);
    ArgumentsEmittable(sc, es);
    ArgumentsShape(sc, es);
    if es != [] {
      ArgumentsParts(sc, es);
      var cs := ResolveAll(sc, es).value;
      SoundArguments(sc, w, n, mod, iter, es[1..], regs);
      SameIterAll(sc, es[1..], iter);
      ProperEmittable(sc, es[0]);
      var c := Resolve(sc, es[0]);
      GoodRegisters(EvalAll(w, n, mod, iter, Exprs(cs[1..]), regs), Tags(cs[1..]));
      match EvalAll(w, n, mod, iter, Exprs(cs[1..]), regs) {
        case Vals(_, regs1) => Sound(sc, w, n, mod, iter, es[0], regs1);
        case _ =>
      }
      ResolveShape(sc, es[0]);
      ArgumentsGood(w, n, mod, iter, c.expr, c.tag, Exprs(cs[1..]), Tags(cs[1..]), regs);
    }
  }

  lemma {:induction false} SoundRange(sc: Scope, w: World, n: nat, mod: Option<string>, iter: Option<string>, e: Expr, regs: Registers)
    requires e.Range? && InScope(sc, w, n, mod, iter) && Proper(sc, e) && (iter.Some? ==> !HasRange(e)) && Numeric(regs)
    requires EmittableWorld(w) && Resolve(sc, e).tag != Eof
    ensures var c := Resolve(sc, e); Emittable(c.expr) && Good(Eval(w, n, mod, iter, c.expr, regs), c.tag)
    decreases e, 0, 0
  {
    hide InScope, StructConforms, FieldConforms, ValueConforms, EmittableWorld, EvalRule, IndexOf;
    hide Loop, IterAfter;
    var x := Some(e.ivar);
    assert iter == None;
    SameIter(sc, e.end, x);
    SameIter(sc, e.start, x);
    EnterLoop(sc, w, n, mod, e.ivar);
    var c1, c2 := Resolve(sc, e.start), Resolve(sc, e.end);
    var inner := sc.(env := sc.env[e.ivar := Variable]);
    var c3 := Resolve(inner, e.condition);
    ProperEmittable(sc, e);
    ResolveShape(sc, e);
    Sound(sc, w, n, mod, x, e.end, regs);
    match Eval(w, n, mod, x, c2.expr, regs)
    case Val(last, regs1) =>
      Sound(sc, w, n, mod, x, e.start, regs1);
      match Eval(w, n, mod, x, c1.expr, regs1) {
        case Val(first, regs2) =>
          SoundLoop(inner, w, n, mod, e.ivar, e.quantifier, e.condition, regs2.(r0 := first, r1 := last), w.rounds);
        case _ =>
      }
    case _ =>
  }

  lemma {:induction false} SoundLoop(sc: Scope, w: World, n: nat, mod: Option<string>, x: string, q: Quantifier, c: Expr, regs: Registers, rounds: nat)
    requires InScope(sc, w, n, mod, Some(x)) && Proper(sc, c) && !HasRange(c) && Numeric(regs)
    requires EmittableWorld(w) && IsBoolean(Resolve(sc, c).tag) && Emittable(Resolve(sc, c).expr)
    ensures Good(Loop(w, n, mod, Some(x), q, Resolve(sc, c).expr, regs, rounds), True)
    decreases c, 4, Remaining(regs)
  {
    hide InScope, StructConforms, FieldConforms, ValueConforms, EmittableWorld, EvalRule, IndexOf;
    hide Eval, Resolve, Proper;
    var c' := Resolve(sc, c).expr;
    ResolveShape(sc, c);
    if regs.r0.w < regs.r1.w {
      RegistersKept(w, n, mod, Some(x), c', regs);
      Sound(sc, w, n, mod, Some(x), c, regs);
      match Eval(w, n, mod, Some(x), c', regs)
      case Val(v, _) =>
        if Decide(q, v, regs).None? {
          SoundLoop(sc, w, n, mod, x, q, c, Advance(q, v, regs), rounds);
        }
      case _ =>
    }
  }
}
