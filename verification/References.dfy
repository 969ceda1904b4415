/**
 * Which rules a rule refers to, and when all of them were compiled under a module name.  An identifier that
 * the emitter meets before it has one leaves no code, and the rule has no meaning then.
 */
module References {
  import opened Words
  import opened Wrappers
  import opened Ast
  import opened Machine
  import opened Semantics

  // ---------- names in a body ----------

  /** An identifier occurs, as a module, a rule or a loop variable. */
  predicate HasName(e: Expr) {
    match e
    case Binary(_, l, r, _) => HasName(l) || HasName(r)
    case Unary(_, r) => HasName(r)
    case Grouping(i) => HasName(i)
    case Lit(l) => l.Identifier?
    case Call(f, args) => HasName(f) || AnyName(args)
    case Field(o, _, _) => HasName(o)
    case Index(a, i) => HasName(a) || HasName(i)
    case Range(_, _, s, t, c) => HasName(s) || HasName(t) || HasName(c)
    case Null => false
  }

  predicate AnyName(es: seq<Expr>) {
    es != [] && (HasName(es[0]) || AnyName(es[1..]))
  }

  /** The identifiers that are not the loop variable the emitter knows where they stand. */
  function Mentioned(e: Expr, iter: Option<string>): set<string> {
    match e
    case Binary(_, l, r, _) => Mentioned(l, iter) + Mentioned(r, IterAfter(l, iter))
    case Unary(_, r) => Mentioned(r, iter)
    case Grouping(i) => Mentioned(i, iter)
    case Lit(l) => if l.Identifier? && iter != Some(l.name) then {l.name} else {}
    case Call(f, args) => MentionedAll(args, iter) + Mentioned(f, IterAfterAll(args, iter))
    case Field(o, _, _) => Mentioned(o, iter)
    case Index(a, i) => Mentioned(a, iter) + Mentioned(i, IterAfter(a, iter))
    case Range(_, x, s, t, c) =>
      var i1 := IterAfter(t, Some(x));
      Mentioned(t, Some(x)) + Mentioned(s, i1) + Mentioned(c, IterAfter(s, i1))
    case Null => {}
  }

  function MentionedAll(es: seq<Expr>, iter: Option<string>): set<string> {
    if es == [] then {} else MentionedAll(es[1..], iter) + Mentioned(es[0], IterAfterAll(es[1..], iter))
  }

  /**
   * Rule `j` and all rules reached from it have code for their identifiers: each was compiled under a module
   * name, or has none.
   */
  predicate Rooted(rules: seq<Rule>, j: nat)
    requires j < |rules|
    decreases j
  {
    var r := rules[j];
    if r.event.None? then !HasName(r.body)
    else
      forall x <- Mentioned(r.body, None) :: r.event != Some(x) ==>
        var i := IndexOf(rules, x); i.Some? && i.value < j ==> Rooted(rules, i.value)
  }

  // ---------- rooted rules have a meaning ----------

  predicate HasMeaning(v: Evaluated) {
    v != Lost(NoCode)
  }

  /** A reference to `x` from rule `n` leads to a rule with a meaning, if to an earlier one at all. */
  ghost predicate Leads(w: World, n: nat, x: string)
    requires EmittableWorld(w)
  {
    var i := IndexOf(w.rules, x); i.Some? && i.value < n ==> HasMeaning(EvalRule(w, i.value))
  }

  ghost predicate AllLead(w: World, n: nat, mod: Option<string>, names: set<string>)
    requires EmittableWorld(w)
  {
    forall x <- names :: mod != Some(x) ==> Leads(w, n, x)
  }

  lemma OperationsMean(x: Value, y: Value, regs: Registers)
    ensures forall op, tag :: HasMeaning(FromComputed(Operate(op, tag, x, y), regs))
    ensures forall op :: HasMeaning(FromComputed(OperateUnary(op, x), regs))
    ensures forall name, ty :: HasMeaning(FromComputed(Access(x, name, ty), regs))
    ensures HasMeaning(FromComputed(ItemOf(x, y), regs))
  {
    hide Wrap, Words.BitAnd, Words.BitOr, Words.BitXor, ShiftLeft, ShiftRight, TextTest;
  }

  lemma CallsMean(x: Externals, callee: Value, vs: seq<Value>, regs: Registers)
    ensures HasMeaning(FromComputed(Invoke(x, callee, vs), regs))
  {
  }

  lemma {:induction false} Coded(w: World, n: nat, mod: Option<string>, iter: Option<string>, e: Expr, regs: Registers)
    requires EmittableWorld(w) && Emittable(e) && (mod.None? ==> !HasName(e)) && AllLead(w, n, mod, Mentioned(e, iter))
    ensures HasMeaning(Eval(w, n, mod, iter, e, regs))
    decreases e, 1
  {
    hide EvalRule, IndexOf, Operate, OperateUnary, Match, Access, ItemOf, Invoke, Leads, Loop;
    match e
    case Binary(op, l, r, _) =>
      Coded(w, n, mod, iter, l, regs);
      match Eval(w, n, mod, iter, l, regs) {
        case Val(x, regs1) =>
          if op != Matches {
            Coded(w, n, mod, IterAfter(l, iter), r, regs1);
            match Eval(w, n, mod, IterAfter(l, iter), r, regs1)
            case Val(y, regs2) => OperationsMean(x, y, regs2);
            case _ =>
          } else {
            MatchMeans(w.externals, x, Strip(r).literal, regs1);
          }
        case _ =>
      }
    case Unary(_, r) =>
      Coded(w, n, mod, iter, r, regs);
      match Eval(w, n, mod, iter, r, regs) {
        case Val(x, regs1) => OperationsMean(x, x, regs1);
        case _ =>
      }
    case Grouping(i) => Coded(w, n, mod, iter, i, regs);
    case Lit(l) => LiteralCoded(w, n, mod, iter, l, regs);
    case Call(f, args) =>
      AllCoded(w, n, mod, iter, args, regs);
      match EvalAll(w, n, mod, iter, args, regs) {
        case Vals(vs, regs1) =>
          Coded(w, n, mod, IterAfterAll(args, iter), f, regs1);
          match Eval(w, n, mod, IterAfterAll(args, iter), f, regs1) {
            case Val(c, regs2) => CallsMean(w.externals, c, vs, regs2);
            case _ =>
          }
        case _ =>
      }
    case Field(o, _, _) =>
      Coded(w, n, mod, iter, o, regs);
      match Eval(w, n, mod, iter, o, regs) {
        case Val(x, regs1) => OperationsMean(x, x, regs1);
        case _ =>
      }
    case Index(a, i) =>
      Coded(w, n, mod, iter, a, regs);
      match Eval(w, n, mod, iter, a, regs) {
        case Val(x, regs1) =>
          Coded(w, n, mod, IterAfter(a, iter), i, regs1);
          match Eval(w, n, mod, IterAfter(a, iter), i, regs1) {
            case Val(y, regs2) => OperationsMean(x, y, regs2);
            case _ =>
          }
        case _ =>
      }
    case Range(q, x, s, t, c) =>
      var i1 := IterAfter(t, Some(x));
      Coded(w, n, mod, Some(x), t, regs);
      match Eval(w, n, mod, Some(x), t, regs) {
        case Val(last, regs1) =>
          Coded(w, n, mod, i1, s, regs1);
          match Eval(w, n, mod, i1, s, regs1) {
            case Val(first, regs2) => LoopCoded(w, n, mod, IterAfter(s, i1), q, c, regs2.(r0 := first, r1 := last), w.rounds);
            case _ =>
          }
        case _ =>
      }
  }

  lemma MatchMeans(x: Externals, v: Value, l: Literal, regs: Registers)
    requires l.Pattern?
    ensures HasMeaning(FromComputed(Match(x, v, l), regs))
  {
  }

  lemma LiteralCoded(w: World, n: nat, mod: Option<string>, iter: Option<string>, l: Literal, regs: Registers)
    requires EmittableWorld(w) && (l.Identifier? ==> mod.Some? && (mod != Some(l.name) && iter != Some(l.name) ==> Leads(w, n, l.name)))
    ensures HasMeaning(EvalLiteral(w, n, mod, iter, l, regs))
  {
    hide EvalRule, IndexOf;
  }

  lemma {:induction false} AllCoded(w: World, n: nat, mod: Option<string>, iter: Option<string>, es: seq<Expr>, regs: Registers)
    requires EmittableWorld(w) && AllEmittable(es) && (mod.None? ==> !AnyName(es)) && AllLead(w, n, mod, MentionedAll(es, iter))
    ensures var r := EvalAll(w, n, mod, iter, es, regs); r.Failed? ==> HasMeaning(r.failure)
    decreases es, 1
  {
    hide Eval, Leads;
    if es != [] {
      AllCoded(w, n, mod, iter, es[1..], regs);
      match EvalAll(w, n, mod, iter, es[1..], regs)
      case Vals(_, regs1) => Coded(w, n, mod, IterAfterAll(es[1..], iter), es[0], regs1);
      case _ =>
    }
  }

  lemma DecidedMeans(q: Quantifier, v: Value, regs: Registers)
    ensures var d := Decide(q, v, regs);
            if d.Some? then HasMeaning(d.value) else v.Num? && (q.AtLeast? && v.w != 0 ==> regs.r3.Num?)
  {
  }

  lemma {:induction false} LoopCoded(w: World, n: nat, mod: Option<string>, iter: Option<string>, q: Quantifier, c: Expr, regs: Registers, k: nat)
    requires EmittableWorld(w) && Emittable(c) && (mod.None? ==> !HasName(c)) && AllLead(w, n, mod, Mentioned(c, iter))
    ensures HasMeaning(Loop(w, n, mod, iter, q, c, regs, k))
    decreases c, 2, k, Remaining(regs)
  {
    hide Eval, Leads, Decide, Advance;
    if regs.r0.Num? && regs.r1.Num? && regs.r0.w < regs.r1.w {
      Coded(w, n, mod, iter, c, regs);
      match Eval(w, n, mod, iter, c, regs)
      case Val(v, regs1) =>
        DecidedMeans(q, v, regs1);
        if Decide(q, v, regs1).None? && regs1.r0.Num? {
          var next := Advance(q, v, regs1);
          if Remaining(next) < Remaining(regs) {
            LoopCoded(w, n, mod, iter, q, c, next, k);
          } else if k > 0 {
            LoopCoded(w, n, mod, iter, q, c, next, k - 1);
          }
        }
      case _ =>
    }
  }

  /** Every rooted rule has a meaning, whatever the modules hold. */
  lemma {:induction false} RootedMeans(w: World, j: nat)
    requires EmittableWorld(w) && j < |w.rules| && Rooted(w.rules, j)
    ensures HasMeaning(EvalRule(w, j))
    decreases j
  {
    hide Eval, IndexOf, Mentioned;
    var r := w.rules[j];
    forall x <- Mentioned(r.body, None) | r.event != Some(x) ensures Leads(w, j, x) {
      var i := IndexOf(w.rules, x);
      if i.Some? && i.value < j && r.event.Some? {
        RootedMeans(w, i.value);
      } else if r.event.None? {
        NamelessMentions(r.body, None);
      }
    }
    Coded(w, j, r.event, None, r.body, ZERO);
  }

  lemma {:induction false} NamelessMentions(e: Expr, iter: Option<string>)
    requires !HasName(e)
    ensures Mentioned(e, iter) == {}
    decreases e, 1
  {
    match e
    case Binary(_, l, r, _) => NamelessMentions(l, iter); NamelessMentions(r, IterAfter(l, iter));
    case Unary(_, r) => NamelessMentions(r, iter);
    case Grouping(i) => NamelessMentions(i, iter);
    case Call(f, args) => AllNameless(args, iter); NamelessMentions(f, IterAfterAll(args, iter));
    case Field(o, _, _) => NamelessMentions(o, iter);
    case Index(a, i) => NamelessMentions(a, iter); NamelessMentions(i, IterAfter(a, iter));
    case Range(_, x, s, t, c) =>
      var i1 := IterAfter(t, Some(x));
      NamelessMentions(t, Some(x));
      NamelessMentions(s, i1);
      NamelessMentions(c, IterAfter(s, i1));
    case _ =>
  }

  lemma {:induction false} AllNameless(es: seq<Expr>, iter: Option<string>)
    requires !AnyName(es)
    ensures MentionedAll(es, iter) == {}
    decreases es, 1
  {
    if es != [] {
      AllNameless(es[1..], iter);
      NamelessMentions(es[0], IterAfterAll(es[1..], iter));
    }
  }
}
