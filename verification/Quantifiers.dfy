/** What `for all`, `for any` and `for N` mean, derived from the evaluator. */
module Quantifiers {
  import opened Words
  import opened Wrappers
  import opened Ast
  import opened Machine
  import opened Semantics

  /** The surroundings of one `for`: its loop variable and its condition, in rule `n` of event `mod`. */
  datatype Site = Site(w: World, n: nat, mod: Option<string>, ivar: string, condition: Expr)

  ghost predicate ValidSite(f: Site) {
    EmittableWorld(f.w) && Emittable(f.condition) && !HasRange(f.condition)
  }

  /** The condition at loop index `i`. */
  function ConditionAt(f: Site, i: word): Evaluated
    requires ValidSite(f)
  {
    Eval(f.w, f.n, f.mod, Some(f.ivar), f.condition, ZERO.(r0 := Num(i)))
  }

  predicate IsTrue(v: Evaluated) {
    v.Val? && v.value.Num? && v.value.w != 0
  }

  predicate IsFalse(v: Evaluated) {
    v.Val? && v.value.Num? && v.value.w == 0
  }

  ghost predicate Holds(f: Site, i: word)
    requires ValidSite(f)
  {
    IsTrue(ConditionAt(f, i))
  }

  /** Every condition of the range has a truth value. */
  ghost predicate Decided(f: Site, first: word, last: word)
    requires ValidSite(f)
  {
    forall i: word :: first <= i < last ==> Holds(f, i) || IsFalse(ConditionAt(f, i))
  }

  /** How many conditions hold from `first` up to and excluding `last`. */
  ghost function Count(f: Site, first: word, last: word): (c: nat)
    requires ValidSite(f)
    ensures first <= last ==> c <= last - first
    decreases last - first
  {
    if first >= last then 0 else (if Holds(f, first) then 1 else 0) + Count(f, first + 1, last)
  }

  // ---------- the condition sees only the loop variable ----------

  /** Equal but for the registers that come with a value. */
  predicate SameOutcome(v: Evaluated, u: Evaluated) {
    match v
    case Val(x, _) => u.Val? && u.value == x
    case _ => u == v
  }

  lemma ComputedSame()
    ensures forall c, a, b :: SameOutcome(FromComputed(c, a), FromComputed(c, b))
  {
  }

  lemma {:induction false} OnlyCounterMatters(w: World, n: nat, mod: Option<string>, iter: Option<string>, e: Expr, regs: Registers, regs': Registers)
    requires EmittableWorld(w) && Emittable(e) && !HasRange(e) && regs.r0 == regs'.r0
    ensures SameOutcome(Eval(w, n, mod, iter, e, regs), Eval(w, n, mod, iter, e, regs'))
    decreases e, 1
  {
    hide EvalRule, IndexOf, Operate, OperateUnary, Match, Access, ItemOf, Invoke, FromComputed;
    ComputedSame();
    match e
    case Binary(op, l, r, _) =>
      OnlyCounterMatters(w, n, mod, iter, l, regs, regs');
      RegistersKept(w, n, mod, iter, l, regs);
      RegistersKept(w, n, mod, iter, l, regs');
      if op != Matches { OnlyCounterMatters(w, n, mod, iter, r, regs, regs'); }
    case Unary(_, r) => OnlyCounterMatters(w, n, mod, iter, r, regs, regs');
    case Grouping(i) => OnlyCounterMatters(w, n, mod, iter, i, regs, regs');
    case Call(g, args) =>
      OnlyCounterMattersAll(w, n, mod, iter, args, regs, regs');
      AllRegistersKept(w, n, mod, iter, args, regs);
      AllRegistersKept(w, n, mod, iter, args, regs');
      OnlyCounterMatters(w, n, mod, iter, g, regs, regs');
    case Field(o, _, _) => OnlyCounterMatters(w, n, mod, iter, o, regs, regs');
    case Index(a, i) =>
      OnlyCounterMatters(w, n, mod, iter, a, regs, regs');
      RegistersKept(w, n, mod, iter, a, regs);
      RegistersKept(w, n, mod, iter, a, regs');
      OnlyCounterMatters(w, n, mod, iter, i, regs, regs');
    case _ =>
  }

  lemma {:induction false} OnlyCounterMattersAll(w: World, n: nat, mod: Option<string>, iter: Option<string>, es: seq<Expr>, regs: Registers, regs': Registers)
    requires EmittableWorld(w) && AllEmittable(es) && !AnyRange(es) && regs.r0 == regs'.r0
    ensures var a := EvalAll(w, n, mod, iter, es, regs); var b := EvalAll(w, n, mod, iter, es, regs');
            && (a.Vals? ==> b.Vals? && b.values == a.values)
            && (a.Failed? ==> b == a)
    decreases es, 1
  {
    if es == [] {
    } else {
      OnlyCounterMattersAll(w, n, mod, iter, es[1..], regs, regs');
      AllRegistersKept(w, n, mod, iter, es[1..], regs);
      AllRegistersKept(w, n, mod, iter, es[1..], regs');
      OnlyCounterMatters(w, n, mod, iter, es[0], regs, regs');
    }
  }

  // ---------- the loop, in terms of the conditions ----------

  function LoopOf(f: Site, q: Quantifier, regs: Registers): Evaluated
    requires EmittableWorld(f.w) && Emittable(f.condition)
  {
    Loop(f.w, f.n, f.mod, Some(f.ivar), q, f.condition, regs, f.w.rounds)
  }

  /** The registers at the head of the loop: index, end, last condition value and number of matches. */
  function LoopRegisters(i: word, last: word, latest: Value, matches: word): Registers {
    Registers(Num(i), Num(last), latest, Num(matches))
  }

  /** One round, in terms of the condition at the current index. */
  lemma Round(f: Site, q: Quantifier, i: word, last: word, latest: Value, matches: word)
    requires ValidSite(f) && i < last
    ensures var regs := LoopRegisters(i, last, latest, matches);
            match ConditionAt(f, i)
            case Val(v, _) =>
              LoopOf(f, q, regs) ==
                (match Decide(q, v, regs)
                 case Some(r) => r
                 case None =>
                   var matches' := if q.AtLeast? && v.Num? && v.w != 0 then Wrap(matches + 1) else matches;
                   LoopOf(f, q, LoopRegisters(i + 1, last, v, matches')))
            case failed => LoopOf(f, q, regs) == failed
  {
    var regs := LoopRegisters(i, last, latest, matches);
    OnlyCounterMatters(f.w, f.n, f.mod, Some(f.ivar), f.condition, ZERO.(r0 := Num(i)), regs);
    RegistersKept(f.w, f.n, f.mod, Some(f.ivar), f.condition, regs);
    hide Eval;
  }

  /** An exhausted range yields the latest condition value. */
  lemma Exhausted(f: Site, q: Quantifier, last: word, latest: Value, matches: word)
    requires ValidSite(f)
    ensures var r := LoopOf(f, q, LoopRegisters(last, last, latest, matches)); r.Val? && r.value == latest
  {
  }

  /** `for all` stops at the first condition that is not true, and its outcome is that of this condition. */
  lemma {:induction false} AllStopsEarly(f: Site, i: word, last: word, latest: Value, matches: word, k: word)
    requires ValidSite(f) && i <= k < last
    requires (forall j: word :: i <= j < k ==> Holds(f, j)) && !Holds(f, k)
    ensures var r := LoopOf(f, All, LoopRegisters(i, last, latest, matches));
            if IsFalse(ConditionAt(f, k)) then IsFalse(r) else !r.Val? && (ConditionAt(f, k).Err? ==> r == ConditionAt(f, k))
    decreases k - i
  {
    hide Eval, Loop, LoopOf, EmittableWorld;
    Round(f, All, i, last, latest, matches);
    if i < k {
      assert Holds(f, i);
      AllStopsEarly(f, i + 1, last, ConditionAt(f, i).value, matches, k);
    }
  }

  lemma {:induction false} AllSucceeds(f: Site, i: word, last: word, latest: Value, matches: word)
    requires ValidSite(f) && i <= last
    requires forall j: word :: i <= j < last ==> Holds(f, j)
    ensures var r := LoopOf(f, All, LoopRegisters(i, last, latest, matches));
            if i < last then IsTrue(r) else r.Val? && r.value == latest
    decreases last - i
  {
    hide Eval, Loop, LoopOf, EmittableWorld;
    if i < last {
      Round(f, All, i, last, latest, matches);
      assert Holds(f, i);
      AllSucceeds(f, i + 1, last, ConditionAt(f, i).value, matches);
    } else {
      Exhausted(f, All, last, latest, matches);
    }
  }

  /** `for any` stops at the first condition that is not false, and its outcome is that of this condition. */
  lemma {:induction false} AnyStopsEarly(f: Site, i: word, last: word, latest: Value, matches: word, k: word)
    requires ValidSite(f) && i <= k < last
    requires (forall j: word :: i <= j < k ==> IsFalse(ConditionAt(f, j))) && !IsFalse(ConditionAt(f, k))
    ensures var r := LoopOf(f, Any, LoopRegisters(i, last, latest, matches));
            if Holds(f, k) then IsTrue(r) else !r.Val? && (ConditionAt(f, k).Err? ==> r == ConditionAt(f, k))
    decreases k - i
  {
    hide Eval, Loop, LoopOf, EmittableWorld;
    Round(f, Any, i, last, latest, matches);
    if i < k {
      assert IsFalse(ConditionAt(f, i));
      AnyStopsEarly(f, i + 1, last, ConditionAt(f, i).value, matches, k);
    }
  }

  lemma {:induction false} AnyFails(f: Site, i: word, last: word, latest: Value, matches: word)
    requires ValidSite(f) && i <= last
    requires forall j: word :: i <= j < last ==> IsFalse(ConditionAt(f, j))
    ensures var r := LoopOf(f, Any, LoopRegisters(i, last, latest, matches));
            if i < last then IsFalse(r) else r.Val? && r.value == latest
    decreases last - i
  {
    hide Eval, Loop, LoopOf, EmittableWorld;
    if i < last {
      Round(f, Any, i, last, latest, matches);
      assert IsFalse(ConditionAt(f, i));
      AnyFails(f, i + 1, last, ConditionAt(f, i).value, matches);
    } else {
      Exhausted(f, Any, last, latest, matches);
    }
  }

  /**
   * What the counter has reached once `c` more matches are counted from `matches` on, at its highest: it
   * wraps around at 2^32, so after 2^32 - 1 it starts over.
   */
  function Reached(matches: word, c: nat): int {
    Wrap(matches + 1) + c - 1
  }

  /** `for N` leaves with true at the match that fills the quota, whatever the later conditions are. */
  lemma {:induction false} AtLeastStopsEarly(f: Site, quota: word, i: word, last: word, latest: Value, matches: word, k: word)
    requires ValidSite(f) && i <= k < last
    requires (forall j: word :: i <= j < k ==> Holds(f, j) || IsFalse(ConditionAt(f, j))) && Holds(f, k)
    requires Reached(matches, Count(f, i, k) + 1) >= quota
    ensures IsTrue(LoopOf(f, AtLeast(quota), LoopRegisters(i, last, latest, matches)))
    decreases k - i
  {
    hide Eval, Loop, LoopOf, EmittableWorld;
    Round(f, AtLeast(quota), i, last, latest, matches);
    if i < k {
      assert Holds(f, i) || IsFalse(ConditionAt(f, i));
      var matches' := if Holds(f, i) then Wrap(matches + 1) else matches;
      if !(Holds(f, i) && matches' >= quota) {
        AtLeastStopsEarly(f, quota, i + 1, last, ConditionAt(f, i).value, matches', k);
      }
    }
  }

  /** The exact verdict of `for N` on a range whose conditions all have a truth value. */
  lemma {:induction false} AtLeastVerdict(f: Site, quota: word, i: word, last: word, latest: Value, matches: word)
    requires ValidSite(f) && i <= last && Decided(f, i, last)
    ensures var r := LoopOf(f, AtLeast(quota), LoopRegisters(i, last, latest, matches));
            if i == last then r.Val? && r.value == latest
            else
              && (IsTrue(r) || IsFalse(r))
              && (IsTrue(r) <==> (Count(f, i, last) > 0 && Reached(matches, Count(f, i, last)) >= quota) || Holds(f, last - 1))
    decreases last - i
  {
    hide Eval, Loop, LoopOf, EmittableWorld;
    if i < last {
      Round(f, AtLeast(quota), i, last, latest, matches);
      assert Holds(f, i) || IsFalse(ConditionAt(f, i));
      var matches' := if Holds(f, i) then Wrap(matches + 1) else matches;
      if !(Holds(f, i) && matches' >= quota) {
        AtLeastVerdict(f, quota, i + 1, last, ConditionAt(f, i).value, matches');
      }
    } else {
      Exhausted(f, AtLeast(quota), last, latest, matches);
    }
  }

  // ---------- whole `for` expressions ----------

  /** A `for` with no other inside. */
  predicate Plain(e: Expr) {
    e.Range? && !HasRange(e.start) && !HasRange(e.end) && !HasRange(e.condition)
  }

  /** A `for` met with fresh registers, whose bounds are the numbers `first` and `last`. */
  ghost predicate Quantified(w: World, n: nat, mod: Option<string>, e: Expr, first: word, last: word) {
    && EmittableWorld(w) && Emittable(e) && Plain(e)
    && Eval(w, n, mod, Some(e.ivar), e.end, ZERO) == Val(Num(last), ZERO)
    && Eval(w, n, mod, Some(e.ivar), e.start, ZERO) == Val(Num(first), ZERO)
    && Decided(SiteOf(w, n, mod, e), first, last)
  }

  function SiteOf(w: World, n: nat, mod: Option<string>, e: Expr): Site
    requires e.Range?
  {
    Site(w, n, mod, e.ivar, e.condition)
  }

  function Verdict(w: World, n: nat, mod: Option<string>, e: Expr): Evaluated
    requires EmittableWorld(w) && Emittable(e)
  {
    Eval(w, n, mod, None, e, ZERO)
  }

  lemma ForIsLoop(w: World, n: nat, mod: Option<string>, e: Expr, first: word, last: word)
    requires Quantified(w, n, mod, e, first, last)
    ensures Verdict(w, n, mod, e) == LoopOf(SiteOf(w, n, mod, e), e.quantifier, LoopRegisters(first, last, Num(0), 0))
    ensures first >= last ==> IsFalse(Verdict(w, n, mod, e))
  {
  }

  /** `for all` over a non-empty range is the conjunction; over an empty one it is false. */
  lemma ForAll(w: World, n: nat, mod: Option<string>, e: Expr, first: word, last: word)
    requires Quantified(w, n, mod, e, first, last) && e.quantifier == All
    ensures var r := Verdict(w, n, mod, e);
            && (IsTrue(r) || IsFalse(r))
            && (IsTrue(r) <==> first < last && forall i: word :: first <= i < last ==> Holds(SiteOf(w, n, mod, e), i))
  {
    hide Eval, Loop;
    ForIsLoop(w, n, mod, e, first, last);
    var f := SiteOf(w, n, mod, e);
    if exists i: word :: first <= i < last && !Holds(f, i) {
      var k := FirstFalse(f, first, last);
      AllStopsEarly(f, first, last, Num(0), 0, k);
    } else if first < last {
      AllSucceeds(f, first, last, Num(0), 0);
    }
  }

  lemma {:induction false} FirstFalse(f: Site, first: word, last: word) returns (k: word)
    requires ValidSite(f) && exists i: word :: first <= i < last && !Holds(f, i)
    ensures first <= k < last && !Holds(f, k) && forall j: word :: first <= j < k ==> Holds(f, j)
    decreases last - first
  {
    if !Holds(f, first) {
      k := first;
    } else {
      k := FirstFalse(f, first + 1, last);
    }
  }

  /** The `any` form of the loop is the disjunction; over an empty range it is false. */
  lemma ForAny(w: World, n: nat, mod: Option<string>, e: Expr, first: word, last: word)
    requires Quantified(w, n, mod, e, first, last) && e.quantifier == Any
    ensures var r := Verdict(w, n, mod, e);
            && (IsTrue(r) || IsFalse(r))
            && (IsTrue(r) <==> exists i: word :: first <= i < last && Holds(SiteOf(w, n, mod, e), i))
  {
    hide Eval, Loop;
    ForIsLoop(w, n, mod, e, first, last);
    var f := SiteOf(w, n, mod, e);
    if exists i: word :: first <= i < last && Holds(f, i) {
      var k := FirstTrue(f, first, last);
      AnyStopsEarly(f, first, last, Num(0), 0, k);
    } else if first < last {
      AnyFails(f, first, last, Num(0), 0);
    }
  }

  lemma {:induction false} FirstTrue(f: Site, first: word, last: word) returns (k: word)
    requires ValidSite(f) && Decided(f, first, last) && exists i: word :: first <= i < last && Holds(f, i)
    ensures first <= k < last && Holds(f, k) && forall j: word :: first <= j < k ==> IsFalse(ConditionAt(f, j))
    decreases last - first
  {
    if Holds(f, first) {
      k := first;
    } else {
      k := FirstTrue(f, first + 1, last);
    }
  }

  /** Conditions counted, as a statement about their existence. */
  lemma {:induction false} CountPositive(f: Site, first: word, last: word)
    requires ValidSite(f)
    ensures Count(f, first, last) > 0 <==> exists i: word :: first <= i < last && Holds(f, i)
    decreases last - first
  {
    if first < last {
      CountPositive(f, first + 1, last);
      if Count(f, first + 1, last) > 0 {
        var i: word :| first + 1 <= i < last && Holds(f, i);
      }
      if i: word :| first <= i < last && Holds(f, i) {
        assert i == first || first + 1 <= i;
      }
    }
  }

  /**
   * `for N`: true if at least N conditions hold, and also whenever the last one does.  With N = 0
   * one condition must still hold.
   */
  lemma ForAtLeast(w: World, n: nat, mod: Option<string>, e: Expr, first: word, last: word)
    requires Quantified(w, n, mod, e, first, last) && e.quantifier.AtLeast?
    ensures var r := Verdict(w, n, mod, e); var f := SiteOf(w, n, mod, e); var quota := e.quantifier.count;
            && (IsTrue(r) || IsFalse(r))
            && (IsTrue(r) <==>
                (first < last && ((Count(f, first, last) >= quota && Count(f, first, last) > 0) || Holds(f, last - 1))))
  {
    hide Eval, Loop;
    ForIsLoop(w, n, mod, e, first, last);
    if first < last {
      AtLeastVerdict(SiteOf(w, n, mod, e), e.quantifier.count, first, last, Num(0), 0);
    }
  }

  /** `for 1` is exactly the disjunction, which is what `for any` stands for. */
  lemma ForOne(w: World, n: nat, mod: Option<string>, e: Expr, first: word, last: word)
    requires Quantified(w, n, mod, e, first, last) && e.quantifier == AtLeast(1)
    ensures IsTrue(Verdict(w, n, mod, e)) <==>
            exists i: word :: first <= i < last && Holds(SiteOf(w, n, mod, e), i)
  {
    ForAtLeast(w, n, mod, e, first, last);
    CountPositive(SiteOf(w, n, mod, e), first, last);
  }

  /**
   * The documented meaning of `for N`, at least N conditions hold, is what the code computes exactly
   * when enough of them hold or the last one does not; for N = 1 that is always so.
   */
  lemma ForAtLeastExact(w: World, n: nat, mod: Option<string>, e: Expr, first: word, last: word)
    requires Quantified(w, n, mod, e, first, last) && e.quantifier.AtLeast? && e.quantifier.count >= 1 && first < last
    ensures var f := SiteOf(w, n, mod, e); var c := Count(f, first, last); var quota := e.quantifier.count;
            (IsTrue(Verdict(w, n, mod, e)) <==> c >= quota) <==> (c >= quota || !Holds(f, last - 1))
  {
    ForAtLeast(w, n, mod, e, first, last);
  }

  /** A `for` met with whatever registers an earlier one has left, with a number in register 3. */
  ghost predicate Met(w: World, n: nat, mod: Option<string>, e: Expr, first: word, last: word, regs: Registers) {
    && EmittableWorld(w) && Emittable(e) && Plain(e) && regs.r3.Num?
    && Eval(w, n, mod, Some(e.ivar), e.end, regs) == Val(Num(last), regs)
    && Eval(w, n, mod, Some(e.ivar), e.start, regs) == Val(Num(first), regs)
    && Decided(SiteOf(w, n, mod, e), first, last)
  }

  lemma MetIsLoop(w: World, n: nat, mod: Option<string>, e: Expr, first: word, last: word, regs: Registers)
    requires Met(w, n, mod, e, first, last, regs)
    ensures Eval(w, n, mod, None, e, regs) == LoopOf(SiteOf(w, n, mod, e), e.quantifier, LoopRegisters(first, last, regs.r2, regs.r3.w))
    ensures first >= last ==> Eval(w, n, mod, None, e, regs).Val? && Eval(w, n, mod, None, e, regs).value == regs.r2
  {
  }

  /**
   * The exact verdict of a counted `for` anywhere in a rule: it counts on from the matches an earlier one
   * left in register 3, and over an empty range it yields the last condition of an earlier one.
   */
  lemma ForCountsOn(w: World, n: nat, mod: Option<string>, e: Expr, first: word, last: word, regs: Registers)
    requires Met(w, n, mod, e, first, last, regs) && e.quantifier.AtLeast?
    ensures var r := Eval(w, n, mod, None, e, regs); var c := Count(SiteOf(w, n, mod, e), first, last);
            if first >= last then r.Val? && r.value == regs.r2
            else (IsTrue(r) || IsFalse(r)) &&
                 (IsTrue(r) <==> (c > 0 && Reached(regs.r3.w, c) >= e.quantifier.count) || Holds(SiteOf(w, n, mod, e), last - 1))
  {
    hide Eval, Loop;
    MetIsLoop(w, n, mod, e, first, last, regs);
    if first < last {
      AtLeastVerdict(SiteOf(w, n, mod, e), e.quantifier.count, first, last, regs.r2, regs.r3.w);
    }
  }

  lemma {:induction false} CountFull(f: Site, first: word, last: word)
    requires ValidSite(f) && first <= last
    ensures Count(f, first, last) <= last - first
    ensures Count(f, first, last) == last - first <==> forall i: word :: first <= i < last ==> Holds(f, i)
    decreases last - first
  {
    if first < last {
      CountFull(f, first + 1, last);
    }
  }

  /**
   * The documentation calls `for all i in (0..n)` and `for n i in (0..n)` equivalent.  They are exactly
   * when all conditions hold or the last one does not.
   */
  lemma AllAsCount(w: World, n: nat, mod: Option<string>, e: Expr, last: word)
    requires Quantified(w, n, mod, e, 0, last) && e.quantifier == AtLeast(last) && 0 < last
    requires Quantified(w, n, mod, e.(quantifier := All), 0, last)
    ensures var f := SiteOf(w, n, mod, e);
            (IsTrue(Verdict(w, n, mod, e)) <==> IsTrue(Verdict(w, n, mod, e.(quantifier := All)))) <==>
            ((forall i: word :: i < last ==> Holds(f, i)) || !Holds(f, last - 1))
  {
    hide Eval, Loop;
    ForAtLeast(w, n, mod, e, 0, last);
    ForAll(w, n, mod, e.(quantifier := All), 0, last);
    CountFull(SiteOf(w, n, mod, e), 0, last);
  }

  const IS_ONE := Binary(EqualEqual, Lit(Identifier("i")), Lit(Integer(1)), Number)
  const TWO_OF_TWO := Range(AtLeast(2), "i", Lit(Integer(0)), Lit(Integer(2)), IS_ONE)

  lemma OnlyOne(w: World, i: word)
    requires w.rules == []
    ensures EmittableWorld(w) && ConditionAt(SiteOf(w, 0, Some("file"), TWO_OF_TWO), i) == Val(Truth(i == 1), ZERO.(r0 := Num(i)))
  {
    assert "i" != "file" by { assert |"i"| != |"file"|; }
    assert Eval(w, 0, Some("file"), Some("i"), Lit(Identifier("i")), ZERO.(r0 := Num(i))) == Val(Num(i), ZERO.(r0 := Num(i)));
  }

  lemma TwoBounds(w: World)
    requires w.rules == []
    ensures EmittableWorld(w) && Emittable(TWO_OF_TWO) && Plain(TWO_OF_TWO)
    ensures Eval(w, 0, Some("file"), Some("i"), TWO_OF_TWO.end, ZERO) == Val(Num(2), ZERO)
    ensures Eval(w, 0, Some("file"), Some("i"), TWO_OF_TWO.start, ZERO) == Val(Num(0), ZERO)
  {
  }

  /** Where it fails: of the indices 0 and 1 only the last equals 1, yet `for 2` is true. */
  lemma ForTwoMiscounts(w: World)
    requires w.rules == []
    ensures var e := TWO_OF_TWO;
            Quantified(w, 0, Some("file"), e, 0, 2) && IsTrue(Verdict(w, 0, Some("file"), e)) && Count(SiteOf(w, 0, Some("file"), e), 0, 2) == 1
  {
    hide ConditionAt, Eval;
    var e := TWO_OF_TWO;
    var f := SiteOf(w, 0, Some("file"), e);
    TwoBounds(w);
    forall i: word ensures ConditionAt(f, i) == Val(Truth(i == 1), ZERO.(r0 := Num(i))) {
      OnlyOne(w, i);
    }
    assert Count(f, 1, 2) == 1 by { assert Holds(f, 1); assert Count(f, 2, 2) == 0; }
    assert Quantified(w, 0, Some("file"), e, 0, 2);
    ForAtLeast(w, 0, Some("file"), e, 0, 2);
  }
}
