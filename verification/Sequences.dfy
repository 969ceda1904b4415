/**
 * The sequence detector: for every sequence it keeps the time each of its rules was last triggered, and
 * reports the sequence when these times stand in the order of its rules.
 */
module Sequences {
  import opened Words

  datatype Time = Time(sec: nat, usec: nat)

  const NEVER := Time(0, 0)

  predicate Earlier(a: Time, b: Time) {
    a.sec < b.sec || (a.sec == b.sec && a.usec < b.usec)
  }

  datatype Trigger = Trigger(rule: nat, at: Time)

  /** The indices of the rules of a sequence, in order, and the most seconds it may span, 0 being no limit. */
  datatype Spec = Spec(rules: seq<nat>, maxSpan: word)

  /** The last trigger time of every monitored rule. */
  type Monitored = map<nat, Time>

  function Initial(s: Spec): Monitored {
    map r | r in s.rules :: NEVER
  }

  function Noted(m: Monitored, t: Trigger): Monitored {
    if t.rule in m then m[t.rule := t.at] else m
  }

  /** What a history of triggers leaves in the table of a sequence. */
  function After(s: Spec, history: seq<Trigger>): (m: Monitored)
    ensures m.Keys == set r | r in s.rules
  {
    if history == [] then Initial(s) else Noted(After(s, history[..|history| - 1]), history[|history| - 1])
  }

  /** Seconds and microseconds are compared separately. */
  predicate NotBefore(t: Time, last: Time) {
    t.sec >= last.sec && t.usec >= last.usec
  }

  /** The times of the first `n` rules ascend, in both parts, from `NEVER` on, and none is missing. */
  predicate Ascending(s: Spec, m: Monitored, n: nat)
    requires n <= |s.rules| && forall r <- s.rules :: r in m
  {
    forall j :: 0 <= j < n ==> m[s.rules[j]].sec != 0 && (j > 0 ==> NotBefore(m[s.rules[j]], m[s.rules[j - 1]]))
  }

  predicate InSpan(s: Spec, first: Time, last: Time) {
    s.maxSpan == 0 || last.sec as int - first.sec <= s.maxSpan
  }

  /** Whether the trigger that ends `history` is reported for the sequence. */
  predicate Reported(s: Spec, history: seq<Trigger>)
    requires history != []
  {
    var m := After(s, history);
    && history[|history| - 1].rule in s.rules
    && Ascending(s, m, |s.rules|)
    && InSpan(s, m[s.rules[0]], m[s.rules[|s.rules| - 1]])
  }

  /** The sequences among the first `n` that the newest trigger completes, in table order. */
  function Completed(sequences: seq<Spec>, history: seq<Trigger>, n: nat): seq<nat>
    requires history != [] && n <= |sequences|
  {
    if n == 0 then []
    else Completed(sequences, history, n - 1) + if Reported(sequences[n - 1], history) then [n - 1] else []
  }

  // ---------- the detector ----------

  class Detector {
    const sequences: seq<Spec>
    var monitored: seq<Monitored>
    var reports: nat
    ghost var history: seq<Trigger>

    ghost predicate Valid()
      reads this
    {
      |monitored| == |sequences| && forall i :: 0 <= i < |sequences| ==> monitored[i] == After(sequences[i], history)
    }

    /** The sequence tables of a new machine: no rule has been triggered. */
    constructor (sequences: seq<Spec>)
      ensures Valid() && this.sequences == sequences && history == []
    {
      this.sequences := sequences;
      monitored := seq(|sequences|, i requires 0 <= i < |sequences| => Initial(sequences[i]));
      reports, history := 0, [];
    }

    /** `vm_update_sequences`: the sequences reported are those the history says, in table order. */
    method Update(rule: nat, at: Time) returns (reported: seq<nat>)
      requires Valid()
      modifies this
      ensures Valid() && history == old(history) + [Trigger(rule, at)]
      ensures reported == Completed(sequences, history, |sequences|)
      ensures forall i :: i in reported <==> 0 <= i < |sequences| && Reported(sequences[i], history)
      ensures forall a, b :: 0 <= a < b < |reported| ==> reported[a] < reported[b]
      ensures reports == old(reports) + |reported|
    {
      hide After, Reported;
      ghost var before := history;
      history := history + [Trigger(rule, at)];
      reported := [];
      for i := 0 to |sequences|
        invariant |monitored| == |sequences| && history == before + [Trigger(rule, at)]
        invariant forall k :: 0 <= k < i ==> monitored[k] == After(sequences[k], history)
        invariant forall k :: i <= k < |sequences| ==> monitored[k] == After(sequences[k], before)
        invariant reported == Completed(sequences, history, i)
        invariant forall k :: k in reported <==> 0 <= k < i && Reported(sequences[k], history)
        invariant forall a, b :: 0 <= a < b < |reported| ==> reported[a] < reported[b]
        invariant reports == old(reports) + |reported|
      {
        var report := UpdateOne(i, rule, at, before);
        if report {
          Ordered(reported, i);
          reported := reported + [i];
          reports := reports + 1;
        }
      }
    }

    /** Notes the trigger for one sequence, if it monitors the rule, and looks whether it is complete. */
    method UpdateOne(i: nat, rule: nat, at: Time, ghost before: seq<Trigger>) returns (report: bool)
      requires i < |sequences| == |monitored| && monitored[i] == After(sequences[i], before)
      modifies this`monitored
      ensures |monitored| == |sequences| && monitored[i] == After(sequences[i], before + [Trigger(rule, at)])
      ensures forall k :: 0 <= k < |sequences| && k != i ==> monitored[k] == old(monitored[k])
      ensures report == Reported(sequences[i], before + [Trigger(rule, at)])
    {
      var s, t := sequences[i], Trigger(rule, at);
      assert (before + [t])[..|before + [t]| - 1] == before;
      report := false;
      if rule in monitored[i] {
        var m: Monitored := monitored[i][rule := at];
        monitored := monitored[i := m];
        report := Sequential(s, m);
      }
    }

    /** The loop over the rules of a sequence, and the test of its span. */
    static method Sequential(s: Spec, m: Monitored) returns (report: bool)
      requires s.rules != [] && forall r <- s.rules :: r in m
      ensures report <==> Ascending(s, m, |s.rules|) && InSpan(s, m[s.rules[0]], m[s.rules[|s.rules| - 1]])
    {
      var idx, first, last := 0, NEVER, NEVER;
      var j := 0;
      while j < |s.rules|
        invariant 0 <= j <= |s.rules| && idx == j && Ascending(s, m, j)
        invariant if j == 0 then last == NEVER else first == m[s.rules[0]] && last == m[s.rules[j - 1]]
      {
        var r := m[s.rules[j]];
        if r.sec == 0 || !(r.sec >= last.sec && r.usec >= last.usec) {
          return false;
        }
        if idx == 0 {
          first := r;
        }
        last := r;
        idx, j := idx + 1, j + 1;
      }
      SpanNatural(s, m);
      report := s.maxSpan == 0 || last.sec - first.sec <= s.maxSpan;
    }
  }

  lemma Ordered(reported: seq<nat>, i: nat)
    requires forall k <- reported :: k < i
    ensures forall a :: 0 <= a < |reported| ==> reported[a] < i
  {
    forall a | 0 <= a < |reported| ensures reported[a] < i {
      assert reported[a] in reported;
    }
  }

  lemma SpanNatural(s: Spec, m: Monitored)
    requires s.rules != [] && (forall r <- s.rules :: r in m) && Ascending(s, m, |s.rules|)
    ensures m[s.rules[0]].sec <= m[s.rules[|s.rules| - 1]].sec
  {
    AscendingAll(s, m, 0, |s.rules| - 1);
  }

  lemma {:induction false} AscendingAll(s: Spec, m: Monitored, i: nat, j: nat)
    requires i <= j < |s.rules| && (forall r <- s.rules :: r in m) && Ascending(s, m, |s.rules|)
    ensures NotBefore(m[s.rules[j]], m[s.rules[i]])
    decreases j
  {
    if i < j {
      AscendingAll(s, m, i, j - 1);
    }
  }

  // ---------- what a report means ----------

  /** The position of the last trigger of a rule, or -1. */
  function LastOf(history: seq<Trigger>, rule: nat): (p: int)
    ensures -1 <= p < |history|
    ensures p >= 0 ==> history[p].rule == rule
    ensures forall q :: p < q < |history| ==> history[q].rule != rule
  {
    if history == [] then -1
    else if history[|history| - 1].rule == rule then |history| - 1
    else LastOf(history[..|history| - 1], rule)
  }

  /** The table holds nothing but the last trigger times. */
  lemma {:induction false} StateIsLast(s: Spec, history: seq<Trigger>, rule: nat)
    requires rule in s.rules
    ensures var p := LastOf(history, rule); After(s, history)[rule] == if p < 0 then NEVER else history[p].at
    decreases |history|
  {
    if history != [] {
      StateIsLast(s, history[..|history| - 1], rule);
    }
  }

  /** Times as a clock gives them: none is in second 0, and each is later than the one before. */
  ghost predicate StrictlyIncreasing(history: seq<Trigger>) {
    && (forall p :: 0 <= p < |history| ==> history[p].at.sec != 0)
    && (forall p, q :: 0 <= p < q < |history| ==> Earlier(history[p].at, history[q].at))
  }

  predicate Distinct(rules: seq<nat>) {
    forall i, j :: 0 <= i < j < |rules| ==> rules[i] != rules[j]
  }

  /** The last triggers of the rules stand in the order of the sequence, and the newest trigger ends it. */
  predicate InOrder(s: Spec, history: seq<Trigger>) {
    && s.rules != [] && LastOf(history, s.rules[0]) >= 0
    && (forall j :: 0 < j < |s.rules| ==> LastOf(history, s.rules[j - 1]) < LastOf(history, s.rules[j]))
    && LastOf(history, s.rules[|s.rules| - 1]) == |history| - 1
  }

  function LastTime(history: seq<Trigger>, rule: nat): Time {
    var p := LastOf(history, rule); if p < 0 then NEVER else history[p].at
  }

  /** Along the sequence the microseconds never fall. */
  predicate MicrosecondsRise(s: Spec, history: seq<Trigger>) {
    forall j :: 0 < j < |s.rules| ==> LastTime(history, s.rules[j]).usec >= LastTime(history, s.rules[j - 1]).usec
  }

  predicate SpanKept(s: Spec, history: seq<Trigger>)
    requires s.rules != []
  {
    s.maxSpan == 0 || LastTime(history, s.rules[|s.rules| - 1]).sec as int - LastTime(history, s.rules[0]).sec <= s.maxSpan
  }

  /**
   * Exactly when a sequence of distinct rules is reported, over every history with increasing times: its
   * rules' last triggers are in order and within the span, and their microseconds do not fall.
   */
  lemma ReportedExactly(s: Spec, history: seq<Trigger>)
    requires history != [] && StrictlyIncreasing(history) && Distinct(s.rules)
    ensures Reported(s, history) <==> InOrder(s, history) && SpanKept(s, history) && MicrosecondsRise(s, history)
  {
    var m := After(s, history);
    forall r | r in s.rules ensures m[r] == LastTime(history, r) {
      StateIsLast(s, history, r);
    }
    if Reported(s, history) {
      ReportedInOrder(s, history);
    }
    if InOrder(s, history) && SpanKept(s, history) && MicrosecondsRise(s, history) {
      InOrderReported(s, history);
    }
  }

  lemma LaterLast(history: seq<Trigger>, a: nat, b: nat)
    requires StrictlyIncreasing(history) && a != b && LastOf(history, a) >= 0 && LastOf(history, b) >= 0
    requires NotBefore(LastTime(history, b), LastTime(history, a))
    ensures LastOf(history, a) < LastOf(history, b)
  {
    var p, q := LastOf(history, a), LastOf(history, b);
    assert history[p].rule == a && history[q].rule == b;
  }

  lemma ReportedInOrder(s: Spec, history: seq<Trigger>)
    requires history != [] && StrictlyIncreasing(history) && Distinct(s.rules) && Reported(s, history)
    requires forall r <- s.rules :: After(s, history)[r] == LastTime(history, r)
    ensures InOrder(s, history)
  {
    var m, newest := After(s, history), history[|history| - 1].rule;
    forall j | 0 <= j < |s.rules| ensures LastOf(history, s.rules[j]) >= 0 {
      assert m[s.rules[j]].sec != 0;
    }
    forall j | 0 < j < |s.rules| ensures LastOf(history, s.rules[j - 1]) < LastOf(history, s.rules[j]) {
      assert NotBefore(m[s.rules[j]], m[s.rules[j - 1]]);
      LaterLast(history, s.rules[j - 1], s.rules[j]);
    }
    forall j | 0 <= j < |s.rules| - 1 ensures LastOf(history, s.rules[j]) < |history| - 1 {
      assert LastOf(history, s.rules[j + 1 - 1]) < LastOf(history, s.rules[j + 1]);
    }
    hide StrictlyIncreasing, Ascending, InSpan;
    var i :| 0 <= i < |s.rules| && s.rules[i] == newest;
    assert LastOf(history, newest) == |history| - 1;
  }

  lemma InOrderReported(s: Spec, history: seq<Trigger>)
    requires history != [] && StrictlyIncreasing(history) && InOrder(s, history) && SpanKept(s, history) && MicrosecondsRise(s, history)
    requires forall r <- s.rules :: After(s, history)[r] == LastTime(history, r)
    ensures Reported(s, history)
  {
    var m := After(s, history);
    forall j | 0 <= j < |s.rules| ensures LastOf(history, s.rules[j]) >= 0 {
      OrderedFrom(s, history, j);
    }
    forall j | 0 <= j < |s.rules| ensures m[s.rules[j]].sec != 0 && (j > 0 ==> NotBefore(m[s.rules[j]], m[s.rules[j - 1]])) {
      if j > 0 {
        assert LastOf(history, s.rules[j - 1]) < LastOf(history, s.rules[j]);
      }
    }
  }

  lemma {:induction false} OrderedFrom(s: Spec, history: seq<Trigger>, j: nat)
    requires InOrder(s, history) && j < |s.rules|
    ensures LastOf(history, s.rules[j]) >= 0
    decreases j
  {
    if j > 0 {
      OrderedFrom(s, history, j - 1);
    }
  }

  /** The history has the triggers of the sequence, one after the other, the newest trigger being the last. */
  ghost predicate Witnesses(s: Spec, history: seq<Trigger>, at: seq<nat>) {
    && |at| == |s.rules| > 0
    && (forall j :: 0 <= j < |at| ==> at[j] < |history| && history[at[j]].rule == s.rules[j])
    && (forall j :: 0 < j < |at| ==> at[j - 1] < at[j])
    && at[|at| - 1] == |history| - 1
    && (s.maxSpan == 0 || history[at[|at| - 1]].at.sec as int - history[at[0]].at.sec <= s.maxSpan)
  }

  /** Soundness: nothing is reported that did not happen. */
  lemma ReportSound(s: Spec, history: seq<Trigger>) returns (at: seq<nat>)
    requires history != [] && StrictlyIncreasing(history) && Distinct(s.rules) && Reported(s, history)
    ensures Witnesses(s, history, at)
  {
    ReportedExactly(s, history);
    forall j | 0 <= j < |s.rules| ensures LastOf(history, s.rules[j]) >= 0 {
      OrderedFrom(s, history, j);
    }
    at := seq(|s.rules|, j requires 0 <= j < |s.rules| => LastOf(history, s.rules[j]));
  }

  lemma LastWitness(s: Spec, history: seq<Trigger>, at: seq<nat>, j: nat)
    requires Witnesses(s, history, at) && j < |at|
    requires forall p :: at[j] < p < |history| ==> history[p].rule != s.rules[j]
    ensures LastOf(history, s.rules[j]) == at[j]
  {
    var p := LastOf(history, s.rules[j]);
    assert history[at[j]].rule == s.rules[j];
  }

  /**
   * Completeness, for sequences whose rules were triggered once each: the triggers being there, the report
   * hangs on the microseconds alone.
   */
  lemma ReportComplete(s: Spec, history: seq<Trigger>, at: seq<nat>)
    requires history != [] && StrictlyIncreasing(history) && Distinct(s.rules) && Witnesses(s, history, at)
    requires forall j, p :: 0 <= j < |at| && at[j] < p < |history| ==> history[p].rule != s.rules[j]
    ensures Reported(s, history) <==> forall j :: 0 < j < |at| ==> history[at[j]].at.usec >= history[at[j - 1]].at.usec
  {
    hide Reported;
    forall j | 0 <= j < |at| ensures LastOf(history, s.rules[j]) == at[j] {
      LastWitness(s, history, at, j);
    }
    ReportedExactly(s, history);
    hide LastOf, Distinct, StrictlyIncreasing;
    assert InOrder(s, history) && SpanKept(s, history);
  }

  // ---------- what is missed, and what is reported too early ----------

  const PAIR := Spec([0, 1], 0)

  /** One rule at 1.9 s and the next at 2.1 s: in order, but not reported. */
  lemma MissedAcrossSecond()
    ensures var h := [Trigger(0, Time(1, 900000)), Trigger(1, Time(2, 100000))];
            StrictlyIncreasing(h) && InOrder(PAIR, h) && SpanKept(PAIR, h) && !Reported(PAIR, h)
  {
    var h := [Trigger(0, Time(1, 900000)), Trigger(1, Time(2, 100000))];
    assert h[..1] == [h[0]];
    assert LastOf(h, 1) == 1 && LastOf(h[..1], 0) == 0;
    assert LastOf(h, 0) == 0;
    var j := 1;
    assert LastTime(h, PAIR.rules[j]).usec < LastTime(h, PAIR.rules[j - 1]).usec;
    ReportedExactly(PAIR, h);
  }

  /** After A B A the trigger of C does not complete A B C: the second A hides the first. */
  lemma MissedAfterRepeat()
    ensures var s := Spec([0, 1, 2], 0);
            var h := [Trigger(0, Time(1, 0)), Trigger(1, Time(2, 0)), Trigger(0, Time(3, 0)), Trigger(2, Time(4, 0))];
            StrictlyIncreasing(h) && Witnesses(s, h, [0, 1, 3]) && !Reported(s, h)
  {
    hide Reported;
    var s := Spec([0, 1, 2], 0);
    var h := [Trigger(0, Time(1, 0)), Trigger(1, Time(2, 0)), Trigger(0, Time(3, 0)), Trigger(2, Time(4, 0))];
    assert LastOf(h, 0) == 2 by {
      assert h[2].rule == 0 && h[3].rule != 0;
    }
    assert LastOf(h, 1) == 1 by {
      assert h[1].rule == 1 && h[2].rule != 1 && h[3].rule != 1;
    }
    assert s.rules[1 - 1] == 0 && s.rules[1] == 1;
    assert !InOrder(s, h);
    ReportedExactly(s, h);
  }

  /** Nothing is forgotten after a report: another trigger of the last rule reports the sequence again. */
  lemma ReportedAgain()
    ensures var h := [Trigger(0, Time(1, 0)), Trigger(1, Time(2, 0)), Trigger(1, Time(3, 0))];
            Reported(PAIR, h[..2]) && Reported(PAIR, h)
  {
    var h := [Trigger(0, Time(1, 0)), Trigger(1, Time(2, 0)), Trigger(1, Time(3, 0))];
    var two := h[..2];
    assert two == [Trigger(0, Time(1, 0)), Trigger(1, Time(2, 0))];
    LastTwo(two, 0, 0);
    LastTwo(two, 1, 1);
    LastTwo(h, 0, 0);
    LastTwo(h, 1, 2);
    StateIsLast(PAIR, two, 0);
    StateIsLast(PAIR, two, 1);
    StateIsLast(PAIR, h, 0);
    StateIsLast(PAIR, h, 1);
  }

  lemma LastTwo(h: seq<Trigger>, rule: nat, p: nat)
    requires p < |h| && h[p].rule == rule && forall q :: p < q < |h| ==> h[q].rule != rule
    ensures LastOf(h, rule) == p
  {
  }

  /** A sequence that names one rule twice is reported at its first trigger. */
  lemma RepeatedRuleAtOnce(t: Time)
    requires t.sec != 0
    ensures Reported(Spec([0, 0], 0), [Trigger(0, t)])
  {
    assert [Trigger(0, t)][..0] == [];
    assert After(Spec([0, 0], 0), []) == map[0 := NEVER];
  }

  /** Two triggers with the same time are reported whatever their order. */
  lemma TiesInAnyOrder(t: Time)
    requires t.sec != 0
    ensures Reported(PAIR, [Trigger(1, t), Trigger(0, t)])
  {
    var h := [Trigger(1, t), Trigger(0, t)];
    StateIsLast(PAIR, h, 0);
    StateIsLast(PAIR, h, 1);
    assert h[0].rule == 1 && h[1].rule == 0;
    assert LastOf(h, 0) == 1 && LastOf(h, 1) == 0;
  }
}
