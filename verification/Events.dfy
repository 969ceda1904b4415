/**
 * One event: every rule for its type is run, from the first entry of the rule table to the last; rules
 * that trigger are reported, unless they are private or part of a sequence, and handed to the detector.
 */
module Events {
  import opened Words
  import opened Wrappers
  import opened CStrings
  import opened Ast
  import opened Machine
  import opened Semantics
  import opened Codegen
  import opened Correctness
  import opened Frame
  import opened Overflow
  import opened Vm
  import S = Sequences
  import I = Instructions

  /** The type of an event and its length, the names of the modules by ordinal, and the time at which each rule triggers. */
  datatype Event = Event(eventType: string, length: nat, names: map<nat, string>, clock: nat -> S.Time)

  /**
   * Whether a rule is run: its module is known under its ordinal, and the first `length` characters of
   * the module's name are those of the event type.  No event runs a rule without one.
   */
  predicate Due(entry: RuleEntry, e: Event) {
    entry.ordinal != 0 && entry.ordinal in e.names && Cut(e.names[entry.ordinal], e.length) == Cut(e.eventType, e.length)
  }

  predicate Holds(v: Evaluated) {
    v.Val? && v.value.Num? && v.value.w != 0
  }

  /** A notification: of a rule or of a sequence, by its index, with the second it was triggered in. */
  datatype Report = RuleReport(rule: nat, sec: nat) | SequenceReport(sequence: nat, sec: nat)

  /** How the run of a rule ended: the error, the result, the stack it left, and the steps it was granted. */
  datatype Ran = Ran(error: nat, result: word, left: seq<Value>, steps: nat)

  /** The program, the sequences, the event, and how each rule that is run ends. */
  datatype Setting = Setting(image: Image, sequences: seq<S.Spec>, e: Event, runs: seq<Ran>)

  /** The setting says how the first rules of the table end. */
  ghost predicate ValidSetting(t: Setting) {
    |t.runs| <= |t.image.rules|
  }

  predicate IsDue(t: Setting, j: nat)
    requires j < |t.image.rules|
  {
    Due(t.image.rules[j], t.e)
  }

  /** The stack on which rule `n` is run: each rule starts on what the one before left. */
  ghost function StackBefore(t: Setting, s: seq<Value>, n: nat): seq<Value>
    requires ValidSetting(t) && n <= |t.runs|
  {
    if n == 0 then s else if IsDue(t, n - 1) then t.runs[n - 1].left else StackBefore(t, s, n - 1)
  }

  ghost predicate EndsAs(image: Image, j: nat, s: seq<Value>, r: Ran)
    requires j < |image.rules|
  {
    var o := Exec(image, image.rules[j].codeOffset, s, ZERO, r.steps);
    o.Stop? && o.error == r.error && o.result == r.result && o.stack == r.left
  }

  /** Every rule that is run halts, each as the setting says. */
  ghost predicate Halting(t: Setting, s: seq<Value>) {
    ValidSetting(t) && forall j :: 0 <= j < |t.runs| && IsDue(t, j) ==> EndsAs(t.image, j, StackBefore(t, s, j), t.runs[j])
  }

  /** Rule `j` is run and its result is not zero. */
  ghost predicate Triggers(t: Setting, j: nat)
    requires ValidSetting(t) && j < |t.runs|
  {
    IsDue(t, j) && t.runs[j].result != 0
  }

  /** Rule `j` is run and stops with an error. */
  ghost predicate Errs(t: Setting, j: nat)
    requires ValidSetting(t) && j < |t.runs|
  {
    IsDue(t, j) && t.runs[j].error != 0
  }

  // ---------- what an event reports ----------

  /** The rules among the first `n` that trigger, with their times, in table order. */
  ghost function Triggered(t: Setting, n: nat): seq<S.Trigger>
    requires ValidSetting(t) && n <= |t.runs|
  {
    if n == 0 then []
    else Triggered(t, n - 1) + if Triggers(t, n - 1) then [S.Trigger(n - 1, t.e.clock(n - 1))] else []
  }

  function SequenceReports(completed: seq<nat>, sec: nat): seq<Report> {
    seq(|completed|, i requires 0 <= i < |completed| => SequenceReport(completed[i], sec))
  }

  /** The reports that a trigger of rule `j` at `at` makes, with `history` ending in it. */
  function ReportsAt(entry: RuleEntry, sequences: seq<S.Spec>, history: seq<S.Trigger>, j: nat, at: S.Time): seq<Report>
    requires history != []
  {
    (if entry.isPrivate || entry.inSequence then [] else [RuleReport(j, at.sec)]) +
    SequenceReports(S.Completed(sequences, history, |sequences|), at.sec)
  }

  /** All reports made for the first `n` rules, after the triggers in `before`. */
  ghost function Reports(t: Setting, before: seq<S.Trigger>, n: nat): seq<Report>
    requires ValidSetting(t) && n <= |t.runs|
  {
    if n == 0 then []
    else
      Reports(t, before, n - 1) +
      if Triggers(t, n - 1) then
        ReportsAt(t.image.rules[n - 1], t.sequences, before + Triggered(t, n), n - 1, t.e.clock(n - 1))
      else []
  }

  /** The error returned: that of the last rule that errs, 0 if none does. */
  ghost function LastError(t: Setting, n: nat): nat
    requires ValidSetting(t) && n <= |t.runs|
  {
    if n == 0 then 0 else if Errs(t, n - 1) then t.runs[n - 1].error else LastError(t, n - 1)
  }

  // ---------- the rule loop ----------

  /**
   * The rule loop of `ac_vm_exec`, for every event whose rules all halt.  It reports the rules that trigger
   * unless they are private or part of a sequence, hands every trigger to the detector, and goes on after an
   * error; what errors leave behind stays on the stack.
   */
  method ExecEvent(vm: Interpreter, detector: S.Detector, e: Event, ghost runs: seq<Ran>) returns (reports: seq<Report>, error: nat)
    requires vm.Valid() && detector.Valid() && |runs| == |vm.image.rules|
    requires Halting(Setting(vm.image, detector.sequences, e, runs), vm.Contents())
    modifies vm`sp, vm`ip, vm.stack, detector
    ensures vm.Valid() && detector.Valid()
    ensures var t := Setting(vm.image, detector.sequences, e, runs); var n := |runs|;
            && ValidSetting(t)
            && reports == Reports(t, old(detector.history), n) && error == LastError(t, n)
            && detector.history == old(detector.history) + Triggered(t, n)
            && vm.Contents() == StackBefore(t, old(vm.Contents()), n)
  {
    hide Exec, S.Completed, S.After, Due;
    ghost var t, s := Setting(vm.image, detector.sequences, e, runs), vm.Contents();
    reports, error := [], 0;
    for i := 0 to |vm.image.rules|
      invariant vm.Valid() && detector.Valid() && Halting(t, s)
      invariant reports == Reports(t, old(detector.history), i) && error == LastError(t, i)
      invariant detector.history == old(detector.history) + Triggered(t, i)
      invariant vm.Contents() == StackBefore(t, s, i)
    {
      var entry := vm.image.rules[i];
      if Due(entry, e) {
        assert IsDue(t, i) && EndsAs(t.image, i, StackBefore(t, s, i), runs[i]);
        var code, result, _ := vm.ExecCode(entry.codeOffset, runs[i].steps);
        if code != 0 {
          error := code;
        }
        if result != 0 {
          var some := Notify(detector, entry, i, e.clock(i));
          assert detector.history == old(detector.history) + Triggered(t, i + 1);
          reports := reports + some;
        }
      }
    }
  }

  /** A rule has triggered: reported itself unless it is private or part of a sequence, then its sequences. */
  method Notify(detector: S.Detector, entry: RuleEntry, i: nat, at: S.Time) returns (reports: seq<Report>)
    requires detector.Valid()
    modifies detector
    ensures detector.Valid() && detector.history == old(detector.history) + [S.Trigger(i, at)]
    ensures reports == ReportsAt(entry, detector.sequences, detector.history, i, at)
  {
    reports := if entry.isPrivate || entry.inSequence then [] else [RuleReport(i, at.sec)];
    var completed := detector.Update(i, at);
    reports := reports + SequenceReports(completed, at.sec);
  }

  // ---------- events with room on the stack ----------

  /** How much the rules that err can leave on the stack. */
  ghost function Leak(w: World, rules: seq<RuleEntry>, e: Event, n: nat): nat
    requires EmittableWorld(w) && n <= |rules| == |w.rules|
  {
    if n == 0 then 0 else Leak(w, rules, e, n - 1) + if Due(rules[n - 1], e) && EvalRule(w, n - 1).Err? then RuleDepth(w, n - 1) else 0
  }

  /** Every rule that is run has a meaning, and room on what the rules before it may have left of the stack. */
  ghost predicate Roomy(w: World, rules: seq<RuleEntry>, e: Event, level: nat) {
    && EmittableWorld(w) && |rules| == |w.rules|
    && forall j :: 0 <= j < |rules| && Due(rules[j], e) ==>
         !EvalRule(w, j).Lost? && level + Leak(w, rules, e, j) + RuleDepth(w, j) <= STACK_MAX
  }

  /** The run means what the evaluator says. */
  ghost predicate Means(w: World, j: nat, r: Ran)
    requires EmittableWorld(w) && j < |w.rules|
  {
    (r.result != 0 <==> Holds(EvalRule(w, j))) && (r.error != 0 <==> EvalRule(w, j).Err?) && (EvalRule(w, j).Err? ==> r.error == EvalRule(w, j).error)
  }

  /** A rule with a meaning, and room for it: on a verdict the stack is as before, on an error more may lie on it. */
  lemma RuleMeans(img: Image, w: World, j: nat, s: seq<Value>) returns (r: Ran)
    requires Linked(img, w) && j < |w.rules| && |img.rules| == |w.rules| && EmittableWorld(w)
    requires !EvalRule(w, j).Lost? && |s| + RuleDepth(w, j) <= STACK_MAX
    ensures EndsAs(img, j, s, r) && Means(w, j, r)
    ensures s <= r.left && |r.left| <= |s| + if EvalRule(w, j).Err? then RuleDepth(w, j) else 0
  {
    hide Exec, EvalRule, Linked, RuleDepth, EmittableWorld;
    var f, residue := 0, [];
    if EvalRule(w, j).Err? {
      f, residue := RuleResidue(img, w, j, s);
      r := Ran(EvalRule(w, j).error, 0, s + residue, f);
    } else {
      f := RuleCompiled(img, w, j, s, 0);
      r := Ran(0, EvalRule(w, j).value.w, s, f);
    }
  }

  lemma StackExtends(t: Setting, r: Ran, s: seq<Value>, n: nat)
    requires ValidSetting(t) && |t.runs| < |t.image.rules| && n <= |t.runs|
    ensures StackBefore(t.(runs := t.runs + [r]), s, n) == StackBefore(t, s, n)
  {
    if n > 0 {
      StackExtends(t, r, s, n - 1);
    }
  }

  lemma HaltingExtends(t: Setting, r: Ran, s: seq<Value>)
    requires Halting(t, s) && |t.runs| < |t.image.rules|
    requires IsDue(t, |t.runs|) ==> EndsAs(t.image, |t.runs|, StackBefore(t, s, |t.runs|), r)
    ensures Halting(t.(runs := t.runs + [r]), s)
  {
    hide EndsAs, StackBefore;
    var t' := t.(runs := t.runs + [r]);
    forall j | 0 <= j < |t'.runs| && IsDue(t', j) ensures EndsAs(t'.image, j, StackBefore(t', s, j), t'.runs[j]) {
      StackExtends(t, r, s, j);
      assert IsDue(t, j);
    }
  }

  const NOT_RUN := Ran(0, 0, [], 0)

  /**
   * The meaning of an event: where there is room, its due rules halt; exactly those whose meaning is true
   * trigger, exactly those whose meaning is an error err, and what they leave lies on top of what was there.
   */
  lemma {:induction false} EventMeans(img: Image, w: World, sequences: seq<S.Spec>, e: Event, s: seq<Value>, n: nat) returns (runs: seq<Ran>)
    requires Linked(img, w) && Roomy(w, img.rules, e, |s|) && n <= |img.rules|
    ensures var t := Setting(img, sequences, e, runs);
            && |runs| == n && Halting(t, s) && (forall j :: 0 <= j < n && IsDue(t, j) ==> Means(w, j, runs[j]))
            && s <= StackBefore(t, s, n) && |StackBefore(t, s, n)| <= |s| + Leak(w, img.rules, e, n)
    decreases n
  {
    hide Linked, EvalRule, RuleDepth, EmittableWorld, EndsAs, Means, Due;
    runs := [];
    if n > 0 {
      runs := EventMeans(img, w, sequences, e, s, n - 1);
      var t, r := Setting(img, sequences, e, runs), NOT_RUN;
      if IsDue(t, n - 1) {
        r := RuleMeans(img, w, n - 1, StackBefore(t, s, n - 1));
      }
      HaltingExtends(t, r, s);
      StackExtends(t, r, s, n - 1);
      runs := runs + [r];
    }
  }

  /** So with room a rule triggers if and only if it is due and true, and errs if and only if it is due and means an error. */
  lemma MeaningTriggers(t: Setting, w: World, j: nat)
    requires ValidSetting(t) && EmittableWorld(w) && j < |t.runs| && j < |w.rules| && (IsDue(t, j) ==> Means(w, j, t.runs[j]))
    ensures Triggers(t, j) <==> IsDue(t, j) && Holds(EvalRule(w, j))
    ensures Errs(t, j) <==> IsDue(t, j) && EvalRule(w, j).Err?
    ensures Errs(t, j) ==> t.runs[j].error == EvalRule(w, j).error
  {
    hide EvalRule;
  }

  // ---------- events on a full stack ----------

  /**
   * On a full stack every due rule triggers, whatever it says, unless it begins with a module that is not
   * loaded; and the stack stays full, so that the next event finds it so.
   */
  lemma {:induction false} FullEvent(img: Image, w: World, sequences: seq<S.Spec>, e: Event, s: seq<Value>, n: nat) returns (runs: seq<Ran>)
    requires Linked(img, w) && EmittableWorld(w) && |img.rules| == |w.rules| && |s| == STACK_MAX && n <= |img.rules|
    requires forall j :: 0 <= j < n && Due(img.rules[j], e) ==> FullEnd(w, j).Some?
    ensures var t := Setting(img, sequences, e, runs);
            && |runs| == n && Halting(t, s) && StackBefore(t, s, n) == s
            && (forall j :: 0 <= j < n ==> (Triggers(t, j) <==> IsDue(t, j) && FullEnd(w, j) == Some(OVERFLOWED)))
            && (forall j :: 0 <= j < n ==> (Errs(t, j) <==> IsDue(t, j) && FullEnd(w, j) == Some(Ended(ERROR_MODULE, 0))))
    decreases n
  {
    hide Linked, FullEnd, EmittableWorld, Due, Exec;
    runs := [];
    if n > 0 {
      runs := FullEvent(img, w, sequences, e, s, n - 1);
      var t, r := Setting(img, sequences, e, runs), NOT_RUN;
      if IsDue(t, n - 1) {
        var f := FullStack(img, w, n - 1, s, 0);
        var end := FullEnd(w, n - 1).value;
        r := Ran(end.error, end.result, s, f);
      }
      HaltingExtends(t, r, s);
      StackExtends(t, r, s, n - 1);
      var t' := t.(runs := runs + [r]);
      forall j | 0 <= j < n - 1 ensures Triggers(t', j) == Triggers(t, j) && Errs(t', j) == Errs(t, j) {
      }
      runs := runs + [r];
    }
  }

  // ---------- what is reported ----------

  /** Exactly the due rules that hold trigger, each once, with its time, in table order. */
  lemma {:induction false} TriggeredExactly(t: Setting, n: nat)
    requires ValidSetting(t) && n <= |t.runs|
    ensures var ts := Triggered(t, n);
            && (forall j: nat, at :: S.Trigger(j, at) in ts <==> j < n && Triggers(t, j) && at == t.e.clock(j))
            && (forall a, b :: 0 <= a < b < |ts| ==> ts[a].rule < ts[b].rule)
  {
    hide Triggers;
    if n > 0 {
      TriggeredExactly(t, n - 1);
      var ts := Triggered(t, n - 1);
      forall a | 0 <= a < |ts| ensures ts[a].rule < n - 1 {
        assert S.Trigger(ts[a].rule, ts[a].at) in ts;
      }
    }
  }

  /** A rule is reported, with the second of its trigger, if and only if it triggers and is neither private nor part of a sequence. */
  lemma {:induction false} RulesReported(t: Setting, before: seq<S.Trigger>, n: nat, j: nat)
    requires ValidSetting(t) && n <= |t.runs| && j < |t.runs|
    ensures forall sec :: RuleReport(j, sec) in Reports(t, before, n) <==>
              j < n && sec == t.e.clock(j).sec && Triggers(t, j) && !t.image.rules[j].isPrivate && !t.image.rules[j].inSequence
    decreases n
  {
    hide Triggers, ReportsAt, S.Completed;
    if n > 0 {
      RulesReported(t, before, n - 1, j);
      var last, earlier := Reports(t, before, n), Reports(t, before, n - 1);
      if Triggers(t, n - 1) {
        ReportsAtRule(t, before, n, j);
        var rs := ReportsAt(t.image.rules[n - 1], t.sequences, before + Triggered(t, n), n - 1, t.e.clock(n - 1));
        assert last == earlier + rs;
        assert forall sec :: RuleReport(j, sec) in last <==> RuleReport(j, sec) in earlier || RuleReport(j, sec) in rs;
      } else {
        assert last == earlier;
      }
    }
  }

  lemma ReportsAtRule(t: Setting, before: seq<S.Trigger>, n: nat, j: nat)
    requires ValidSetting(t) && 0 < n <= |t.runs| && Triggers(t, n - 1)
    ensures before + Triggered(t, n) != []
    ensures var rs := ReportsAt(t.image.rules[n - 1], t.sequences, before + Triggered(t, n), n - 1, t.e.clock(n - 1));
            forall sec :: RuleReport(j, sec) in rs <==>
              j == n - 1 && sec == t.e.clock(j).sec && !t.image.rules[j].isPrivate && !t.image.rules[j].inSequence
  {
    hide Triggers, S.Completed;
  }

  lemma {:induction false} CompletedExactly(sequences: seq<S.Spec>, history: seq<S.Trigger>, n: nat, i: nat)
    requires history != [] && n <= |sequences|
    ensures i in S.Completed(sequences, history, n) <==> i < n && S.Reported(sequences[i], history)
    decreases n
  {
    hide S.Reported;
    if n > 0 {
      CompletedExactly(sequences, history, n - 1, i);
    }
  }

  /** Rule `j` triggers, and completes sequence `i`. */
  ghost predicate Completes(t: Setting, before: seq<S.Trigger>, j: nat, i: nat)
    requires ValidSetting(t) && i < |t.sequences|
  {
    j < |t.runs| && Triggers(t, j) && before + Triggered(t, j + 1) != [] && S.Reported(t.sequences[i], before + Triggered(t, j + 1))
  }

  /** A sequence is reported for a second if and only if some rule that triggers in it, private or not, completes it. */
  lemma {:induction false} SequencesReported(t: Setting, before: seq<S.Trigger>, n: nat, i: nat, sec: nat)
    requires ValidSetting(t) && n <= |t.runs| && i < |t.sequences|
    ensures SequenceReport(i, sec) in Reports(t, before, n) <==>
            exists j :: 0 <= j < n && Completes(t, before, j, i) && sec == t.e.clock(j).sec
    decreases n
  {
    hide Triggers, ReportsAt, S.Completed, Completes;
    if n > 0 {
      SequencesReported(t, before, n - 1, i, sec);
      ReportsAtSequence(t, before, n, i);
      var last, earlier := Reports(t, before, n), Reports(t, before, n - 1);
      if Triggers(t, n - 1) {
        var rs := ReportsAt(t.image.rules[n - 1], t.sequences, before + Triggered(t, n), n - 1, t.e.clock(n - 1));
        assert last == earlier + rs;
        assert SequenceReport(i, sec) in last <==> SequenceReport(i, sec) in earlier || SequenceReport(i, sec) in rs;
      } else {
        assert last == earlier;
      }
      if j :| 0 <= j < n && Completes(t, before, j, i) && sec == t.e.clock(j).sec && j != n - 1 {
        assert 0 <= j < n - 1;
      }
    }
  }

  lemma ReportsAtSequence(t: Setting, before: seq<S.Trigger>, n: nat, i: nat)
    requires ValidSetting(t) && 0 < n <= |t.runs| && i < |t.sequences|
    ensures !Triggers(t, n - 1) ==> !Completes(t, before, n - 1, i)
    ensures Triggers(t, n - 1) ==>
              && before + Triggered(t, n) != []
              && var rs := ReportsAt(t.image.rules[n - 1], t.sequences, before + Triggered(t, n), n - 1, t.e.clock(n - 1));
                 forall sec :: SequenceReport(i, sec) in rs <==> sec == t.e.clock(n - 1).sec && Completes(t, before, n - 1, i)
  {
    hide Triggers, S.Completed, S.Reported;
    if Triggers(t, n - 1) {
      var history := before + Triggered(t, n);
      var completed, sec := S.Completed(t.sequences, history, |t.sequences|), t.e.clock(n - 1).sec;
      CompletedExactly(t.sequences, history, |t.sequences|, i);
      var rs := SequenceReports(completed, sec);
      if i in completed {
        var k :| 0 <= k < |completed| && completed[k] == i;
        assert rs[k] == SequenceReport(i, sec);
      }
    }
  }

  /** Report `q` comes behind report `p`: made by a later rule, or a sequence of the same rule, the sequences in the order of their table. */
  predicate Behind(p: Report, causeP: nat, q: Report, causeQ: nat) {
    causeP < causeQ || (causeP == causeQ && q.SequenceReport? && (p.SequenceReport? ==> p.sequence < q.sequence))
  }

  /** `causes` are the rules that made the reports, each among the first `n`; a report of a rule is made by the rule. */
  predicate InOrder(reports: seq<Report>, causes: seq<nat>, n: nat) {
    && |causes| == |reports|
    && (forall p :: 0 <= p < |reports| ==> causes[p] < n && (reports[p].RuleReport? ==> reports[p].rule == causes[p]))
    && (forall p, q :: 0 <= p < q < |reports| ==> Behind(reports[p], causes[p], reports[q], causes[q]))
  }

  predicate Ascends(c: seq<nat>, n: nat) {
    (forall a :: 0 <= a < |c| ==> c[a] < n) && forall a, b :: 0 <= a < b < |c| ==> c[a] < c[b]
  }

  lemma {:induction false} CompletedAscends(sequences: seq<S.Spec>, history: seq<S.Trigger>, n: nat)
    requires history != [] && n <= |sequences|
    ensures Ascends(S.Completed(sequences, history, n), n)
    decreases n
  {
    hide S.Reported;
    if n > 0 {
      CompletedAscends(sequences, history, n - 1);
      var most := S.Completed(sequences, history, n - 1);
      assert S.Completed(sequences, history, n) == if S.Reported(sequences[n - 1], history) then most + [n - 1] else most;
    }
  }

  lemma OneInOrder(entry: RuleEntry, sequences: seq<S.Spec>, history: seq<S.Trigger>, j: nat, at: S.Time)
    requires history != []
    ensures var rs := ReportsAt(entry, sequences, history, j, at); InOrder(rs, seq(|rs|, _ => j), j + 1)
  {
    CompletedAscends(sequences, history, |sequences|);
    hide S.Completed;
    SequencesInOrder(S.Completed(sequences, history, |sequences|), |sequences|, j, at.sec, if entry.isPrivate || entry.inSequence then [] else [RuleReport(j, at.sec)]);
  }

  lemma SequencesInOrder(completed: seq<nat>, n: nat, j: nat, sec: nat, first: seq<Report>)
    requires Ascends(completed, n) && (first == [] || first == [RuleReport(j, sec)])
    ensures var rs := first + SequenceReports(completed, sec); InOrder(rs, seq(|rs|, _ => j), j + 1)
  {
    var rs := first + SequenceReports(completed, sec);
    assert forall p :: |first| <= p < |rs| ==> rs[p] == SequenceReport(completed[p - |first|], sec);
  }

  lemma OrderAppends(r1: seq<Report>, c1: seq<nat>, n: nat, r2: seq<Report>, c2: seq<nat>)
    requires InOrder(r1, c1, n) && InOrder(r2, c2, n + 1) && forall q :: 0 <= q < |c2| ==> c2[q] == n
    ensures InOrder(r1 + r2, c1 + c2, n + 1)
  {
  }

  /** Reports come in the order of the rule table, a rule before the sequences it completes, and none is made twice. */
  lemma {:induction false} ReportsOrdered(t: Setting, before: seq<S.Trigger>, n: nat) returns (causes: seq<nat>)
    requires ValidSetting(t) && n <= |t.runs|
    ensures InOrder(Reports(t, before, n), causes, n)
    decreases n
  {
    hide Triggers, ReportsAt, S.Completed, InOrder;
    if n == 0 {
      causes := [];
      NoReports();
    } else {
      causes := ReportsOrdered(t, before, n - 1);
      if Triggers(t, n - 1) {
        OneInOrder(t.image.rules[n - 1], t.sequences, before + Triggered(t, n), n - 1, t.e.clock(n - 1));
        var rs := ReportsAt(t.image.rules[n - 1], t.sequences, before + Triggered(t, n), n - 1, t.e.clock(n - 1));
        OrderAppends(Reports(t, before, n - 1), causes, n - 1, rs, seq(|rs|, _ => n - 1));
        causes := causes + seq(|rs|, _ => n - 1);
      } else {
        OrderAppends(Reports(t, before, n - 1), causes, n - 1, [], []);
        assert Reports(t, before, n) == Reports(t, before, n - 1) + [];
        causes := causes + [];
      }
    }
  }

  lemma NoReports()
    ensures forall n :: InOrder([], [], n)
  {
  }

  /** The error returned is that of the last rule that errs. */
  lemma {:induction false} LastErrorExactly(t: Setting, n: nat)
    requires ValidSetting(t) && n <= |t.runs|
    ensures LastError(t, n) == 0 <==> forall j :: 0 <= j < n ==> !Errs(t, j)
    ensures forall j :: 0 <= j < n && Errs(t, j) && (forall k :: j < k < n ==> !Errs(t, k)) ==> LastError(t, n) == t.runs[j].error
    decreases n
  {
    if n > 0 {
      LastErrorExactly(t, n - 1);
    }
  }

  // ---------- errors fill the stack ----------

  /** `1 == (1 << 33)` */
  const LEAKY := Binary(EqualEqual, Lit(Integer(1)), Grouping(Binary(Shl, Lit(Integer(1)), Lit(Integer(33)), Number)), Number)

  lemma LeakyCode(mod: Option<string>, b: nat)
    ensures RuleCode(LEAKY, mod, None, b) == [I.PushInt(1), I.PushInt(1), I.PushInt(33), I.Apply2(I.Shl), I.Apply2(I.IntEq)] + [I.Halt]
  {
    var shift := LEAKY.right.inner;
    var left := [I.PushInt(1)];
    SizeStep(left);
    assert Code(LEAKY.left, mod, None, b) == left;
    assert Code(shift.left, mod, None, b + 5) == left && Code(shift.right, mod, None, b + 10) == [I.PushInt(33)];
    var right := Code(shift, mod, None, b + 5);
    assert right == left + [I.PushInt(33)] + [I.Apply2(I.Shl)];
    assert Code(LEAKY.right, mod, None, b + 5) == right;
    assert Code(LEAKY, mod, None, b) == left + right + [I.Apply2(I.IntEq)];
  }

  lemma LeakyPlaced(img: Image, w: World, j: nat)
    requires Linked(img, w) && j < |w.rules| && w.rules[j].body == LEAKY
    ensures |img.rules| == |w.rules| && var b := img.rules[j].codeOffset;
            && At(img, b, I.PushInt(1)) && At(img, b + 5, I.PushInt(1)) && At(img, b + 10, I.PushInt(33))
            && At(img, b + 15, I.Apply2(I.Shl))
  {
    hide I.Listed, I.Fetch, I.Size, GetString;
    var r, b := w.rules[j], img.rules[j].codeOffset;
    assert RuleLinked(img, r, img.rules[j]);
    LeakyCode(r.event, b);
    FiveInstructions(img, b, I.PushInt(1), I.PushInt(1), I.PushInt(33), I.Apply2(I.Shl), I.Apply2(I.IntEq), [I.Halt]);
  }

  /** Such a rule stops with an error, and leaves its left operand on the stack. */
  lemma LeakyLeaves(img: Image, w: World, j: nat, s: seq<Value>, k: nat)
    requires Linked(img, w) && j < |w.rules| && w.rules[j].body == LEAKY
    ensures |img.rules| == |w.rules| && var b := img.rules[j].codeOffset;
            && (|s| + 3 <= STACK_MAX ==> Exec(img, b, s, ZERO, k + 4) == Stop(ERROR_BAD_OPERAND, 0, s + [Num(1)], k))
            && (|s| + 2 == STACK_MAX ==> Exec(img, b, s, ZERO, k + 3) == Stop(0, ERROR_STACK_OVERFLOW, s + [Num(1)] + [Num(1)], k))
  {
    hide Exec, Linked, At, I.Fetch;
    LeakyPlaced(img, w, j);
    var b, one := img.rules[j].codeOffset, Num(1);
    var s2 := s + [one] + [one];
    if |s| + 3 <= STACK_MAX {
      PushStep(img, b, 1, s, ZERO, k + 3);
      PushStep(img, b + 5, 1, s + [one], ZERO, k + 2);
      PushStep(img, b + 10, 33, s2, ZERO, k + 1);
      ShiftErrs(img, b + 15, s + [one], k);
    } else if |s| + 2 == STACK_MAX {
      PushStep(img, b, 1, s, ZERO, k + 2);
      PushStep(img, b + 5, 1, s + [one], ZERO, k + 1);
      PushOverflows(img, b + 10, 33, s2, k);
    }
  }

  lemma ShiftErrs(img: Image, ip: nat, s: seq<Value>, k: nat)
    requires At(img, ip, I.Apply2(I.Shl))
    ensures Exec(img, ip, s + [Num(1)] + [Num(33)], ZERO, k + 1) == Stop(ERROR_BAD_OPERAND, 0, s, k)
  {
    DropTwo(s, Num(1), Num(33));
  }

  lemma PushOverflows(img: Image, ip: nat, n: word, s: seq<Value>, k: nat)
    requires At(img, ip, I.PushInt(n)) && |s| == STACK_MAX
    ensures Exec(img, ip, s, ZERO, k + 1) == Stop(0, ERROR_STACK_OVERFLOW, s, k)
  {
  }

  /** The stack after running the code at `b` on an empty one `n` times. */
  function StackAfter(img: Image, b: nat, n: nat): seq<Value> {
    if n == 0 then []
    else
      var o := Exec(img, b, StackAfter(img, b, n - 1), ZERO, 4);
      if o.Stop? then o.stack else StackAfter(img, b, n - 1)
  }

  lemma {:induction false} LeakyFills(img: Image, w: World, j: nat, n: nat)
    requires Linked(img, w) && j < |w.rules| && w.rules[j].body == LEAKY && n <= STACK_MAX - 2
    ensures |img.rules| == |w.rules| && |StackAfter(img, img.rules[j].codeOffset, n)| == n
    decreases n
  {
    hide Exec, Linked;
    if n == 0 {
      LeakyLeaves(img, w, j, [], 0);
    } else {
      LeakyFills(img, w, j, n - 1);
      LeakyLeaves(img, w, j, StackAfter(img, img.rules[j].codeOffset, n - 1), 0);
    }
  }

  /** After 255 events with such a rule the stack is full. */
  lemma FullStackReached(img: Image, w: World, j: nat)
    requires Linked(img, w) && j < |w.rules| && w.rules[j].body == LEAKY
    ensures |img.rules| == |w.rules| && |StackAfter(img, img.rules[j].codeOffset, STACK_MAX - 1)| == STACK_MAX
  {
    hide Exec, Linked;
    LeakyFills(img, w, j, STACK_MAX - 2);
    LeakyLeaves(img, w, j, StackAfter(img, img.rules[j].codeOffset, STACK_MAX - 2), 1);
  }

  /**
   * So in a program with such a rule there comes a point from which on every event for `false` reports it: on the
   * full stack every event ends with the stack full, and every due rule that begins with a constant triggers.
   */
  lemma FalseTriggers(img: Image, w: World, sequences: seq<S.Spec>, j: nat, i: nat, e: Event) returns (runs: seq<Ran>)
    requires Linked(img, w) && j < |w.rules| && w.rules[j].body == LEAKY
    requires EmittableWorld(w) && |img.rules| == |w.rules| && i < |w.rules| && w.rules[i].body == Lit(Boolean(false)) && Due(img.rules[i], e)
    requires forall k :: 0 <= k < |w.rules| && Due(img.rules[k], e) ==> FullEnd(w, k).Some?
    ensures var s := StackAfter(img, img.rules[j].codeOffset, STACK_MAX - 1); var t := Setting(img, sequences, e, runs);
            |s| == STACK_MAX && |runs| == |img.rules| && Halting(t, s) && Triggers(t, i) && StackBefore(t, s, |runs|) == s
  {
    hide Exec, Linked, StackAfter, Due;
    FullStackReached(img, w, j);
    runs := FullEvent(img, w, sequences, e, StackAfter(img, img.rules[j].codeOffset, STACK_MAX - 1), |img.rules|);
  }
}
