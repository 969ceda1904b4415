/**
 * What the checker takes on trust.  For each condition of `Proper` there is a family of bodies that the
 * checker accepts without it, and a statement of how the machine then goes wrong; loops inside loops have
 * a module of their own.
 */
module Limits {
  import opened Words
  import opened Wrappers
  import opened CStrings
  import opened Ast
  import opened Machine
  import opened Semantics
  import opened Checker
  import opened Soundness
  import opened Codegen
  import opened Correctness
  import I = Instructions

  // ---------- paths that go on behind a scalar ----------

  /** A path continued past a scalar is accepted with that scalar's type; the rest of it is not looked at. */
  lemma PathPastScalar(sc: Scope, e: Expr, name: string, flags: set<Flag>)
    requires Trace(sc, e).reach.Scalar?
    ensures Resolve(sc, Field(e, name, flags)) == Checked(Trace(sc, e).reach.tag, Field(Trace(sc, e).path, name, flags))
    ensures !Proper(sc, Field(e, name, flags))
  {
    hide Trace;
    PastScalarTraced(sc, e, name, flags);
  }

  lemma PastScalarTraced(sc: Scope, e: Expr, name: string, flags: set<Flag>)
    requires Trace(sc, e).reach.Scalar?
    ensures Trace(sc, Field(e, name, flags)) == Traced(Trace(sc, e).reach, Field(Trace(sc, e).path, name, flags))
  {
  }

  /** It faults whenever the path up to the scalar yields a value: a field is taken of a number or a string. */
  lemma PathPastScalarFaults(sc: Scope, w: World, n: nat, mod: Option<string>, iter: Option<string>, e: Expr, name: string, flags: set<Flag>, regs: Registers)
    requires InScope(sc, w, n, mod, iter) && ProperPath(sc, e) && (iter.Some? ==> !HasRange(e)) && Numeric(regs)
    requires EmittableWorld(w) && Trace(sc, e).reach.Scalar?
    ensures var p := Trace(sc, e).path;
            && Emittable(p) && Emittable(Field(p, name, flags))
            && var v := Eval(w, n, mod, iter, p, regs);
               Eval(w, n, mod, iter, Field(p, name, flags), regs) == if v.Val? then Lost(WrongKind) else v
  {
    hide InScope, StructConforms, ValueConforms, FieldConforms, EmittableWorld, EvalRule, IndexOf, Trace, ProperPath;
    SoundPath(sc, w, n, mod, iter, e, regs);
  }

  /** The same holds of a path that goes on with an index. */
  lemma IndexPastScalar(sc: Scope, e: Expr, name: string, flags: set<Flag>, i: Expr)
    requires Trace(sc, e).reach.Scalar? && Resolve(sc, i).tag == Number
    ensures Resolve(sc, Index(Field(e, name, flags), i)).tag == Trace(sc, e).reach.tag
    ensures Trace(sc, Index(Field(e, name, flags), i)).path == Index(Field(Trace(sc, e).path, name, flags), i)
    ensures !Proper(sc, Index(Field(e, name, flags), i))
  {
    hide Proper;
    var at := Index(Field(e, name, flags), i);
    assert Trace(sc, at) == Traced(Trace(sc, e).reach, Index(Field(Trace(sc, e).path, name, flags), i));
    IndexNotProper(sc, e, name, flags, i);
  }

  lemma IndexNotProper(sc: Scope, e: Expr, name: string, flags: set<Flag>, i: Expr)
    requires Trace(sc, e).reach.Scalar?
    ensures !Proper(sc, Index(Field(e, name, flags), i))
  {
  }

  lemma IndexPastScalarFaults(sc: Scope, w: World, n: nat, mod: Option<string>, iter: Option<string>, e: Expr, name: string, flags: set<Flag>,
                              i: Expr, regs: Registers)
    requires InScope(sc, w, n, mod, iter) && ProperPath(sc, e) && (iter.Some? ==> !HasRange(e)) && Numeric(regs)
    requires EmittableWorld(w) && Trace(sc, e).reach.Scalar? && Emittable(i)
    ensures var p := Trace(sc, e).path;
            && Emittable(p) && Emittable(Index(Field(p, name, flags), i))
            && var v := Eval(w, n, mod, iter, p, regs);
               Eval(w, n, mod, iter, Index(Field(p, name, flags), i), regs) == if v.Val? then Lost(WrongKind) else v
  {
    hide InScope, StructConforms, ValueConforms, FieldConforms, EmittableWorld, EvalRule, IndexOf, Trace, ProperPath;
    PathPastScalarFaults(sc, w, n, mod, iter, e, name, flags, regs);
  }

  // ---------- indexes inside a path ----------

  /** `base[i].last` */
  function Inside(base: Expr, i: Expr, last: string, flags: set<Flag>): Expr {
    Field(Index(base, i), last, flags)
  }

  /** An index that is followed by a field is not looked at: whatever it is, the type is the same, and it is not annotated. */
  lemma UncheckedIndex(sc: Scope, base: Expr, i: Expr, j: Expr, last: string, flags: set<Flag>)
    requires base.Field?
    ensures Resolve(sc, Inside(base, i, last, flags)).tag == Resolve(sc, Inside(base, j, last, flags)).tag
    ensures var t := Trace(sc, Index(base, i)); t.reach == Trace(sc, Index(base, j)).reach && t.path.Index? && t.path.index == i
  {
    var a, b := Trace(sc, Index(base, i)), Trace(sc, Index(base, j));
    assert a.reach == b.reach;
    assert Trace(sc, Inside(base, i, last, flags)).reach == Trace(sc, Inside(base, j, last, flags)).reach;
  }

  /** The array and the index yield values, and the index is no number. */
  ghost predicate NoNumber(w: World, n: nat, mod: Option<string>, iter: Option<string>, base: Expr, i: Expr, regs: Registers)
    requires EmittableWorld(w) && Emittable(base) && Emittable(i)
  {
    var a := Eval(w, n, mod, iter, base, regs);
    a.Val? && a.value.Obj? && var k := Eval(w, n, mod, IterAfter(base, iter), i, a.regs); k.Val? && !k.value.Num?
  }

  /** An index that is no number faults whenever the array and the index yield values. */
  lemma UncheckedIndexFaults(w: World, n: nat, mod: Option<string>, iter: Option<string>, base: Expr, i: Expr, last: string, flags: set<Flag>, regs: Registers)
    requires EmittableWorld(w) && Emittable(base) && Emittable(i) && NoNumber(w, n, mod, iter, base, i, regs)
    ensures var e := Inside(base, i, last, flags); Emittable(e) && Eval(w, n, mod, iter, e, regs) == Lost(WrongKind)
  {
    hide EvalRule, EmittableWorld, IndexOf;
  }

  const SIZES := Schema({OfArray, OfInteger}, map[], [])
  const TITLE := Schema({OfString}, map[], [])
  const SECTIONS := Schema({OfArray, OfStruct}, map["name" := TITLE], [])
  const CHECK := Schema({OfFunction, OfInteger}, map[], [Number])
  const FILE := Schema({OfStruct}, map["sizes" := SIZES, "sections" := SECTIONS, "check" := CHECK], [])

  const ENV: Environment := map["file" := OtherName]
  const SCOPE := Scope(ENV, None, Some("file"), Some(FILE))

  /** `file.sections[file.sizes[i]].name`, where the inner access is annotated with `flags` */
  function SectionOf(i: Expr, flags: set<Flag>, outer: set<Flag>, last: set<Flag>): Expr {
    Inside(Field(Ref("file"), "sections", outer), Index(Field(Ref("file"), "sizes", flags), i), "name", last)
  }

  /** An inner index of the right type is accepted without the annotation its code needs. */
  lemma BareIndexAccepted(i: Expr)
    requires Resolve(SCOPE, i).tag == Number
    ensures Resolve(SCOPE, Index(Field(Ref("file"), "sizes", {}), i)).tag == Number
    ensures Resolve(SCOPE, SectionOf(i, {}, {}, {})) == Checked(String, SectionOf(i, {}, SECTIONS.flags, {OfString}))
    ensures !Proper(SCOPE, SectionOf(i, {}, {}, {}))
  {
    var sizes, sections := Field(Ref("file"), "sizes", {}), Field(Ref("file"), "sections", {});
    assert Trace(SCOPE, Ref("file")) == Traced(Container(FILE), Ref("file"));
    assert Trace(SCOPE, Index(sizes, i)) == Traced(Checker.Scalar(Number), Index(sizes.(fieldType := SIZES.flags), i));
    var inner := Index(sizes, i);
    assert Trace(SCOPE, Index(sections, inner)) == Traced(Container(SECTIONS), Index(sections.(fieldType := SECTIONS.flags), inner));
    BareIndexNotProper(i);
  }

  lemma BareIndexNotProper(i: Expr)
    requires Resolve(SCOPE, i).tag == Number
    ensures !Proper(SCOPE, SectionOf(i, {}, {}, {}))
  {
    var sizes := Field(Ref("file"), "sizes", {});
    var inner := Index(sizes, i);
    var r := Resolve(SCOPE, inner).expr;
    assert Trace(SCOPE, Ref("file")) == Traced(Container(FILE), Ref("file"));
    assert Trace(SCOPE, inner) == Traced(Checker.Scalar(Number), Index(sizes.(fieldType := SIZES.flags), i));
    assert r.Index? && r.indexed == sizes.(fieldType := SIZES.flags);
    assert Canon(r.indexed) == sizes.(fieldType := {OfArray}) && Canon(sizes) == sizes;
    assert Canon(r) == Index(Canon(r.indexed), Canon(r.index)) && Canon(inner) == Index(Canon(sizes), Canon(i));
    assert Canon(r) != Canon(inner);
    var at := Index(Field(Ref("file"), "sections", {}), inner);
    assert !ProperPath(SCOPE, at);
  }

  /** Its code then unwraps the inner array as if it were a value: it faults for every `i`. */
  lemma BareIndexFaults(w: World, n: nat, i: Expr, regs: Registers)
    requires EmittableWorld(w) && Emittable(i) && "file" in w.objects && StructConforms(w.objects["file"], FILE, w.externals)
    ensures var e := SectionOf(i, {}, SECTIONS.flags, {OfString}); Emittable(e) && Eval(w, n, Some("file"), None, e, regs) == Lost(WrongKind)
  {
    hide EvalRule, EmittableWorld, StructConforms, IndexOf;
    var file, module_ := Obj(w.objects["file"]), Ref("file");
    assert Emittable(module_) && Eval(w, n, Some("file"), None, module_, regs) == Val(file, regs);
    AccessGood(file, "sections", FILE, w.externals);
    SizesNoValue(w.objects["file"], w.externals);
    var sections, sizes := Field(module_, "sections", SECTIONS.flags), Field(module_, "sizes", {});
    assert Emittable(sections) && Eval(w, n, Some("file"), None, sections, regs) == Val(Access(file, "sections", SECTIONS.flags).value, regs);
    assert Emittable(sizes) && Eval(w, n, Some("file"), None, sizes, regs) == Lost(WrongKind);
    assert Emittable(Index(sizes, i)) && Eval(w, n, Some("file"), None, Index(sizes, i), regs) == Lost(WrongKind);
    assert Eval(w, n, Some("file"), None, Index(sections, Index(sizes, i)), regs) == Lost(WrongKind);
  }

  lemma SizesNoValue(o: Object, x: Externals)
    requires StructConforms(o, FILE, x)
    ensures Access(Obj(o), "sizes", {}) == Crash(WrongKind)
  {
    assert FieldConforms(o.fields["sizes"], SIZES, x);
  }

  // ---------- the number of arguments ----------

  /** `module.name(args)` */
  function CallOf(module_: string, name: string, args: seq<Expr>, flags: set<Flag>): Expr {
    Call(Field(Ref(module_), name, flags), args)
  }

  /**
   * Every wrong number of arguments is accepted, too many, too few and none, if only each has a type: the path
   * goes on from the result, or ends in it if it is a scalar.
   */
  lemma WrongArity(sc: Scope, module_: string, name: string, args: seq<Expr>)
    requires sc.mod.Some? && sc.event == Some(module_) && name in sc.mod.value.fields && ResolveAll(sc, args).Some?
    requires var f := sc.mod.value.fields[name]; OfFunction in f.flags && !Enter(f).Failed? && |args| != |f.params|
    ensures var f := sc.mod.value.fields[name]; var call := CallOf(module_, name, Exprs(ResolveAll(sc, args).value), f.flags);
            && Trace(sc, CallOf(module_, name, args, {})) == Traced(Enter(f), call)
            && (Enter(f).Scalar? ==> Resolve(sc, CallOf(module_, name, args, {})) == Checked(ScalarTag(f.flags), call))
    ensures !ProperPath(sc, CallOf(module_, name, args, {})) && !Proper(sc, CallOf(module_, name, args, {}))
  {
    hide ResolveAll;
    assert Trace(sc, Ref(module_)) == Traced(Container(sc.mod.value), Ref(module_));
  }

  /** A function without parameters cannot be called at all: the call without arguments is refused. */
  lemma EmptyCallRefused(sc: Scope, module_: string, name: string)
    requires sc.mod.Some? && sc.event == Some(module_) && name in sc.mod.value.fields && sc.mod.value.fields[name].params == []
    ensures Resolve(sc, CallOf(module_, name, [], {})).tag == Eof
  {
    assert ResolveAll(sc, []) == Some([]) && Tags([]) == [];
    assert Trace(sc, Ref(module_)) == Traced(Container(sc.mod.value), Ref(module_));
    assert !ValidCall([], []);
    assert Trace(sc, CallOf(module_, name, [], {})).reach == Checker.Reach.Failed;
  }

  /** The machine passes on what it is given. */
  lemma WrongArityRuns(w: World, n: nat, mod: Option<string>, iter: Option<string>, callee: Expr, args: seq<Expr>, regs: Registers)
    requires EmittableWorld(w) && Emittable(callee) && AllEmittable(args)
    requires EvalAll(w, n, mod, iter, args, regs).Vals?
    requires var vs := EvalAll(w, n, mod, iter, args, regs); Eval(w, n, mod, IterAfterAll(args, iter), callee, vs.registers).Val?
    ensures var vs := EvalAll(w, n, mod, iter, args, regs); var c := Eval(w, n, mod, IterAfterAll(args, iter), callee, vs.registers);
            |vs.values| == |args| && Eval(w, n, mod, iter, Call(callee, args), regs) == FromComputed(Invoke(w.externals, c.value, vs.values), c.regs)
  {
    hide EvalRule, EmittableWorld, IndexOf;
  }

  /** A function of one number that answers with a string when it is given anything else. */
  const STRICT := Externals(
    (m: word, p: string, s: string) => false,
    (entry: nat, args: seq<Value>) => if |args| == 1 && args[0].Num? then Returned(Num(0)) else Returned(Str("")))

  const CHECK_OBJECT := Object(CHECK.flags, map[], Payload.Scalar(Num(0)), 0)
  const MODULE := Schema({OfStruct}, map["check" := CHECK], [])
  const MODULE_OBJECT := Object({OfStruct}, map["check" := CHECK_OBJECT], Payload.Scalar(Num(0)), 0)

  lemma StrictConforms()
    ensures StructConforms(MODULE_OBJECT, MODULE, STRICT)
  {
    forall args: seq<Value> | AllKinds(args, CHECK.params)
      ensures var r := STRICT.call(0, args); r.Returned? ==> ValueConforms(r.result, CHECK, STRICT)
    {
      assert KindOk(args[0], CHECK.params[0]);
    }
    assert FieldConforms(CHECK_OBJECT, CHECK, STRICT);
  }

  /** `file.check()` is accepted for a function of one number; the machine then compares a string with a number. */
  lemma MissingArgumentFaults(w: World, n: nat, regs: Registers)
    requires EmittableWorld(w) && w.objects == map["file" := MODULE_OBJECT] && w.externals == STRICT
    ensures var sc := Scope(ENV, None, Some("file"), Some(MODULE));
            && AcceptsBody(sc, Binary(EqualEqual, CallOf("file", "check", [], {}), Int(0), Unset))
            && var e := Resolve(sc, Binary(EqualEqual, CallOf("file", "check", [], {}), Int(0), Unset)).expr;
               Emittable(e) && Eval(w, n, Some("file"), None, e, regs) == Lost(WrongKind)
    ensures StructConforms(w.objects["file"], MODULE, w.externals)
  {
    hide EvalRule, EmittableWorld, StructConforms, IndexOf, Resolve;
    StrictConforms();
    MissingArgumentAccepted();
    MissingArgumentValue(w, n, regs);
    assert Emittable(Int(0)) && Eval(w, n, Some("file"), None, Int(0), regs) == Val(Num(0), regs);
  }

  lemma MissingArgumentAccepted()
    ensures var sc := Scope(ENV, None, Some("file"), Some(MODULE)); var call := Call(Field(Ref("file"), "check", CHECK.flags), []);
            Resolve(sc, Binary(EqualEqual, CallOf("file", "check", [], {}), Int(0), Unset)) == Checked(True, Binary(EqualEqual, call, Int(0), Number))
  {
    hide Proper, ProperPath, Trace;
    var sc, callee := Scope(ENV, None, Some("file"), Some(MODULE)), Field(Ref("file"), "check", CHECK.flags);
    assert ResolveAll(sc, []) == Some([]) && Exprs([]) == [];
    WrongArity(sc, "file", "check", []);
    assert Resolve(sc, CallOf("file", "check", [], {})) == Checked(Number, Call(callee, [])) && Resolve(sc, Int(0)) == Checked(Number, Int(0));
  }

  lemma MissingArgumentValue(w: World, n: nat, regs: Registers)
    requires EmittableWorld(w) && w.objects == map["file" := MODULE_OBJECT] && w.externals == STRICT
    ensures var call := Call(Field(Ref("file"), "check", CHECK.flags), []);
            Emittable(call) && Eval(w, n, Some("file"), None, call, regs) == Val(Str(""), regs)
  {
    hide EvalRule, EmittableWorld, IndexOf;
    var callee := Field(Ref("file"), "check", CHECK.flags);
    assert Emittable(Ref("file")) && Eval(w, n, Some("file"), None, Ref("file"), regs) == Val(Obj(MODULE_OBJECT), regs);
    assert Emittable(callee) && Eval(w, n, Some("file"), None, callee, regs) == Val(Obj(CHECK_OBJECT), regs);
    assert EvalAll(w, n, Some("file"), None, [], regs) == Vals([], regs);
  }

  // ---------- a regex beside another operator than `matches` ----------

  lemma {:induction false} RegexTag(sc: Scope, e: Expr)
    requires IsRegex(Strip(e))
    ensures Resolve(sc, e) == Checked(Regex, e) && !Proper(sc, e)
    decreases e
  {
    if e.Grouping? {
      RegexTag(sc, e.inner);
    }
  }

  /** A string may be compared with a regex by every operator that compares strings. */
  lemma ComparedRegex(sc: Scope, op: BinOp, left: Expr, right: Expr)
    requires Resolve(sc, left).tag == String && IsRegex(Strip(right)) && op != Matches && BinaryTag(op, String, Regex) != Eof
    ensures Resolve(sc, Binary(op, left, right, Unset)) == Checked(True, Binary(op, Resolve(sc, left).expr, right, String))
    ensures !Proper(sc, Binary(op, left, right, Unset))
  {
    RegexTag(sc, right);
  }

  lemma ComparedRegexCode(mod: Option<string>, iter: Option<string>, op: BinOp, left: Expr, right: Expr, b: nat)
    requires IsRegex(Strip(right)) && op != Matches && op != And
    ensures var l := Strip(right).literal;
            Code(Binary(op, left, right, String), mod, iter, b) ==
            Code(left, mod, iter, b) + [I.PushString(l.pattern), I.PushInt(l.modifiers), BinaryInstr(op, String)]
  {
    var x := Code(left, mod, iter, b);
    StripCode(right, mod, IterAfter(left, iter), b + I.Size(x));
  }

  /**
   * Whatever the operator and the left operand, it faults whenever the operand yields a value: the literal
   * leaves two values, and the operator compares the pattern with the flags.
   */
  lemma ComparedRegexFaults(img: Image, w: World, n: nat, mod: Option<string>, iter: Option<string>, op: BinOp, left: Expr, right: Expr,
                            b: nat, s: seq<Value>, regs: Registers) returns (f: nat)
    requires op != Matches && BinaryTag(op, String, Regex) != Eof && IsRegex(Strip(right))
    requires Linked(img, w) && EmittableWorld(w) && Emittable(left) && b <= |img.code|
    requires ListedIn(img, b, Code(Binary(op, left, right, String), mod, iter, b))
    requires |s| + Depth(w, n, mod, iter, left) <= STACK_MAX && |s| + 3 <= STACK_MAX
    requires Eval(w, n, mod, iter, left, regs).Val?
    ensures Exec(img, b, s, regs, f) == Fault(WrongKind)
  {
    hide Exec, Linked, I.Listed, I.Fetch, I.Size, Eval, Depth, EmittableWorld, Emittable, Code;
    var x, l := Code(left, mod, iter, b), Strip(right).literal;
    var i, j, o := I.PushString(l.pattern), I.PushInt(l.modifiers), BinaryInstr(op, String);
    ComparedRegexCode(mod, iter, op, left, right, b);
    Split(img, b, x, [i, j, o]);
    ThreeInstructions(img, b + I.Size(x), i, j, o);
    var v := Eval(w, n, mod, iter, left, regs);
    RegexSteps(img, b + I.Size(x), op, l, s, v.value, v.regs);
    f := Compiled(img, w, n, mod, iter, left, b, s, regs, 3);
  }

  lemma RegexSteps(img: Image, p: nat, op: BinOp, l: Literal, s: seq<Value>, v: Value, regs: Registers)
    requires op != Matches && BinaryTag(op, String, Regex) != Eof && l.Pattern? && |s| + 3 <= STACK_MAX
    requires At(img, p, I.PushString(l.pattern)) && At(img, p + 5, I.PushInt(l.modifiers)) && At(img, p + 10, BinaryInstr(op, String))
    ensures Exec(img, p, s + [v], regs, 3) == Fault(WrongKind)
  {
    hide Exec, At;
    var t := s + [v];
    Fire(img, p, I.PushString(l.pattern), t, regs, 2);
    Fire(img, p + 5, I.PushInt(l.modifiers), t + [Str(l.pattern)], regs, 1);
    MixedFaults(img, p + 10, op, t, Str(l.pattern), Num(l.modifiers), regs);
  }

  lemma MixedFaults(img: Image, p: nat, op: BinOp, t: seq<Value>, x: Value, y: Value, regs: Registers)
    requires op != Matches && BinaryTag(op, String, Regex) != Eof && x.Str? && y.Num? && At(img, p, BinaryInstr(op, String))
    ensures Exec(img, p, t + [x] + [y], regs, 1) == Fault(WrongKind)
  {
    hide Exec, At;
    DropTwo(t, x, y);
    Fire(img, p, BinaryInstr(op, String), t + [x] + [y], regs, 0);
  }

  // ---------- rules that refer to themselves ----------

  /** A rule may refer to itself as far as the checker is concerned: its own name is in scope by then. */
  lemma SelfReferenceAccepted(sc: Scope, name: string)
    requires sc.self == Some(name) && name in sc.env && sc.env[name].RuleName? && sc.env[name].event == sc.event
    ensures AcceptsBody(sc, Ref(name)) && !Proper(sc, Ref(name))
  {
  }

  /** Such a rule never ends, whatever the stack: nothing counts the nesting. */
  lemma {:induction false} SelfReferenceNeverEnds(img: Image, w: World, j: nat, s: seq<Value>, fuel: nat)
    requires Linked(img, w) && |img.rules| == |w.rules| && j < |w.rules|
    requires var r := w.rules[j]; r.body == Ref(r.ruleName) && r.event.Some? && r.event != Some(r.ruleName) && IndexOf(w.rules, r.ruleName) == Some(j)
    ensures Exec(img, img.rules[j].codeOffset, s, ZERO, fuel) == OutOfFuel
    decreases fuel
  {
    hide I.Fetch, Linked, FindRuleFrom, IndexFrom;
    if fuel > 0 {
      SelfReferencePlaced(img, w, j);
      FindLinked(img, w, w.rules[j].ruleName, 0);
      SelfReferenceNeverEnds(img, w, j, s, fuel - 1);
    }
  }

  lemma SelfReferencePlaced(img: Image, w: World, j: nat)
    requires Linked(img, w) && |img.rules| == |w.rules| && j < |w.rules|
    requires var r := w.rules[j]; r.body == Ref(r.ruleName) && r.event.Some? && r.event != Some(r.ruleName)
    ensures At(img, img.rules[j].codeOffset, I.RunRule(w.rules[j].ruleName))
  {
    hide I.Fetch, I.Listed, GetString;
    var r, b := w.rules[j], img.rules[j].codeOffset;
    assert RuleLinked(img, r, img.rules[j]);
    assert RuleCode(r.body, r.event, None, b) == [I.RunRule(r.ruleName)] + [I.Halt];
    Head(img, b, I.RunRule(r.ruleName), [I.Halt]);
  }

  // ---------- the operators that do not short-circuit ----------

  /** `and` skips its right operand after a false one, `or` evaluates both: only one of the two survives `1 / 0`. */
  lemma OnlyAndShortCircuits(w: World, n: nat, mod: Option<string>, regs: Registers)
    requires EmittableWorld(w)
    ensures var bad := Binary(EqualEqual, Binary(Div, Int(1), Int(0), Number), Int(1), Number);
            && Emittable(bad)
            && Eval(w, n, mod, None, Binary(And, Lit(Boolean(false)), bad, False), regs) == Val(Num(0), regs)
            && Eval(w, n, mod, None, Binary(Or, Lit(Boolean(true)), bad, True), regs) == Lost(UndefinedArithmetic)
  {
    hide EvalRule, EmittableWorld, IndexOf;
    var div := Binary(Div, Int(1), Int(0), Number);
    var bad := Binary(EqualEqual, div, Int(1), Number);
    assert Eval(w, n, mod, None, Int(1), regs) == Val(Num(1), regs);
    assert Emittable(Int(0)) && Eval(w, n, mod, None, Int(0), regs) == Val(Num(0), regs);
    assert Eval(w, n, mod, None, div, regs) == Lost(UndefinedArithmetic);
    assert Eval(w, n, mod, None, bad, regs) == Lost(UndefinedArithmetic);
    assert Eval(w, n, mod, None, Lit(Boolean(true)), regs) == Val(Num(1), regs);
    assert Eval(w, n, mod, None, Lit(Boolean(false)), regs) == Val(Num(0), regs);
  }
}
