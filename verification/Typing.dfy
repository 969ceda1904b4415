/**
 * A typing relation for rule bodies, independent of the checker: operators by the types of their operands,
 * paths and calls by the declarations of the modules, loops by the numbers that bound them.  What is typed is
 * accepted, with that type; and what is accepted and proper is typed.
 */
module Typing {
  import opened Wrappers
  import opened Ast
  import opened Checker
  import opened Soundness

  datatype Type = Logical | Numeric | Textual | Matching

  // ---------- the relation ----------

  /** The type of a plain field or of an array element, by its mask. */
  predicate MaskType(flags: set<Flag>, t: Type) {
    match t
    case Textual => OfString in flags
    case Numeric => OfInteger in flags && OfString !in flags
    case Logical => OfBoolean in flags && OfInteger !in flags && OfString !in flags
    case Matching => false
  }

  /** A declared parameter takes arguments of the type. */
  predicate ParameterType(p: Tag, t: Type) {
    match t
    case Textual => p == String
    case Numeric => p == Number
    case Logical => p == True
    case Matching => false
  }

  predicate BinaryType(op: BinOp, t1: Type, t2: Type, t: Type) {
    || (op in {Plus, Minus, Mult, Div, Mod, Shl, Shr, BitAnd, BitXor, Pipe} && t1 == Numeric && t2 == Numeric && t == Numeric)
    || (op in {Greater, GreaterEqual, Less, LessEqual} && t1 == Numeric && t2 == Numeric && t == Logical)
    || (op in {And, Or} && t1 == Logical && t2 == Logical && t == Logical)
    || (op in {EqualEqual, BangEqual} && t1 == t2 && t1 != Matching && t == Logical)
    || (op in {Contains, IContains, StartsWith, IStartsWith, EndsWith, IEndsWith, IEquals} && t1 == Textual && t2 == Textual && t == Logical)
    || (op == Matches && t1 == Textual && t2 == Matching && t == Logical)
  }

  predicate UnaryType(op: UnOp, t1: Type, t: Type) {
    || (op in {Bang, Not} && t1 == Logical && t == Logical)
    || (op in {UnOp.BitNot, Negate} && t1 == Numeric && t == Numeric)
    || (op == Hash && t1 == Textual && t == Numeric)
  }

  /** `e` has type `t` in scope `sc`. */
  ghost predicate Typed(sc: Scope, e: Expr, t: Type)
    decreases e, 1
  {
    match e
    case Lit(l) => LiteralTyped(sc, l, t)
    case Grouping(i) => Typed(sc, i, t)
    case Unary(op, r) => exists t1 :: UnaryType(op, t1, t) && Typed(sc, r, t1)
    case Binary(op, l, r, _) => exists t1, t2 :: BinaryType(op, t1, t2, t) && Typed(sc, l, t1) && Typed(sc, r, t2)
    case Range(_, x, s, u, c) =>
      && t == Logical && Typed(sc, s, Numeric) && Typed(sc, u, Numeric)
      && x !in sc.env && Typed(sc.(env := sc.env[x := Variable]), c, Logical)
    case Field(o, name, _) => exists s :: Leads(sc, o, s) && FieldTyped(s, name, t)
    case Index(a, i) => a.Field? && Typed(sc, i, Numeric) && exists s :: Leads(sc, a.owner, s) && ElementTyped(s, a.fieldName, t)
    case Call(f, args) => exists s :: Callable(sc, f, s) && ArgumentsTyped(sc, args, s.params) && OfStruct !in s.flags && MaskType(s.flags, t)
    case Null => false
  }

  /** An identifier is a rule of the same event or a loop variable. */
  predicate LiteralTyped(sc: Scope, l: Literal, t: Type) {
    match l
    case Integer(_) => t == Numeric
    case Text(_) => t == Textual
    case Pattern(_, _) => t == Matching
    case Boolean(_) => t == Logical
    case Identifier(x) =>
      && x in sc.env
      && ((t == Logical && sc.env[x].RuleName? && sc.env[x].event == sc.event) || (t == Numeric && sc.env[x].Variable?))
  }

  /** A field that is no array, no struct and no function. */
  predicate FieldTyped(s: Schema, name: string, t: Type) {
    name in s.fields && var f := s.fields[name].flags; OfArray !in f && OfStruct !in f && OfFunction !in f && MaskType(f, t)
  }

  predicate ElementTyped(s: Schema, name: string, t: Type) {
    name in s.fields && var f := s.fields[name].flags; OfArray in f && OfStruct !in f && MaskType(f, t)
  }

  /** The path leads to the module of the event, to a struct in an array or to a struct that a function returns. */
  ghost predicate Leads(sc: Scope, e: Expr, s: Schema)
    decreases e, 0
  {
    match e
    case Lit(l) => l.Identifier? && sc.event == Some(l.name) && sc.mod == Some(s)
    case Index(a, i) =>
      && a.Field? && Typed(sc, i, Numeric)
      && exists p :: Leads(sc, a.owner, p) && a.fieldName in p.fields && s == p.fields[a.fieldName] && OfArray in s.flags && OfStruct in s.flags
    case Call(f, args) => Callable(sc, f, s) && ArgumentsTyped(sc, args, s.params) && OfStruct in s.flags
    case _ => false
  }

  /** A function of the module itself. */
  predicate Callable(sc: Scope, f: Expr, s: Schema) {
    && f.Field? && f.owner.Lit? && f.owner.literal.Identifier?
    && sc.event == Some(f.owner.literal.name) && sc.mod.Some?
    && f.fieldName in sc.mod.value.fields && s == sc.mod.value.fields[f.fieldName] && OfFunction in s.flags
  }

  /** At least one argument, and each of the type of its parameter. */
  ghost predicate ArgumentsTyped(sc: Scope, args: seq<Expr>, params: seq<Tag>)
    decreases args, 2
  {
    args != [] && AllTyped(sc, args, params)
  }

  ghost predicate AllTyped(sc: Scope, args: seq<Expr>, params: seq<Tag>)
    decreases args, 1
  {
    |args| == |params| && (args == [] || ((exists t :: ParameterType(params[0], t) && Typed(sc, args[0], t)) && AllTyped(sc, args[1..], params[1..])))
  }

  // ---------- what is typed is accepted ----------

  /** The type the checker computed is the given one. */
  predicate HasTag(tag: Tag, t: Type) {
    match t
    case Logical => tag == True || tag == False
    case Numeric => tag == Number
    case Textual => tag == String
    case Matching => tag == Regex
  }

  /** A path to a plain value. */
  ghost predicate Reaches(sc: Scope, e: Expr, t: Type) {
    Trace(sc, e).reach.Scalar? && HasTag(Trace(sc, e).reach.tag, t)
  }

  lemma OperationTyped(op: BinOp, tag1: Tag, tag2: Tag, t1: Type, t2: Type, t: Type)
    requires BinaryType(op, t1, t2, t) && HasTag(tag1, t1) && HasTag(tag2, t2)
    ensures HasTag(OperationTag(op, tag1, tag2), t)
  {
  }

  lemma UnaryTyped(op: UnOp, tag: Tag, t1: Type, t: Type)
    requires UnaryType(op, t1, t) && HasTag(tag, t1)
    ensures HasTag(UnaryTag(op, tag), t)
  {
  }

  /** Completeness: a typed expression is accepted with its type. */
  lemma {:induction false} Complete(sc: Scope, e: Expr, t: Type)
    requires Typed(sc, e, t)
    ensures HasTag(Resolve(sc, e).tag, t)
    decreases e, 2
  {
    hide OperationTag, UnaryTag, BinaryType, UnaryType, HasTag, Trace, Leads;
    match e
    case Lit(_) => LiteralComplete(sc, e, t);
    case Grouping(i) => Complete(sc, i, t);
    case Unary(op, r) =>
      var t1 :| UnaryType(op, t1, t) && Typed(sc, r, t1);
      Complete(sc, r, t1);
      UnaryTyped(op, Resolve(sc, r).tag, t1, t);
    case Binary(op, l, r, _) =>
      var t1, t2 :| BinaryType(op, t1, t2, t) && Typed(sc, l, t1) && Typed(sc, r, t2);
      Complete(sc, l, t1);
      Complete(sc, r, t2);
      OperationTyped(op, Resolve(sc, l).tag, Resolve(sc, r).tag, t1, t2, t);
    case Range(_, x, s, u, c) =>
      Complete(sc, s, Numeric);
      Complete(sc, u, Numeric);
      Complete(sc.(env := sc.env[x := Variable]), c, Logical);
      RangeTag(sc, e);
    case Index(_, i) =>
      Complete(sc, i, Numeric);
      PathComplete(sc, e, t);
      IndexTag(sc, e, t);
    case _ =>
      PathComplete(sc, e, t);
      PathTag(sc, e, t);
  }

  lemma LiteralComplete(sc: Scope, e: Expr, t: Type)
    requires e.Lit? && Typed(sc, e, t)
    ensures HasTag(Resolve(sc, e).tag, t)
  {
  }

  lemma RangeTag(sc: Scope, e: Expr)
    requires e.Range? && e.ivar !in sc.env && HasTag(Resolve(sc, e.start).tag, Numeric) && HasTag(Resolve(sc, e.end).tag, Numeric)
    requires HasTag(Resolve(sc.(env := sc.env[e.ivar := Variable]), e.condition).tag, Logical)
    ensures HasTag(Resolve(sc, e).tag, Logical)
  {
  }

  lemma IndexTag(sc: Scope, e: Expr, t: Type)
    requires e.Index? && HasTag(Resolve(sc, e.index).tag, Numeric) && Reaches(sc, e, t)
    ensures HasTag(Resolve(sc, e).tag, t)
  {
    hide Trace;
  }

  lemma PathTag(sc: Scope, e: Expr, t: Type)
    requires (e.Field? || e.Call?) && Reaches(sc, e, t)
    ensures HasTag(Resolve(sc, e).tag, t)
  {
    hide Trace;
  }

  lemma ScalarTyped(flags: set<Flag>, t: Type)
    requires MaskType(flags, t)
    ensures ScalarTag(flags) != Eof && HasTag(ScalarTag(flags), t)
  {
  }

  /** A typed path is followed to its end. */
  lemma {:induction false} PathComplete(sc: Scope, e: Expr, t: Type)
    requires Typed(sc, e, t) && (e.Field? || e.Index? || e.Call?)
    ensures Reaches(sc, e, t)
    decreases e, 1
  {
    hide MaskType, ScalarTag, HasTag, Resolve, Leads, ArgumentsTyped;
    match e
    case Field(o, name, _) =>
      var s :| Leads(sc, o, s) && FieldTyped(s, name, t);
      LeadsTraced(sc, o, s);
      ScalarTyped(s.fields[name].flags, t);
    case Index(a, _) =>
      var s :| Leads(sc, a.owner, s) && ElementTyped(s, a.fieldName, t);
      LeadsTraced(sc, a.owner, s);
      ScalarTyped(s.fields[a.fieldName].flags, t);
    case Call(f, args) =>
      var s :| Callable(sc, f, s) && ArgumentsTyped(sc, args, s.params) && OfStruct !in s.flags && MaskType(s.flags, t);
      CallTraced(sc, e, s);
      ScalarTyped(s.flags, t);
  }

  lemma {:induction false} LeadsTraced(sc: Scope, e: Expr, s: Schema)
    requires Leads(sc, e, s)
    ensures Trace(sc, e).reach == Container(s)
    decreases e, 1
  {
    hide Resolve, ArgumentsTyped;
    match e
    case Lit(_) =>
    case Index(a, _) =>
      var p :| Leads(sc, a.owner, p) && a.fieldName in p.fields && s == p.fields[a.fieldName] && OfArray in s.flags && OfStruct in s.flags;
      LeadsTraced(sc, a.owner, p);
    case Call(f, args) => CallTraced(sc, e, s);
  }

  /** A typed call is entered. */
  lemma {:induction false} CallTraced(sc: Scope, e: Expr, s: Schema)
    requires e.Call? && Callable(sc, e.callee, s) && ArgumentsTyped(sc, e.arguments, s.params)
    ensures Trace(sc, e).reach == Enter(s)
    decreases e, 0
  {
    hide Resolve, ResolveAll, Enter, AllTyped;
    assert Trace(sc, e.callee.owner).reach == Container(sc.mod.value);
    AllComplete(sc, e.arguments, s.params);
    assert Tags(ResolveAll(sc, e.arguments).value) == s.params;
  }

  lemma {:induction false} AllComplete(sc: Scope, args: seq<Expr>, params: seq<Tag>)
    requires AllTyped(sc, args, params)
    ensures var r := ResolveAll(sc, args); r.Some? && |r.value| == |params| && forall i :: 0 <= i < |params| ==> r.value[i].tag == params[i]
    decreases args, 0
  {
    hide Resolve, Typed;
    if args != [] {
      var t :| ParameterType(params[0], t) && Typed(sc, args[0], t);
      Complete(sc, args[0], t);
      AllComplete(sc, args[1..], params[1..]);
      var rest := ResolveAll(sc, args[1..]);
      assert forall i :: 0 <= i < |params| - 1 ==> rest.value[i].tag == params[1..][i];
    }
  }

  // ---------- what is accepted and proper is typed ----------

  /** The type of an accepted expression. */
  function TypeOf(tag: Tag): Type {
    match tag
    case Number => Numeric
    case String => Textual
    case Regex => Matching
    case _ => Logical
  }

  lemma {:induction false} RegexTyped(sc: Scope, e: Expr)
    requires IsRegex(Strip(e))
    ensures Typed(sc, e, Matching)
  {
    if e.Grouping? {
      RegexTyped(sc, e.inner);
    }
  }

  lemma OperandsTyped(op: BinOp, tag1: Tag, tag2: Tag)
    requires OperationTag(op, tag1, tag2) != Eof && tag1 !in {Unset, Regex} && tag2 != Unset && (op != Matches ==> tag2 != Regex)
    ensures BinaryType(op, TypeOf(tag1), TypeOf(tag2), TypeOf(OperationTag(op, tag1, tag2)))
  {
  }

  lemma OperandTyped(op: UnOp, tag: Tag)
    requires UnaryTag(op, tag) != Eof
    ensures UnaryType(op, TypeOf(tag), TypeOf(UnaryTag(op, tag)))
  {
  }

  /** The checker accepts no more than the relation does, of what is proper. */
  lemma {:induction false} Sufficient(sc: Scope, e: Expr)
    requires Proper(sc, e) && Resolve(sc, e).tag != Eof
    ensures Typed(sc, e, TypeOf(Resolve(sc, e).tag))
    decreases e, 2
  {
    hide OperationTag, UnaryTag, BinaryType, UnaryType, Trace, Leads;
    NoRegex(sc, e);
    match e
    case Lit(_) => LiteralSufficient(sc, e);
    case Grouping(i) => Sufficient(sc, i);
    case Unary(op, r) =>
      UnaryOperand(op, Resolve(sc, r).tag);
      Sufficient(sc, r);
      OperandTyped(op, Resolve(sc, r).tag);
    case Binary(_, _, _, _) => BinarySufficient(sc, e);
    case Range(_, x, s, u, c) =>
      Sufficient(sc, s);
      Sufficient(sc, u);
      Sufficient(sc.(env := sc.env[x := Variable]), c);
    case _ => PathSufficient(sc, e);
  }

  lemma UnaryOperand(op: UnOp, tag: Tag)
    requires UnaryTag(op, tag) != Eof
    ensures tag != Eof
  {
  }

  lemma BinaryOperands(op: BinOp, tag1: Tag, tag2: Tag)
    requires OperationTag(op, tag1, tag2) != Eof
    ensures tag1 != Eof && tag2 != Eof
  {
  }

  lemma LiteralSufficient(sc: Scope, e: Expr)
    requires e.Lit? && Proper(sc, e) && Resolve(sc, e).tag != Eof
    ensures Typed(sc, e, TypeOf(Resolve(sc, e).tag))
  {
  }

  lemma {:induction false} BinarySufficient(sc: Scope, e: Expr)
    requires e.Binary? && Proper(sc, e) && Resolve(sc, e).tag != Eof
    ensures Typed(sc, e, TypeOf(Resolve(sc, e).tag))
    decreases e, 1
  {
    hide OperationTag, BinaryType;
    var tag1, tag2 := Resolve(sc, e.left).tag, Resolve(sc, e.right).tag;
    BinaryOperands(e.op, tag1, tag2);
    NoRegex(sc, e.left);
    Sufficient(sc, e.left);
    if e.op == Matches {
      RegexTyped(sc, e.right);
      RegexTag(sc, e.right);
    } else {
      NoRegex(sc, e.right);
      Sufficient(sc, e.right);
    }
    OperandsTyped(e.op, tag1, tag2);
  }

  lemma {:induction false} RegexTag(sc: Scope, e: Expr)
    requires IsRegex(Strip(e))
    ensures Resolve(sc, e).tag == Regex
  {
    if e.Grouping? {
      RegexTag(sc, e.inner);
    }
  }

  lemma ScalarMask(flags: set<Flag>)
    requires ScalarTag(flags) != Eof
    ensures MaskType(flags, TypeOf(ScalarTag(flags)))
  {
  }

  lemma {:induction false} PathSufficient(sc: Scope, e: Expr)
    requires (e.Field? || e.Index? || e.Call?) && Proper(sc, e) && Resolve(sc, e).tag != Eof
    ensures Typed(sc, e, TypeOf(Resolve(sc, e).tag))
    decreases e, 1
  {
    hide ScalarTag, MaskType, Leads, TypeOf;
    match e
    case Field(o, name, _) =>
      var s := Trace(sc, o).reach.schema;
      LeadsSufficient(sc, o);
      ScalarMask(s.fields[name].flags);
      assert FieldTyped(s, name, TypeOf(Resolve(sc, e).tag));
    case Index(a, i) =>
      IndexSufficient(sc, e);
    case Call(f, args) =>
      CallSufficient(sc, e);
      ScalarMask(sc.mod.value.fields[f.fieldName].flags);
  }

  lemma {:induction false} IndexSufficient(sc: Scope, e: Expr)
    requires e.Index? && Proper(sc, e) && Resolve(sc, e).tag != Eof
    ensures Typed(sc, e, TypeOf(Resolve(sc, e).tag))
    decreases e, 0
  {
    hide ScalarTag, MaskType, Leads;
    var a := e.indexed;
    var s := Trace(sc, a.owner).reach.schema;
    Sufficient(sc, e.index);
    LeadsSufficient(sc, a.owner);
    ScalarMask(s.fields[a.fieldName].flags);
    assert ElementTyped(s, a.fieldName, TypeOf(Resolve(sc, e).tag));
  }

  lemma {:induction false} LeadsSufficient(sc: Scope, e: Expr)
    requires ProperPath(sc, e) && Trace(sc, e).reach.Container?
    ensures Leads(sc, e, Trace(sc, e).reach.schema)
    decreases e, 1
  {
    hide Resolve, ResolveAll, ScalarTag, ArgumentsTyped;
    match e
    case Index(a, i) =>
      Sufficient(sc, i);
      LeadsSufficient(sc, a.owner);
    case Call(_, _) => CallSufficient(sc, e);
    case _ =>
  }

  lemma {:induction false} CallSufficient(sc: Scope, e: Expr)
    requires e.Call? && ProperPath(sc, e) && !Trace(sc, e).reach.Failed?
    ensures sc.mod.Some? && e.callee.Field? && e.callee.fieldName in sc.mod.value.fields
    ensures var s := sc.mod.value.fields[e.callee.fieldName];
            Callable(sc, e.callee, s) && ArgumentsTyped(sc, e.arguments, s.params) && Trace(sc, e).reach == Enter(s)
    decreases e, 0
  {
    hide Resolve, ResolveAll, ScalarTag, AllTyped, AllProper;
    var s := sc.mod.value.fields[e.callee.fieldName];
    var given := ResolveAll(sc, e.arguments);
    assert given.Some? && ValidCall(s.params, Tags(given.value));
    AllSufficient(sc, e.arguments);
  }

  lemma {:induction false} AllSufficient(sc: Scope, args: seq<Expr>)
    requires AllProper(sc, args) && ResolveAll(sc, args).Some?
    ensures AllTyped(sc, args, Tags(ResolveAll(sc, args).value))
    decreases args, 0
  {
    hide Resolve, Typed, Proper;
    if args != [] {
      ArgumentsParts(sc, args);
      Sufficient(sc, args[0]);
      NoRegex(sc, args[0]);
      AllSufficient(sc, args[1..]);
      ArgumentTyped(sc, args);
    }
  }

  lemma ArgumentTyped(sc: Scope, args: seq<Expr>)
    requires args != [] && ResolveAll(sc, args).Some? && Resolve(sc, args[0]).tag != Unset
    ensures ParameterType(ArgumentTag(Resolve(sc, args[0]).tag), TypeOf(Resolve(sc, args[0]).tag))
  {
    hide Resolve;
  }

  /** Of proper bodies the checker accepts exactly the typed ones. */
  lemma AcceptedExactly(sc: Scope, body: Expr)
    requires Proper(sc, body)
    ensures AcceptsBody(sc, body) <==> Typed(sc, body, Logical)
  {
    hide Resolve, Typed, Proper;
    if Typed(sc, body, Logical) {
      Complete(sc, body, Logical);
    }
    if AcceptsBody(sc, body) {
      Sufficient(sc, body);
    }
  }
}
