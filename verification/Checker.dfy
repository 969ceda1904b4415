/**
 * The type checker: it computes the type of every expression and writes annotations into the tree
 * that the emitter reads.  `Eof` stands for "an error was reported".
 */
module Checker {
  import opened Wrappers
  import opened Ast

  /** A declared field: its type mask, its own fields and, for a function, the types of its parameters. */
  datatype Schema = Schema(flags: set<Flag>, fields: map<string, Schema>, params: seq<Tag>)

  /** What a name of the environment stands for: a rule with its event and file, a loop variable, or an import or sequence. */
  datatype Name = RuleName(event: Option<string>, file: nat) | Variable | OtherName

  type Environment = map<string, Name>

  /** The environment, with the name and the event of the rule being checked; its module is the only object in scope. */
  datatype Scope = Scope(env: Environment, self: Option<string>, event: Option<string>, mod: Option<Schema>)

  datatype Checked = Checked(tag: Tag, expr: Expr)

  function LiteralTag(l: Literal): Tag {
    match l
    case Integer(_) => Number
    case Text(_) => String
    case Pattern(_, _) => Regex
    case Boolean(b) => if b then True else False
    case Identifier(_) => Eof
  }

  predicate IsBoolean(t: Tag) {
    t == True || t == False
  }

  /** `valid_operation` for binary operators, with the type of the result. */
  function BinaryTag(op: BinOp, t1: Tag, t2: Tag): Tag {
    match op
    case Plus => if t1 == Number then t1 else Eof
    case Minus => if t1 == Number then t1 else Eof
    case Mult => if t1 == Number then t1 else Eof
    case Div => if t1 == Number then t1 else Eof
    case Mod => if t1 == Number then t1 else Eof
    case Shl => if t1 == Number then t1 else Eof
    case Shr => if t1 == Number then t1 else Eof
    case BitAnd => if t1 == Number then t1 else Eof
    case BitXor => if t1 == Number then t1 else Eof
    case Pipe => if t1 == Number then t1 else Eof
    case Greater => if t1 == Number then True else Eof
    case GreaterEqual => if t1 == Number then True else Eof
    case Less => if t1 == Number then True else Eof
    case LessEqual => if t1 == Number then True else Eof
    case And => if IsBoolean(t1) then t1 else Eof
    case Or => if IsBoolean(t1) then t1 else Eof
    case EqualEqual => if IsBoolean(t1) || t1 == Number || t1 == String then True else Eof
    case BangEqual => if IsBoolean(t1) || t1 == Number || t1 == String then True else Eof
    case Matches => if t1 == String && t2 == Regex then True else Eof
    case _ => if t1 == String then True else Eof
  }

  function UnaryTag(op: UnOp, t: Tag): Tag {
    match op
    case Bang => if IsBoolean(t) then t else Eof
    case Not => if IsBoolean(t) then t else Eof
    case BitNot => if t == Number then t else Eof
    case Negate => if t == Number then t else Eof
    case Hash => if t == String then Number else Eof
  }

  /** Operand types may differ only as true from false, or as a string from a regex. */
  predicate Comparable(t1: Tag, t2: Tag) {
    t1 == t2 || (IsBoolean(t1) && IsBoolean(t2)) || (t1 == String && t2 == Regex)
  }

  function OperationTag(op: BinOp, t1: Tag, t2: Tag): Tag {
    if t1 == Eof || t2 == Eof || !Comparable(t1, t2) then Eof else BinaryTag(op, t1, t2)
  }

  /** The type of a plain field, by its mask. */
  function ScalarTag(flags: set<Flag>): Tag {
    if OfString in flags then String
    else if OfInteger in flags then Number
    else if OfBoolean in flags then True
    else Eof
  }

  /** Strings, integers and Booleans, the only types an argument may have. */
  function ArgumentTag(t: Tag): Tag {
    if IsBoolean(t) then True else t
  }

  /**
   * `checker_valid_call`.  A wrong number of arguments is let through, and a call without arguments
   * is refused exactly when the function takes none.
   */
  predicate ValidCall(params: seq<Tag>, given: seq<Tag>) {
    if given == [] then params != [] else |given| != |params| || given == params
  }

  /** Where a dotted path has led: to a struct or module, to a scalar, or to an error. */
  datatype Reach = Container(schema: Schema) | Scalar(tag: Tag) | Failed

  datatype Traced = Traced(reach: Reach, path: Expr)

  /** The step into field `sub`: on through a struct, or to a scalar. */
  function Enter(sub: Schema): Reach {
    if OfStruct in sub.flags then Container(sub)
    else if ScalarTag(sub.flags) == Eof then Failed
    else Scalar(ScalarTag(sub.flags))
  }

  predicate IsContainer(flags: set<Flag>) {
    OfArray in flags || OfStruct in flags || OfFunction in flags
  }

  /** `resolve_type`: the type of an expression, with the annotated expression. */
  function Resolve(sc: Scope, e: Expr): Checked
    decreases e, 1
  {
    match e
    case Field(_, _, _) => FinishPath(Trace(sc, e))
    case Call(_, _) => FinishPath(Trace(sc, e))
    case Grouping(i) => var c := Resolve(sc, i); Checked(c.tag, Grouping(c.expr))
    case Index(a, i) =>
      var c := Resolve(sc, i);
      if c.tag != Number then Checked(Eof, e)
      else
        var t := FinishPath(Trace(sc, e));
        if t.expr.Index? then Checked(t.tag, t.expr.(index := c.expr)) else t
    case Lit(l) => Checked(IdentifierTag(sc, l), e)
    case Binary(op, l, r, _) =>
      var c1 := Resolve(sc, l);
      var c2 := Resolve(sc, r);
      var t := OperationTag(op, c1.tag, c2.tag);
      Checked(t, if t == Eof then e else Binary(op, c1.expr, c2.expr, c1.tag))
    case Unary(op, r) =>
      var c := Resolve(sc, r);
      Checked(UnaryTag(op, c.tag), Unary(op, c.expr))
    case Range(q, x, s, t, c) =>
      var c1 := Resolve(sc, s);
      var c2 := Resolve(sc, t);
      if c1.tag != Number || c2.tag != Number || x in sc.env then Checked(Eof, e)
      else
        var c3 := Resolve(sc.(env := sc.env[x := Variable]), c);
        Checked(if IsBoolean(c3.tag) then True else Eof, Range(q, x, c1.expr, c2.expr, c3.expr))
    case Null => Checked(Eof, e)
  }

  /** The type of a literal; an identifier is a rule of the same event or a loop variable. */
  function IdentifierTag(sc: Scope, l: Literal): Tag {
    if !l.Identifier? then LiteralTag(l)
    else if l.name !in sc.env then Eof
    else match sc.env[l.name]
      case RuleName(event, _) => if event == sc.event then True else Eof
      case Variable => Number
      case OtherName => Eof
  }

  function FinishPath(t: Traced): Checked {
    Checked(if t.reach.Scalar? then t.reach.tag else Eof, t.path)
  }

  /**
   * `resolve_identifier_type` and its context walk: follows a dotted path from the module.  Once a
   * scalar is reached the rest of the path is neither looked up nor annotated, and an index inside a
   * longer path is not looked at.
   */
  function Trace(sc: Scope, e: Expr): Traced
    decreases e, 0
  {
    match e
    case Lit(l) =>
      if l.Identifier? && sc.mod.Some? && sc.event == Some(l.name) then Traced(Container(sc.mod.value), e)
      else Traced(Failed, e)
    case Field(o, name, _) =>
      var t := Trace(sc, o);
      (match t.reach
       case Container(s) =>
         if name !in s.fields || IsContainer(s.fields[name].flags) then Traced(Failed, e)
         else Traced(Enter(s.fields[name]), Field(t.path, name, s.fields[name].flags))
       case _ => Traced(t.reach, e.(owner := t.path)))
    case Index(a, i) =>
      if !a.Field? then Traced(Failed, e)
      else
        var t := Trace(sc, a.owner);
        (match t.reach
         case Container(s) =>
           if a.fieldName !in s.fields || OfArray !in s.fields[a.fieldName].flags then Traced(Failed, e)
           else Traced(Enter(s.fields[a.fieldName]), Index(Field(t.path, a.fieldName, s.fields[a.fieldName].flags), i))
         case _ => Traced(t.reach, e.(indexed := a.(owner := t.path))))
    case Call(f, args) =>
      if !f.Field? || !f.owner.Lit? || !f.owner.literal.Identifier? then Traced(Failed, e)
      else
        var t := Trace(sc, f.owner);
        var given := ResolveAll(sc, args);
        (match t.reach
         case Container(s) =>
           if f.fieldName !in s.fields || OfFunction !in s.fields[f.fieldName].flags then Traced(Failed, e)
           else if given.Some? && ValidCall(s.fields[f.fieldName].params, Tags(given.value)) then
             Traced(Enter(s.fields[f.fieldName]),
                    Call(Field(t.path, f.fieldName, s.fields[f.fieldName].flags), Exprs(given.value)))
           else Traced(Failed, e)
         case _ => Traced(Failed, e))
    case _ => Traced(Failed, e)
  }

  /** The types of the arguments of a call, if they are all strings, integers or Booleans. */
  function ResolveAll(sc: Scope, es: seq<Expr>): (r: Option<seq<Checked>>)
    ensures r.Some? ==> |r.value| == |es|
    decreases es, 1
  {
    if es == [] then Some([])
    else
      var c := Resolve(sc, es[0]);
      var rest := ResolveAll(sc, es[1..]);
      var tag := ArgumentTag(c.tag);
      if rest.Some? && (tag == String || tag == Number || tag == True) then Some([Checked(tag, c.expr)] + rest.value)
      else None
  }

  function Tags(cs: seq<Checked>): (r: seq<Tag>)
    ensures |r| == |cs|
  {
    seq(|cs|, i requires 0 <= i < |cs| => cs[i].tag)
  }

  function Exprs(cs: seq<Checked>): (r: seq<Expr>)
    ensures |r| == |cs|
  {
    seq(|cs|, i requires 0 <= i < |cs| => cs[i].expr)
  }

  /** `check_type`: a rule body must be Boolean. */
  predicate AcceptsBody(sc: Scope, body: Expr) {
    IsBoolean(Resolve(sc, body).tag)
  }

  // ---------- files ----------

  /** The declared modules, by name. */
  type Modules = map<string, Schema>

  /** The scope in which a rule body is checked; `None` if there is no module for its event. */
  function RuleScope(known: Modules, env: Environment, self: Option<string>, event: Option<string>): Option<Scope> {
    match event
    case None => Some(Scope(env, self, None, None))
    case Some(m) => if m in known then Some(Scope(env, self, event, Some(known[m]))) else None
  }

  /** What checking part of a file leaves behind: the verdict, the environment, the private names and the annotated tree. */
  datatype Progress = Progress(ok: bool, env: Environment, privates: set<string>, statements: seq<Statement>)

  datatype CheckedBody = CheckedBody(ok: bool, body: Expr)

  function CheckBody(known: Modules, env: Environment, self: Option<string>, event: Option<string>, body: Expr): CheckedBody {
    match RuleScope(known, env, self, event)
    case None => CheckedBody(false, body)
    case Some(sc) => CheckedBody(AcceptsBody(sc, body), Resolve(sc, body).expr)
  }

  /** A member of a sequence: a rule of the same file, or one written in place. */
  function CheckMember(known: Modules, env: Environment, file: nat, m: Member): (bool, Member) {
    match m
    case Reference(name) => (name in env && env[name].RuleName? && env[name].file == file, m)
    case Anonymous(event, body) =>
      var c := CheckBody(known, env, None, event, body);
      (c.ok, m.(body := c.body))
  }

  function CheckMembers(known: Modules, env: Environment, file: nat, members: seq<Member>): (r: (bool, seq<Member>))
    ensures |r.1| == |members|
  {
    if members == [] then (true, [])
    else
      var before := CheckMembers(known, env, file, members[..|members| - 1]);
      var m := CheckMember(known, env, file, members[|members| - 1]);
      if before.0 then (m.0, before.1 + [m.1]) else (false, before.1 + [members[|members| - 1]])
  }

  /** One statement.  A name is in scope from its own declaration on; a second declaration is refused. */
  function CheckStatement(known: Modules, p: Progress, file: nat, s: Statement): Progress {
    match s
    case Import(name) =>
      p.(env := if name in p.env then p.env else p.env[name := OtherName], statements := p.statements + [s])
    case Declare(name, event, body, isPrivate) =>
      if name in p.env then p.(ok := false, statements := p.statements + [s])
      else
        var env := p.env[name := RuleName(event, file)];
        var c := CheckBody(known, env, Some(name), event, body);
        Progress(p.ok && c.ok, env, if isPrivate then p.privates + {name} else p.privates, p.statements + [s.(body := c.body)])
    case Sequence(name, maxSpan, members) =>
      if name in p.env then p.(ok := false, statements := p.statements + [s])
      else
        var env := p.env[name := OtherName];
        var c := CheckMembers(known, env, file, members);
        Progress(p.ok && c.0, env, p.privates, p.statements + [Sequence(name, maxSpan, c.1)])
  }

  function CheckStatements(known: Modules, start: Progress, file: nat, statements: seq<Statement>): Progress {
    if statements == [] then start
    else
      var last := |statements| - 1;
      CheckStatement(known, CheckStatements(known, start, file, statements[..last]), file, statements[last])
  }

  const NO_NAMES: Environment := map[]

  /** The files before this one have passed or not; private names go out of scope at the end of a file. */
  function CheckFile(known: Modules, before: Progress, file: nat, statements: seq<Statement>): Progress {
    var p := CheckStatements(known, before.(privates := {}), file, statements);
    p.(env := p.env - p.privates)
  }

  /** All files, in order. */
  function CheckFiles(known: Modules, files: seq<seq<Statement>>): Progress {
    if files == [] then Progress(true, NO_NAMES, {}, [])
    else
      var last := |files| - 1;
      CheckFile(known, CheckFiles(known, files[..last]), last, files[last])
  }

  /** `ac_checker`: the environment outlives it, the private names do not. */
  class FileChecker {
    const known: Modules
    const file: nat
    var env: Environment
    var privates: set<string>

    constructor (known: Modules, file: nat, env: Environment)
      ensures this.known == known && this.file == file && this.env == env && privates == {}
    {
      this.known, this.file, this.env, privates := known, file, env, {};
    }

    method CheckRule(self: Option<string>, event: Option<string>, body: Expr) returns (ok: bool, annotated: Expr)
      ensures CheckedBody(ok, annotated) == CheckBody(known, env, self, event, body)
    {
      var sc := RuleScope(known, env, self, event);
      if sc.None? {
        return false, body;
      }
      var c := Resolve(sc.value, body);
      return IsBoolean(c.tag), c.expr;
    }

    method CheckSequence(members: seq<Member>) returns (ok: bool, annotated: seq<Member>)
      ensures (ok, annotated) == CheckMembers(known, env, file, members)
    {
      ok, annotated := true, [];
      for i := 0 to |members|
        invariant (ok, annotated) == CheckMembers(known, env, file, members[..i])
      {
        assert members[..i + 1][..i] == members[..i];
        if ok {
          var m := CheckMember(known, env, file, members[i]);
          ok, annotated := m.0, annotated + [m.1];
        } else {
          annotated := annotated + [members[i]];
        }
      }
      assert members[..|members|] == members;
    }

    /** `ac_checker_check`: goes on after an error, and forgets the private names at the end. */
    method Check(statements: seq<Statement>, ghost before: Progress) returns (ok: bool, annotated: seq<Statement>)
      requires before.ok && before.statements == [] && before.env == env && privates == {}
      modifies this
      ensures privates == {} && Progress(ok, env, {}, annotated) == CheckFile(known, before, file, statements).(privates := {})
    {
      hide Resolve, CheckMembers, CheckBody;
      ok, annotated := true, [];
      for i := 0 to |statements|
        invariant Progress(ok, env, privates, annotated) == CheckStatements(known, before.(privates := {}), file, statements[..i])
      {
        assert statements[..i + 1][..i] == statements[..i];
        var good, s := true, statements[i];
        if s.Import? {
          if s.moduleName !in env {
            env := env[s.moduleName := OtherName];
          }
        } else if s.Declare? && s.ruleName !in env {
          env := env[s.ruleName := RuleName(s.event, file)];
          if s.isPrivate {
            privates := privates + {s.ruleName};
          }
          var body;
          good, body := CheckRule(Some(s.ruleName), s.event, s.body);
          s := s.(body := body);
        } else if s.Sequence? && s.seqName !in env {
          env := env[s.seqName := OtherName];
          var members;
          good, members := CheckSequence(s.members);
          s := s.(members := members);
        } else {
          good := false;
        }
        ok, annotated := ok && good, annotated + [s];
      }
      assert statements[..|statements|] == statements;
      env := env - privates;
      privates := {};
    }
  }
}
