/** Expressions and statements of a rule file, with the annotations the type checker writes into them. */
module Ast {
  import opened Words
  import opened Wrappers

  /** The token types that double as expression types; `Unset` is the zero a fresh node carries. */
  datatype Tag = Unset | Number | String | Regex | True | False | Eof

  /** Bits of a field's type mask. */
  datatype Flag = OfString | OfInteger | OfBoolean | OfStruct | OfFunction | OfArray

  datatype BinOp =
    | And | Or
    | Plus | Minus | Mult | Div | Mod
    | Shl | Shr | BitAnd | BitXor | Pipe
    | Contains | IContains | StartsWith | IStartsWith | EndsWith | IEndsWith | IEquals | Matches
    | Greater | Less | GreaterEqual | LessEqual | EqualEqual | BangEqual

  datatype UnOp = Bang | Not | BitNot | Negate | Hash

  /** `for any`, `for all` and `for N`. */
  datatype Quantifier = Any | All | AtLeast(count: word)

  datatype Literal =
    | Identifier(name: string)
    | Integer(value: word)
    | Text(text: string)
    | Pattern(pattern: string, modifiers: word)
    | Boolean(truth: bool)

  datatype Expr =
    | Binary(op: BinOp, left: Expr, right: Expr, operandType: Tag)
    | Unary(unop: UnOp, operand: Expr)
    | Grouping(inner: Expr)
    | Lit(literal: Literal)
    | Call(callee: Expr, arguments: seq<Expr>)
    | Field(owner: Expr, fieldName: string, fieldType: set<Flag>)
    | Index(indexed: Expr, index: Expr)
    | Range(quantifier: Quantifier, ivar: string, start: Expr, end: Expr, condition: Expr)
    | Null  // the null pointer a failed parse can leave below a grouping or a range

  /** Strips the parentheses around an expression. */
  function Strip(e: Expr): (r: Expr)
    ensures !r.Grouping?
  {
    if e.Grouping? then Strip(e.inner) else e
  }

  predicate IsRegex(e: Expr) {
    e.Lit? && e.literal.Pattern?
  }

  predicate HasRange(e: Expr) {
    match e
    case Binary(_, l, r, _) => HasRange(l) || HasRange(r)
    case Unary(_, r) => HasRange(r)
    case Grouping(i) => HasRange(i)
    case Call(f, args) => HasRange(f) || AnyRange(args)
    case Field(o, _, _) => HasRange(o)
    case Index(a, i) => HasRange(a) || HasRange(i)
    case Range(_, _, _, _, _) => true
    case _ => false
  }

  predicate AnyRange(es: seq<Expr>) {
    es != [] && (HasRange(es[0]) || AnyRange(es[1..]))
  }

  /** An integer literal. */
  function Int(n: word): Expr {
    Lit(Integer(n))
  }

  /** An identifier: a module, a rule or a loop variable. */
  function Ref(name: string): Expr {
    Lit(Identifier(name))
  }

  /** The loop variable the emitter knows behind `e`: a `for` forgets it. */
  function IterAfter(e: Expr, iter: Option<string>): Option<string> {
    if HasRange(e) then None else iter
  }

  function IterAfterAll(es: seq<Expr>, iter: Option<string>): Option<string> {
    if AnyRange(es) then None else iter
  }

  /** The trees the emitter is meant for: no null child, and a regex exactly as the right operand of `matches`. */
  predicate Emittable(e: Expr) {
    match e
    case Binary(op, l, r, _) => Emittable(l) && (if op == Matches then IsRegex(Strip(r)) else Emittable(r))
    case Unary(_, r) => Emittable(r)
    case Grouping(i) => Emittable(i)
    case Lit(l) => !l.Pattern?
    case Call(f, args) => Emittable(f) && AllEmittable(args)
    case Field(o, _, _) => Emittable(o)
    case Index(a, i) => Emittable(a) && Emittable(i)
    case Range(_, _, s, t, c) => Emittable(s) && Emittable(t) && Emittable(c)
    case Null => false
  }

  predicate AllEmittable(es: seq<Expr>) {
    es == [] || (Emittable(es[0]) && AllEmittable(es[1..]))
  }

  /**
   * An entry of the rule table in source form: the name its offset leads to, the module name the
   * emitter had when it compiled the body, if it had one by then, and the body.
   */
  datatype Rule = Rule(ruleName: string, event: Option<string>, body: Expr)

  /** A member of a sequence: a declared rule, or one written in place. */
  datatype Member = Reference(name: string) | Anonymous(event: Option<string>, body: Expr)

  datatype Statement =
    | Import(moduleName: string)
    | Declare(ruleName: string, event: Option<string>, body: Expr, isPrivate: bool)
    | Sequence(seqName: string, maxSpan: word, members: seq<Member>)
}
