/** The tokens of a rule file. */
module Tokens {
  import opened Words
  import opened Wrappers
  import opened Ast

  datatype Token =
    | Ident(name: string)
    | Number(value: word)
    | Str(text: string)
    | Regex(pattern: string, modifiers: word)
    | Truth(truth: bool)
    | Operator(op: BinOp)  // the minus sign is also a prefix
    | NotWord | BangSign | Tilde | HashSign
    | LParen | RParen | LBracket | RBracket | LBrace | RBrace
    | Comma | Dot | DotDot | Colon | Equal
    | ForWord | AnyWord | AllWord | InWord
    | PrivateWord | RuleWord | SequenceWord | EventWord
    | EndOfFile

  /** The level at which a binary operator is parsed; higher levels bind tighter. */
  function Level(op: BinOp): nat {
    match op
    case And => 0
    case Or => 1
    case EqualEqual => 3 case BangEqual => 3
    case Contains => 3 case IContains => 3
    case StartsWith => 3 case IStartsWith => 3
    case EndsWith => 3 case IEndsWith => 3
    case IEquals => 3 case Matches => 3
    case Greater => 4 case GreaterEqual => 4 case Less => 4 case LessEqual => 4
    case Plus => 5 case Minus => 5
    case Mult => 6 case Div => 6 case Mod => 6
    case Shl => 7 case Shr => 7
    case BitAnd => 8
    case BitXor => 9
    case Pipe => 10
  }

  /** The prefix operators of the unary level; `not` has a level of its own. */
  function PrefixOp(t: Token): Option<UnOp> {
    match t
    case BangSign => Some(Bang)
    case Tilde => Some(BitNot)
    case Operator(op) => if op == Minus then Some(Negate) else None
    case HashSign => Some(Hash)
    case _ => None
  }

  function PrefixToken(op: UnOp): Token {
    match op
    case Bang => BangSign
    case Not => NotWord
    case BitNot => Tilde
    case Negate => Operator(Minus)
    case Hash => HashSign
  }

  function LiteralOf(t: Token): Option<Literal> {
    match t
    case Ident(x) => Some(Identifier(x))
    case Number(v) => Some(Integer(v))
    case Str(s) => Some(Text(s))
    case Regex(p, m) => Some(Pattern(p, m))
    case Truth(b) => Some(Boolean(b))
    case _ => None
  }

  function LiteralToken(l: Literal): (t: Token)
    ensures LiteralOf(t) == Some(l)
  {
    match l
    case Identifier(x) => Ident(x)
    case Integer(v) => Token.Number(v)
    case Text(s) => Str(s)
    case Pattern(p, m) => Token.Regex(p, m)
    case Boolean(b) => Truth(b)
  }

  predicate At(ts: seq<Token>, pos: nat, t: Token) {
    pos < |ts| && ts[pos] == t
  }
}
