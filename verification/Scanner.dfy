/** Rule text as the scanner reads it, and that writing tokens out and scanning the text gives them back. */
module Scanner {
  import opened Words
  import opened Wrappers
  import opened CStrings
  import opened Ast
  import opened Tokens

  /** What one turn of the scanner adds, where it stops, and whether it panicked. */
  datatype Scanned = Scanned(added: seq<Token>, pos: nat, ok: bool)

  const PANIC := Scanned([], 0, false)

  /** The next character, NUL at the end. */
  function Peek(src: string, pos: nat): char {
    if pos < |src| then src[pos] else '\0'
  }

  // ---------- symbols ----------

  datatype Symbol = Symbol(token: Token, length: nat)

  /** Symbols of one or two characters, the longer one first; a backslash is read as a dot. */
  function SymbolAt(c: char, next: char): (r: Option<Symbol>)
    ensures r.Some? ==> 1 <= r.value.length <= 2 && (r.value.length == 2 ==> next != '\0')
  {
    match c
    case '(' => Some(Symbol(LParen, 1))
    case ')' => Some(Symbol(RParen, 1))
    case '[' => Some(Symbol(LBracket, 1))
    case ']' => Some(Symbol(RBracket, 1))
    case '{' => Some(Symbol(LBrace, 1))
    case '}' => Some(Symbol(RBrace, 1))
    case ',' => Some(Symbol(Comma, 1))
    case '+' => Some(Symbol(Operator(Plus), 1))
    case '-' => Some(Symbol(Operator(Minus), 1))
    case '*' => Some(Symbol(Operator(Mult), 1))
    case '%' => Some(Symbol(Operator(Mod), 1))
    case '|' => Some(Symbol(Operator(Pipe), 1))
    case '&' => Some(Symbol(Operator(BitAnd), 1))
    case '~' => Some(Symbol(Tilde, 1))
    case '^' => Some(Symbol(Operator(BitXor), 1))
    case ':' => Some(Symbol(Colon, 1))
    case '#' => Some(Symbol(HashSign, 1))
    case '\\' => if next == '.' then Some(Symbol(DotDot, 2)) else Some(Symbol(Dot, 1))
    case '.' => if next == '.' then Some(Symbol(DotDot, 2)) else Some(Symbol(Dot, 1))
    case '!' => if next == '=' then Some(Symbol(Operator(BangEqual), 2)) else Some(Symbol(BangSign, 1))
    case '=' => if next == '=' then Some(Symbol(Operator(EqualEqual), 2)) else Some(Symbol(Equal, 1))
    case '>' =>
      if next == '=' then Some(Symbol(Operator(GreaterEqual), 2))
      else if next == '>' then Some(Symbol(Operator(Shr), 2)) else Some(Symbol(Operator(Greater), 1))
    case '<' =>
      if next == '=' then Some(Symbol(Operator(LessEqual), 2))
      else if next == '<' then Some(Symbol(Operator(Shl), 2)) else Some(Symbol(Operator(Less), 1))
    case _ => None
  }

  // ---------- comments ----------

  /** Behind a comment; one that reaches the end of the text is an error, also one that ends with the line. */
  function CommentEnd(src: string, pos: nat, kind: char): (r: Option<nat>)
    ensures r.Some? ==> pos < r.value <= |src|
    decreases |src| - pos
  {
    if pos >= |src| then None
    else if kind == '/' && src[pos] == '\n' then Some(pos + 1)
    else if kind == '*' && src[pos] == '*' && Peek(src, pos + 1) == '/' then Some(pos + 2)
    else CommentEnd(src, pos + 1, kind)
  }

  // ---------- strings ----------

  /** A string up to its closing quote, one that ends with the text, or an error. */
  datatype Quoted = Closed(value: string, pos: nat) | Unfinished | Malformed

  /** The character an escape sequence stands for. */
  function Escaped(c: char): Option<char> {
    match c
    case '\'' => Some(c)
    case '/' => Some(c)
    case '"' => Some(c)
    case '\\' => Some(c)
    case 'n' => Some('\n')
    case 't' => Some('\t')
    case 'r' => Some('\r')
    case 'a' => Some(7 as char)
    case 'f' => Some(12 as char)
    case 'v' => Some(11 as char)
    case 'b' => Some(8 as char)
    case _ => None
  }

  /** `quote` is the opening character; in a regex, quoted by slashes, there are no escapes. */
  function ScanQuoted(src: string, pos: nat, quote: char, read: string): (r: Quoted)
    ensures r.Closed? ==> pos < r.pos <= |src|
    decreases |src| - pos
  {
    if pos >= |src| then Unfinished
    else
      var c := src[pos];
      if c == '\n' then Malformed
      else if c == '\\' && quote != '/' then
        var e := Escaped(Peek(src, pos + 1));
        if e.None? then Malformed else ScanQuoted(src, pos + 2, quote, read + [e.value])
      else if c == quote then Closed(read, pos + 1)
      else ScanQuoted(src, pos + 1, quote, read + [c])
  }

  // ---------- regex modifiers ----------

  const CASELESS := 0x8
  const DOTALL := 0x20
  const MULTILINE := 0x400
  const NO_AUTO_CAPTURE := 0x2000

  datatype Modifiers = Modifiers(i: bool, s: bool, m: bool, n: bool)

  const PLAIN := Modifiers(false, false, false, false)

  function Mask(x: Modifiers): word {
    (if x.i then CASELESS else 0) + (if x.s then DOTALL else 0) + (if x.m then MULTILINE else 0) + (if x.n then NO_AUTO_CAPTURE else 0)
  }

  function Modify(x: Modifiers, c: char): Option<Modifiers> {
    match c
    case 'i' => Some(x.(i := true))
    case 's' => Some(x.(s := true))
    case 'm' => Some(x.(m := true))
    case 'n' => Some(x.(n := true))
    case _ => None
  }

  /** The letters behind a regex.  A regex that ends with the text yields no token. */
  function ScanModifiers(src: string, pos: nat, pattern: string, x: Modifiers): (r: Scanned)
    requires pos <= |src|
    ensures r.ok && pos <= r.pos <= |src|
    decreases |src| - pos
  {
    if pos == |src| then Scanned([], pos, true)
    else if Modify(x, src[pos]).Some? then ScanModifiers(src, pos + 1, pattern, Modify(x, src[pos]).value)
    else Scanned([Token.Regex(pattern, Mask(x))], pos, true)
  }

  function ScanText(src: string, pos: nat, quote: char): (r: Scanned)
    requires pos <= |src|
    ensures r.ok ==> pos <= r.pos <= |src|
  {
    match ScanQuoted(src, pos, quote, "")
    case Closed(s, p) => if quote == '/' then ScanModifiers(src, p, s, PLAIN) else Scanned([Str(s)], p, true)
    case Unfinished => Scanned([], |src|, true)
    case Malformed => PANIC
  }

  // ---------- numbers ----------

  predicate IsDigit(c: char) {
    '0' <= c <= '9'
  }

  /** Upper-case hexadecimal digits are taken into decimal numbers too. */
  predicate IsNumeral(c: char, base: nat) {
    IsDigit(c) || (base == 16 && 'a' <= c <= 'f') || 'A' <= c <= 'F'
  }

  function NumeralsEnd(src: string, pos: nat, base: nat): (r: nat)
    requires pos <= |src|
    ensures pos <= r <= |src|
    decreases |src| - pos
  {
    if pos < |src| && IsNumeral(src[pos], base) then NumeralsEnd(src, pos + 1, base) else pos
  }

  function DigitValue(c: char, base: nat): Option<nat> {
    if IsDigit(c) then Some((c - '0') as nat)
    else if base == 16 && 'a' <= c <= 'f' then Some((c - 'a') as nat + 10)
    else if base == 16 && 'A' <= c <= 'F' then Some((c - 'A') as nat + 10)
    else None
  }

  /** The number the leading digits of a string denote. */
  function Leading(s: string, base: nat, n: nat): nat
    decreases |s|
  {
    if s == "" || DigitValue(s[0], base).None? then n else Leading(s[1..], base, n * base + DigitValue(s[0], base).value)
  }

  const ULONG_MAX := 0xFFFF_FFFF_FFFF_FFFF

  /** `strtoul` saturates; its result is cut to 32 bits. */
  function ToWord(n: nat): word {
    Wrap(if n > ULONG_MAX then ULONG_MAX else n)
  }

  /** A prefix `0x` without digits leaves no string to convert. */
  function ScanNumber(src: string, pos: nat): (r: Scanned)
    requires pos < |src|
    ensures r.ok ==> pos < r.pos <= |src|
  {
    if src[pos] == '0' && Peek(src, pos + 1) == 'x' then
      var end := NumeralsEnd(src, pos + 2, 16);
      if end == pos + 2 then PANIC else Scanned([Token.Number(ToWord(Leading(src[pos + 2..end], 16, 0)))], end, true)
    else
      var end := NumeralsEnd(src, pos + 1, 10);
      Scanned([Token.Number(ToWord(Leading(src[pos..end], 10, 0)))], end, true)
  }

  // ---------- words ----------

  predicate IsWordChar(c: char) {
    c == '_' || 'a' <= c <= 'z' || 'A' <= c <= 'Z' || IsDigit(c)
  }

  function WordEnd(src: string, pos: nat): (r: nat)
    requires pos <= |src|
    ensures pos <= r <= |src|
    decreases |src| - pos
  {
    if pos < |src| && IsWordChar(src[pos]) then WordEnd(src, pos + 1) else pos
  }

  const KEYWORDS: seq<(string, Token)> := [
    ("and", Operator(And)), ("or", Operator(Or)), ("not", NotWord), ("true", Truth(true)), ("false", Truth(false)),
    ("startswith", Operator(StartsWith)), ("istartswith", Operator(IStartsWith)),
    ("endswith", Operator(EndsWith)), ("iendswith", Operator(IEndsWith)),
    ("contains", Operator(Contains)), ("icontains", Operator(IContains)),
    ("iequals", Operator(IEquals)), ("matches", Operator(Matches)),
    ("for", ForWord), ("any", AnyWord), ("all", AllWord), ("in", InWord),
    ("private", PrivateWord), ("rule", RuleWord), ("sequence", SequenceWord), ("event", EventWord)]

  function Keyword(s: string, k: nat): Token
    requires k <= |KEYWORDS|
    decreases |KEYWORDS| - k
  {
    if k == |KEYWORDS| then Ident(s) else if KEYWORDS[k].0 == s then KEYWORDS[k].1 else Keyword(s, k + 1)
  }

  // ---------- the scanner ----------

  /** One turn, after the tokens whose last one is `last`: only after `matches` a slash opens a regex. */
  function ScanToken(src: string, pos: nat, last: Option<Token>): (r: Scanned)
    requires pos < |src|
    ensures r.ok ==> pos < r.pos <= |src|
  {
    var c, next := src[pos], Peek(src, pos + 1);
    if c == '/' then
      if next == '/' || next == '*' then
        var end := CommentEnd(src, pos + 2, next);
        if end.None? then PANIC else Scanned([], end.value, true)
      else if last == Some(Operator(Matches)) then ScanText(src, pos + 1, c)
      else Scanned([Operator(Div)], pos + 1, true)
    else if SymbolAt(c, next).Some? then
      var s := SymbolAt(c, next).value;
      Scanned([s.token], pos + s.length, true)
    else if c == '`' || c == '"' || c == '\'' then ScanText(src, pos + 1, c)
    else if IsDigit(c) then ScanNumber(src, pos)
    else if IsWordChar(c) then
      var end := WordEnd(src, pos + 1);
      Scanned([Keyword(src[pos..end], 0)], end, true)
    else Scanned([], pos + 1, true)
  }

  function LastToken(ts: seq<Token>): Option<Token> {
    if ts == [] then None else Some(ts[|ts| - 1])
  }

  /** The tokens after one turn; the end-of-file token is added once the text is used up. */
  function Grown(src: string, ts: seq<Token>, r: Scanned): seq<Token> {
    ts + r.added + if r.pos >= |src| then [EndOfFile] else []
  }

  function Scan(src: string, pos: nat, ts: seq<Token>): Option<seq<Token>>
    decreases |src| - pos
  {
    if pos >= |src| then Some(ts)
    else
      var r := ScanToken(src, pos, LastToken(ts));
      if r.ok then Scan(src, r.pos, Grown(src, ts, r)) else None
  }

  // ---------- writing tokens out ----------

  function EscapeChar(c: char): string {
    if c == '"' then "\\\"" else if c == '\\' then "\\\\" else if c == '\n' then "\\n" else [c]
  }

  function Escape(s: string): string {
    if s == "" then "" else EscapeChar(s[0]) + Escape(s[1..])
  }

  function Digit(d: nat): char
    requires d < 10
  {
    '0' + d as char
  }

  function Decimal(n: nat): string {
    if n < 10 then [Digit(n)] else Decimal(n / 10) + [Digit(n % 10)]
  }

  predicate Has(mask: word, bit: nat)
    requires bit > 0
  {
    mask / bit % 2 == 1
  }

  function ModifiersOf(mask: word): Modifiers {
    Modifiers(Has(mask, CASELESS), Has(mask, DOTALL), Has(mask, MULTILINE), Has(mask, NO_AUTO_CAPTURE))
  }

  function LetterIf(present: bool, c: char): string {
    if present then [c] else ""
  }

  function Letters(x: Modifiers): string {
    LetterIf(x.i, 'i') + (LetterIf(x.s, 's') + (LetterIf(x.m, 'm') + LetterIf(x.n, 'n')))
  }

  function OperatorText(op: BinOp): string {
    match op
    case And => "and" case Or => "or"
    case Plus => "+" case Minus => "-" case Mult => "*" case Div => "/" case Mod => "%"
    case Shl => "<<" case Shr => ">>" case BitAnd => "&" case BitXor => "^" case Pipe => "|"
    case Contains => "contains" case IContains => "icontains"
    case StartsWith => "startswith" case IStartsWith => "istartswith"
    case EndsWith => "endswith" case IEndsWith => "iendswith"
    case IEquals => "iequals" case Matches => "matches"
    case Greater => ">" case Less => "<" case GreaterEqual => ">=" case LessEqual => "<="
    case EqualEqual => "==" case BangEqual => "!="
  }

  function TokenText(t: Token): string {
    match t
    case Ident(x) => x
    case Number(v) => Decimal(v)
    case Str(s) => "\"" + Escape(s) + "\""
    case Regex(p, m) => "/" + p + "/" + Letters(ModifiersOf(m))
    case Truth(b) => if b then "true" else "false"
    case Operator(op) => OperatorText(op)
    case NotWord => "not" case BangSign => "!" case Tilde => "~" case HashSign => "#"
    case LParen => "(" case RParen => ")" case LBracket => "[" case RBracket => "]" case LBrace => "{" case RBrace => "}"
    case Comma => "," case Dot => "." case DotDot => ".." case Colon => ":" case Equal => "="
    case ForWord => "for" case AnyWord => "any" case AllWord => "all" case InWord => "in"
    case PrivateWord => "private" case RuleWord => "rule" case SequenceWord => "sequence" case EventWord => "event"
    case EndOfFile => ""
  }

  /** The tokens, each followed by a space. */
  function TokensText(ts: seq<Token>): string {
    if ts == [] then "" else TokenText(ts[0]) + " " + TokensText(ts[1..])
  }

  predicate IsIdentifier(x: string) {
    x != "" && !IsDigit(x[0]) && (forall i :: 0 <= i < |x| ==> IsWordChar(x[i])) && Keyword(x, 0) == Ident(x)
  }

  /**
   * Tokens that text can express after `last`: identifiers that are no keywords, strings that are not
   * empty, and regexes without slashes or line ends; a regex stands only after `matches`, a division
   * sign never.
   */
  predicate Writable(t: Token, last: Option<Token>) {
    match t
    case Ident(x) => IsIdentifier(x)
    case Str(s) => s != "" && NulFree(s)
    case Regex(p, m) =>
      last == Some(Operator(Matches)) && p != "" && p[0] != '*' && '/' !in p && '\n' !in p && m == Mask(ModifiersOf(m))
    case Operator(op) => op == Div ==> last != Some(Operator(Matches))
    case EndOfFile => false
    case _ => true
  }

  predicate AllWritable(ts: seq<Token>, last: Option<Token>) {
    ts == [] || (Writable(ts[0], last) && AllWritable(ts[1..], Some(ts[0])))
  }

  // ---------- scanning what was written ----------

  /** `x` stands at `pos`. */
  predicate Reads(src: string, pos: nat, x: string) {
    pos + |x| <= |src| && src[pos..pos + |x|] == x
  }

  lemma ReadsSplit(src: string, pos: nat, x: string, y: string)
    requires Reads(src, pos, x + y)
    ensures Reads(src, pos, x) && Reads(src, pos + |x|, y)
  {
    assert src[pos..pos + |x|] == (x + y)[..|x|];
    assert src[pos + |x|..pos + |x| + |y|] == (x + y)[|x|..];
  }

  lemma ReadsChar(src: string, pos: nat, x: string, i: nat)
    requires Reads(src, pos, x) && i < |x|
    ensures src[pos + i] == x[i]
  {
    assert src[pos + i] == src[pos..pos + |x|][i];
  }

  lemma {:induction false} WordRead(src: string, pos: nat, x: string)
    requires Reads(src, pos, x) && (forall i :: 0 <= i < |x| ==> IsWordChar(x[i]))
    requires pos + |x| < |src| && src[pos + |x|] == ' '
    ensures WordEnd(src, pos) == pos + |x|
    decreases |x|
  {
    if x != "" {
      ReadsChar(src, pos, x, 0);
      assert x == [x[0]] + x[1..];
      ReadsSplit(src, pos, [x[0]], x[1..]);
      WordRead(src, pos + 1, x[1..]);
    }
  }

  /** A word of letters is scanned whole and looked up. */
  lemma WordScanned(src: string, pos: nat, x: string, last: Option<Token>)
    requires Reads(src, pos, x) && x != "" && !IsDigit(x[0]) && (forall i :: 0 <= i < |x| ==> IsWordChar(x[i]))
    requires pos + |x| < |src| && src[pos + |x|] == ' '
    ensures ScanToken(src, pos, last) == Scanned([Keyword(x, 0)], pos + |x|, true)
  {
    hide ScanToken, WordEnd, Keyword;
    ReadsChar(src, pos, x, 0);
    WordRead(src, pos, x);
    WordTurn(src, pos, last);
  }

  lemma WordTurn(src: string, pos: nat, last: Option<Token>)
    requires pos < |src| && IsWordChar(src[pos]) && !IsDigit(src[pos])
    ensures var end := WordEnd(src, pos); ScanToken(src, pos, last) == Scanned([Keyword(src[pos..end], 0)], end, true)
  {
    hide Keyword, SymbolAt;
    NoSymbol(src[pos], Peek(src, pos + 1));
  }

  lemma NoSymbol(c: char, next: char)
    requires IsWordChar(c)
    ensures SymbolAt(c, next).None? && c != '/' && c != '`' && c != '"' && c != '\''
  {
  }

  /** Every keyword is found in the table. */
  lemma {:induction false} KeywordFound(k: nat, j: nat)
    requires j <= k < |KEYWORDS| && forall i :: 0 <= i < k ==> KEYWORDS[i].0 != KEYWORDS[k].0
    ensures Keyword(KEYWORDS[k].0, j) == KEYWORDS[k].1
    decreases k - j
  {
    if j < k {
      KeywordFound(k, j + 1);
    }
  }

  lemma KeywordsDiffer(k: nat)
    requires k < |KEYWORDS|
    ensures forall i :: 0 <= i < k ==> KEYWORDS[i].0 != KEYWORDS[k].0
    ensures var x := KEYWORDS[k].0; x != "" && (forall i :: 0 <= i < |x| ==> 'a' <= x[i] <= 'z')
  {
  }

  lemma KeywordScanned(src: string, pos: nat, k: nat, last: Option<Token>)
    requires k < |KEYWORDS| && var x := KEYWORDS[k].0; Reads(src, pos, x) && pos + |x| < |src| && src[pos + |x|] == ' '
    ensures ScanToken(src, pos, last) == Scanned([KEYWORDS[k].1], pos + |KEYWORDS[k].0|, true)
  {
    KeywordsDiffer(k);
    hide Keyword, ScanToken, Reads;
    WordScanned(src, pos, KEYWORDS[k].0, last);
    KeywordFound(k, 0);
  }

  /** The tokens written as words. */
  function KeywordIndex(t: Token): Option<nat> {
    match t
    case Operator(op) =>
      (match op
       case And => Some(0) case Or => Some(1)
       case StartsWith => Some(5) case IStartsWith => Some(6) case EndsWith => Some(7) case IEndsWith => Some(8)
       case Contains => Some(9) case IContains => Some(10) case IEquals => Some(11) case Matches => Some(12)
       case _ => None)
    case NotWord => Some(2)
    case Truth(b) => if b then Some(3) else Some(4)
    case ForWord => Some(13) case AnyWord => Some(14) case AllWord => Some(15) case InWord => Some(16)
    case PrivateWord => Some(17) case RuleWord => Some(18) case SequenceWord => Some(19) case EventWord => Some(20)
    case _ => None
  }

  lemma KeywordText(t: Token)
    requires KeywordIndex(t).Some?
    ensures var k := KeywordIndex(t).value; k < |KEYWORDS| && KEYWORDS[k] == (TokenText(t), t)
  {
  }

  /** The tokens written as symbols. */
  predicate IsSymbol(t: Token) {
    KeywordIndex(t).None? && !t.Ident? && !t.Number? && !t.Str? && !t.Regex? && !t.EndOfFile?
  }

  lemma SymbolText(t: Token)
    requires IsSymbol(t) && t != Operator(Div)
    ensures var x := TokenText(t);
            && 1 <= |x| <= 2 && x[0] != '/' && SymbolAt(x[0], if |x| == 2 then x[1] else ' ') == Some(Symbol(t, |x|))
  {
  }

  /** Two-character symbols are not cut in two, and a space ends a symbol of one. */
  lemma SymbolScanned(src: string, pos: nat, t: Token, last: Option<Token>)
    requires IsSymbol(t) && Writable(t, last) && Reads(src, pos, TokenText(t))
    requires pos + |TokenText(t)| < |src| && src[pos + |TokenText(t)|] == ' '
    ensures ScanToken(src, pos, last) == Scanned([t], pos + |TokenText(t)|, true)
  {
    var x := TokenText(t);
    ReadsChar(src, pos, x, 0);
    if t != Operator(Div) {
      SymbolText(t);
      hide TokenText, SymbolAt, ScanText, ScanNumber, Keyword;
      if |x| == 2 {
        ReadsChar(src, pos, x, 1);
      }
    }
  }

  // Numbers.

  lemma {:induction false} DecimalDigits(n: nat)
    ensures |Decimal(n)| > 0 && forall i :: 0 <= i < |Decimal(n)| ==> IsDigit(Decimal(n)[i])
    decreases n
  {
    if n >= 10 {
      DecimalDigits(n / 10);
    }
  }

  lemma {:induction false} LeadingAppend(s: string, c: char, n: nat)
    requires (forall i :: 0 <= i < |s| ==> IsDigit(s[i])) && IsDigit(c)
    ensures Leading(s + [c], 10, n) == Leading(s, 10, n) * 10 + (c - '0') as nat
    decreases |s|
  {
    if s == "" {
      assert (s + [c])[1..] == "";
      assert Leading("", 10, n * 10 + (c - '0') as nat) == n * 10 + (c - '0') as nat;
    } else {
      assert (s + [c])[1..] == s[1..] + [c];
      LeadingAppend(s[1..], c, n * 10 + DigitValue(s[0], 10).value);
    }
  }

  lemma {:induction false} DecimalValue(n: nat)
    ensures Leading(Decimal(n), 10, 0) == n
    decreases n
  {
    if n < 10 {
      assert [Digit(n)][1..] == "";
      assert Leading("", 10, 0 * 10 + n) == n;
    } else {
      DecimalDigits(n / 10);
      DecimalValue(n / 10);
      LeadingAppend(Decimal(n / 10), Digit(n % 10), 0);
    }
  }

  lemma {:induction false} NumeralsRead(src: string, pos: nat, x: string)
    requires Reads(src, pos, x) && (forall i :: 0 <= i < |x| ==> IsDigit(x[i])) && pos + |x| < |src| && src[pos + |x|] == ' '
    ensures NumeralsEnd(src, pos, 10) == pos + |x|
    decreases |x|
  {
    if x != "" {
      ReadsChar(src, pos, x, 0);
      assert x == [x[0]] + x[1..];
      ReadsSplit(src, pos, [x[0]], x[1..]);
      NumeralsRead(src, pos + 1, x[1..]);
    }
  }

  lemma NumberScanned(src: string, pos: nat, v: word, last: Option<Token>)
    requires Reads(src, pos, Decimal(v)) && pos + |Decimal(v)| < |src| && src[pos + |Decimal(v)|] == ' '
    ensures ScanToken(src, pos, last) == Scanned([Token.Number(v)], pos + |Decimal(v)|, true)
  {
    hide Decimal, Leading, NumeralsEnd;
    var x := Decimal(v);
    DecimalDigits(v);
    DecimalValue(v);
    ReadsChar(src, pos, x, 0);
    NoSymbol(x[0], Peek(src, pos + 1));
    assert x == [x[0]] + x[1..];
    ReadsSplit(src, pos, [x[0]], x[1..]);
    NumeralsRead(src, pos + 1, x[1..]);
    if |x| > 1 {
      ReadsChar(src, pos, x, 1);
    }
    assert src[pos..pos + |x|] == x;
  }

  // Strings and regexes.

  lemma {:induction false} EscapedRead(src: string, pos: nat, s: string, read: string)
    requires Reads(src, pos, Escape(s) + "\"")
    ensures ScanQuoted(src, pos, '"', read) == Closed(read + s, pos + |Escape(s)| + 1)
    decreases |s|
  {
    if s == "" {
      ReadsChar(src, pos, Escape(s) + "\"", 0);
      assert read + s == read;
    } else {
      var rest := Escape(s[1..]) + "\"";
      assert Escape(s) + "\"" == EscapeChar(s[0]) + rest;
      ReadsSplit(src, pos, EscapeChar(s[0]), rest);
      ReadsChar(src, pos, EscapeChar(s[0]), 0);
      if |EscapeChar(s[0])| == 2 {
        ReadsChar(src, pos, EscapeChar(s[0]), 1);
      }
      EscapedRead(src, pos + |EscapeChar(s[0])|, s[1..], read + [s[0]]);
      assert read + [s[0]] + s[1..] == read + s;
    }
  }

  lemma {:induction false} PatternRead(src: string, pos: nat, p: string, read: string)
    requires Reads(src, pos, p + "/") && '/' !in p && '\n' !in p
    ensures ScanQuoted(src, pos, '/', read) == Closed(read + p, pos + |p| + 1)
    decreases |p|
  {
    if p == "" {
      ReadsChar(src, pos, p + "/", 0);
      assert read + p == read;
    } else {
      assert p + "/" == [p[0]] + (p[1..] + "/");
      ReadsSplit(src, pos, [p[0]], p[1..] + "/");
      ReadsChar(src, pos, [p[0]], 0);
      assert p[0] in p;
      PatternRead(src, pos + 1, p[1..], read + [p[0]]);
      assert read + [p[0]] + p[1..] == read + p;
    }
  }

  lemma StringScanned(src: string, pos: nat, s: string, last: Option<Token>)
    requires Reads(src, pos, TokenText(Str(s)))
    ensures ScanToken(src, pos, last) == Scanned([Str(s)], pos + |TokenText(Str(s))|, true)
  {
    hide ScanQuoted, Escape, ScanNumber, Keyword;
    var x := Escape(s) + "\"";
    assert TokenText(Str(s)) == "\"" + x;
    ReadsSplit(src, pos, "\"", x);
    ReadsChar(src, pos, "\"", 0);
    EscapedRead(src, pos + 1, s, "");
    assert "" + s == s;
  }

  /** The letters of a mask set exactly its bits. */
  lemma LettersRead(src: string, pos: nat, pattern: string, x: Modifiers)
    requires Reads(src, pos, Letters(x)) && pos + |Letters(x)| < |src| && src[pos + |Letters(x)|] == ' '
    ensures ScanModifiers(src, pos, pattern, PLAIN) == Scanned([Token.Regex(pattern, Mask(x))], pos + |Letters(x)|, true)
  {
    hide Mask, LetterIf, Reads, ScanModifiers;
    var z4 := LetterIf(x.n, 'n');
    var z3 := LetterIf(x.m, 'm') + z4;
    var z2 := LetterIf(x.s, 's') + z3;
    var p1 := LetterRead(src, pos, pattern, PLAIN, x.i, 'i', z2);
    var p2 := LetterRead(src, p1, pattern, PLAIN.(i := x.i), x.s, 's', z3);
    var p3 := LetterRead(src, p2, pattern, PLAIN.(i := x.i, s := x.s), x.m, 'm', z4);
    assert z4 + "" == z4;
    var p4 := LetterRead(src, p3, pattern, x.(n := false), x.n, 'n', "");
    assert PLAIN.(i := x.i, s := x.s) == Modifiers(x.i, x.s, false, false);
    LettersEnd(src, p4, pattern, x);
  }

  lemma LettersEnd(src: string, pos: nat, pattern: string, x: Modifiers)
    requires pos < |src| && src[pos] == ' '
    ensures ScanModifiers(src, pos, pattern, x) == Scanned([Token.Regex(pattern, Mask(x))], pos, true)
  {
    hide Mask;
  }

  lemma LetterRead(src: string, pos: nat, pattern: string, y: Modifiers, present: bool, c: char, rest: string) returns (p: nat)
    requires Reads(src, pos, LetterIf(present, c) + rest) && Modify(y, c).Some? && pos <= |src|
    ensures p == pos + |LetterIf(present, c)| && p <= |src| && Reads(src, p, rest)
    ensures ScanModifiers(src, pos, pattern, y) == ScanModifiers(src, p, pattern, if present then Modify(y, c).value else y)
  {
    p := pos + |LetterIf(present, c)|;
    ReadsSplit(src, pos, LetterIf(present, c), rest);
    if present {
      ReadsChar(src, pos, [c], 0);
    }
  }

  lemma RegexScanned(src: string, pos: nat, p: string, m: word, last: Option<Token>)
    requires var t := Token.Regex(p, m);
             Writable(t, last) && Reads(src, pos, TokenText(t)) && pos + |TokenText(t)| < |src| && src[pos + |TokenText(t)|] == ' '
    ensures ScanToken(src, pos, last) == Scanned([Token.Regex(p, m)], pos + |TokenText(Token.Regex(p, m))|, true)
  {
    hide ScanQuoted, ScanModifiers, Letters, Mask, ModifiersOf, ScanNumber, Keyword, Reads, TokenText, SymbolAt, CommentEnd, WordEnd;
    RegexParts(src, pos, p, m);
    assert p[0] in p;
    PatternRead(src, pos + 1, p, "");
    assert "" + p == p;
    LettersRead(src, pos + 1 + |p| + 1, p, ModifiersOf(m));
  }

  lemma RegexParts(src: string, pos: nat, p: string, m: word)
    requires p != "" && Reads(src, pos, TokenText(Token.Regex(p, m)))
    ensures var x := Letters(ModifiersOf(m));
            && |TokenText(Token.Regex(p, m))| == |p| + 2 + |x| && pos + 1 < |src| && src[pos] == '/' && src[pos + 1] == p[0]
            && Reads(src, pos + 1, p + "/") && Reads(src, pos + 1 + |p| + 1, x)
  {
    hide Letters, ModifiersOf;
    var x := Letters(ModifiersOf(m));
    assert TokenText(Token.Regex(p, m)) == "/" + (p + "/") + x;
    ReadsSplit(src, pos, "/" + (p + "/"), x);
    ReadsSplit(src, pos, "/", p + "/");
    ReadsChar(src, pos, "/", 0);
    ReadsChar(src, pos + 1, p + "/", 0);
  }

  /** One written token, and the space behind it left. */
  lemma TokenScanned(src: string, pos: nat, t: Token, last: Option<Token>)
    requires Writable(t, last) && Reads(src, pos, TokenText(t)) && pos + |TokenText(t)| < |src| && src[pos + |TokenText(t)|] == ' '
    ensures ScanToken(src, pos, last) == Scanned([t], pos + |TokenText(t)|, true)
  {
    hide ScanToken, Keyword, Reads;
    if KeywordIndex(t).Some? {
      KeywordText(t);
      KeywordScanned(src, pos, KeywordIndex(t).value, last);
    } else if t.Ident? {
      WordScanned(src, pos, t.name, last);
    } else if t.Number? {
      NumberScanned(src, pos, t.value, last);
    } else if t.Str? {
      StringScanned(src, pos, t.text, last);
    } else if t.Regex? {
      RegexScanned(src, pos, t.pattern, t.modifiers, last);
    } else {
      SymbolScanned(src, pos, t, last);
    }
  }

  lemma SpaceScanned(src: string, pos: nat, last: Option<Token>)
    requires pos < |src| && src[pos] == ' '
    ensures ScanToken(src, pos, last) == Scanned([], pos + 1, true)
  {
  }

  lemma TokenNotEmpty(t: Token, last: Option<Token>)
    requires Writable(t, last)
    ensures TokenText(t) != ""
  {
    if t.Number? {
      DecimalDigits(t.value);
    }
  }

  /** Scanner inverts writer: any list of writable tokens is read back, with one end-of-file token. */
  lemma {:induction false} WrittenScanned(src: string, pos: nat, ts: seq<Token>, before: seq<Token>)
    requires ts != [] && AllWritable(ts, LastToken(before)) && pos <= |src| && src[pos..] == TokensText(ts)
    ensures Scan(src, pos, before) == Some(before + ts + [EndOfFile])
    decreases |ts|
  {
    hide ScanToken, TokenText, Writable;
    var t, rest := ts[0], ts[1..];
    var x := TokenText(t);
    var p := pos + |x|;
    assert src[pos..] == x + " " + TokensText(rest);
    assert x == src[pos..][..|x|] && src[pos..][|x|] == ' ' && src[pos..][|x| + 1..] == TokensText(rest);
    assert Reads(src, pos, x) && src[p] == ' ' && src[p + 1..] == TokensText(rest);
    TokenNotEmpty(t, LastToken(before));
    TokenScanned(src, pos, t, LastToken(before));
    SpaceScanned(src, p, Some(t));
    var grown := before + [t];
    assert before + [t] + [] == grown && grown + [] == grown;
    assert Scan(src, pos, before) == Scan(src, p, grown);
    if rest == [] {
      var done := before + ts + [EndOfFile];
      assert p + 1 == |src| && ts == [t];
      assert Grown(src, grown, Scanned([], p + 1, true)) == done;
      assert Scan(src, p + 1, done) == Some(done);
      assert Scan(src, p, grown) == Scan(src, p + 1, done);
    } else {
      TextNotEmpty(rest);
      assert grown + [] + [] == grown;
      assert Scan(src, p, grown) == Scan(src, p + 1, grown);
      WrittenScanned(src, p + 1, rest, grown);
      assert ts == [t] + rest;
      assert grown + rest == before + ts;
    }
  }

  lemma TextNotEmpty(ts: seq<Token>)
    requires ts != []
    ensures |TokensText(ts)| > 0
  {
  }

  // ---------- what the scanner does with other text ----------

  /** A comment to the end of a line has an end if and only if the line has one. */
  lemma {:induction false} LineCommentEnds(src: string, pos: nat)
    ensures CommentEnd(src, pos, '/').None? <==> forall j :: pos <= j < |src| ==> src[j] != '\n'
    decreases |src| - pos
  {
    if pos < |src| && src[pos] != '\n' {
      LineCommentEnds(src, pos + 1);
    }
  }

  /** Wherever it begins, a line comment on the last line, without a line end, is refused. */
  lemma LastLineComment(src: string, pos: nat, ts: seq<Token>)
    requires pos + 1 < |src| && src[pos] == '/' && src[pos + 1] == '/'
    requires forall j :: pos <= j < |src| ==> src[j] != '\n'
    ensures Scan(src, pos, ts) == None
  {
    LineCommentEnds(src, pos + 2);
  }

  /** Text without the quote, a backslash or a line end holds no end of a string. */
  lemma {:induction false} PlainUnfinished(src: string, pos: nat, quote: char, read: string)
    requires forall j :: pos <= j < |src| ==> src[j] != quote && src[j] != '\\' && src[j] != '\n'
    ensures ScanQuoted(src, pos, quote, read) == Unfinished
    decreases |src| - pos
  {
    if pos < |src| {
      PlainUnfinished(src, pos + 1, quote, read + [src[pos]]);
    }
  }

  /** Wherever it begins, a string that is not closed before the end of the text vanishes without an error. */
  lemma OpenStringVanishes(src: string, pos: nat, ts: seq<Token>)
    requires pos < |src| && (src[pos] == '"' || src[pos] == '\'' || src[pos] == '`')
    requires forall j :: pos < j < |src| ==> src[j] != src[pos] && src[j] != '\\' && src[j] != '\n'
    ensures Scan(src, pos, ts) == Some(ts + [EndOfFile])
  {
    hide ScanQuoted, ScanNumber, Keyword;
    PlainUnfinished(src, pos + 1, src[pos], "");
    var r := ScanToken(src, pos, LastToken(ts));
    assert r == Scanned([], |src|, true);
    assert Grown(src, ts, r) == ts + [EndOfFile];
    assert Scan(src, |src|, ts + [EndOfFile]) == Some(ts + [EndOfFile]);
  }
}
