/**
 * Texts and the tokens they are, written out: numbers in both bases, symbols and words, escapes, regex
 * modifiers, comments and time limits.
 */
module Lexemes {
  import opened Wrappers
  import opened Ast
  import opened Tokens
  import opened Scanner

  // ---------- numbers ----------

  /** The digits of both bases, in either case. */
  const LOWER_DIGITS := "0123456789abcdef"
  const UPPER_DIGITS := "0123456789ABCDEF"

  /** `x` is `n` in base 10 or 16: its last character is the remainder of a division by the base, the rest the quotient. */
  predicate Denotes(x: string, base: nat, n: nat)
    requires base == 10 || base == 16
    decreases |x|
  {
    && x != ""
    && x[|x| - 1] in [LOWER_DIGITS[n % base], UPPER_DIGITS[n % base]]
    && if |x| == 1 then n < base else Denotes(x[..|x| - 1], base, n / base)
  }

  /** Below 2^64 a number is cut to 32 bits, and from there on it is 2^32 - 1. */
  function Cut32(n: nat): int {
    if n < 0x1_0000_0000_0000_0000 then n % 0x1_0000_0000 else 0xFFFF_FFFF
  }

  /** A character is a digit with a value. */
  predicate IsDigitOf(c: char, base: nat, d: nat) {
    (base == 10 || base == 16) && d < base && c in [LOWER_DIGITS[d], UPPER_DIGITS[d]]
  }

  lemma DigitRead(c: char, base: nat, d: nat)
    requires IsDigitOf(c, base, d)
    ensures IsNumeral(c, base) && DigitValue(c, base) == Some(d)
    ensures base == 10 ==> IsDigit(c)
  {
  }

  lemma {:induction false} DenotesDigits(x: string, base: nat, n: nat, i: nat)
    requires (base == 10 || base == 16) && Denotes(x, base, n) && i < |x|
    ensures exists d :: IsDigitOf(x[i], base, d)
    decreases |x|
  {
    if i == |x| - 1 {
      assert IsDigitOf(x[i], base, n % base);
    } else {
      DenotesDigits(x[..|x| - 1], base, n / base, i);
    }
  }

  predicate AllNumerals(x: string, base: nat) {
    forall i :: 0 <= i < |x| ==> IsNumeral(x[i], base) && DigitValue(x[i], base).Some? && (base == 10 ==> IsDigit(x[i]))
  }

  lemma DenotesNumerals(x: string, base: nat, n: nat)
    requires (base == 10 || base == 16) && Denotes(x, base, n)
    ensures AllNumerals(x, base)
  {
    forall i | 0 <= i < |x| ensures IsNumeral(x[i], base) && DigitValue(x[i], base).Some? && (base == 10 ==> IsDigit(x[i])) {
      DenotesDigits(x, base, n, i);
      var d :| IsDigitOf(x[i], base, d);
      DigitRead(x[i], base, d);
    }
  }

  lemma {:induction false} LeadingOneMore(s: string, c: char, base: nat, n: nat)
    requires AllNumerals(s + [c], base)
    ensures AllNumerals(s, base) && DigitValue(c, base).Some?
    ensures Leading(s + [c], base, n) == Leading(s, base, n) * base + DigitValue(c, base).value
    decreases |s|
  {
    var t := s + [c];
    assert forall i :: 0 <= i < |s| ==> t[i] == s[i];
    assert t[|s|] == c;
    if s == "" {
      assert t[1..] == "";
    } else {
      assert t[1..] == s[1..] + [c];
      LeadingOneMore(s[1..], c, base, n * base + DigitValue(s[0], base).value);
    }
  }

  lemma {:induction false} LeadingDenotes(x: string, base: nat, n: nat)
    requires (base == 10 || base == 16) && Denotes(x, base, n)
    ensures Leading(x, base, 0) == n
    decreases |x|
  {
    hide Leading;
    var most, c := x[..|x| - 1], x[|x| - 1];
    assert x == most + [c];
    DenotesNumerals(x, base, n);
    DigitRead(c, base, n % base);
    LeadingOneMore(most, c, base, 0);
    if |x| == 1 {
      LeadingNothing(base);
    } else {
      LeadingDenotes(most, base, n / base);
    }
  }

  lemma LeadingNothing(base: nat)
    ensures Leading("", base, 0) == 0
  {
  }

  lemma {:induction false} NumeralsPassed(src: string, pos: nat, x: string, base: nat)
    requires Reads(src, pos, x) && AllNumerals(x, base) && pos + |x| < |src| && src[pos + |x|] == ' '
    ensures NumeralsEnd(src, pos, base) == pos + |x|
    decreases |x|
  {
    if x != "" {
      ReadsChar(src, pos, x, 0);
      assert x == [x[0]] + x[1..];
      ReadsSplit(src, pos, [x[0]], x[1..]);
      NumeralsPassed(src, pos + 1, x[1..], base);
    }
  }

  /** Hexadecimal numbers of any size, with digits in either case. */
  lemma HexadecimalScanned(src: string, pos: nat, x: string, n: nat, last: Option<Token>)
    requires Denotes(x, 16, n) && Reads(src, pos, "0x" + x + " ")
    ensures ScanToken(src, pos, last) == Scanned([Token.Number(Cut32(n))], pos + 2 + |x|, true)
  {
    hide Denotes, Leading, NumeralsEnd, AllNumerals, ScanNumber, ScanToken, Reads;
    ReadsSplit(src, pos, "0x" + x, " ");
    ReadsInside(src, pos, "0x" + x + " ");
    ReadsChar(src, pos + 2 + |x|, " ", 0);
    ReadsChar(src, pos, "0x" + x, 0);
    DenotesNumerals(x, 16, n);
    DenotesNotEmpty(x, 16, n);
    HexadecimalTurn(src, pos, x);
    LeadingDenotes(x, 16, n);
    DigitTurn(src, pos, last);
  }

  lemma HexadecimalTurn(src: string, pos: nat, x: string)
    requires AllNumerals(x, 16) && x != "" && Reads(src, pos, "0x" + x) && pos + 2 + |x| < |src| && src[pos + 2 + |x|] == ' '
    ensures ScanNumber(src, pos) == Scanned([Token.Number(ToWord(Leading(x, 16, 0)))], pos + 2 + |x|, true)
  {
    hide Leading, NumeralsEnd, ToWord, DigitValue;
    ReadsSplit(src, pos, "0x", x);
    ReadsChar(src, pos, "0x", 0);
    ReadsChar(src, pos, "0x", 1);
    NumeralsPassed(src, pos + 2, x, 16);
    assert src[pos + 2..pos + 2 + |x|] == x;
  }

  lemma DenotesNotEmpty(x: string, base: nat, n: nat)
    requires (base == 10 || base == 16) && Denotes(x, base, n)
    ensures x != ""
  {
  }

  /** Decimal numbers of any size. */
  lemma DecimalScanned(src: string, pos: nat, x: string, n: nat, last: Option<Token>)
    requires Denotes(x, 10, n) && Reads(src, pos, x + " ")
    ensures ScanToken(src, pos, last) == Scanned([Token.Number(Cut32(n))], pos + |x|, true)
  {
    hide Denotes, Leading, NumeralsEnd, Reads, AllNumerals, ScanNumber, ScanToken;
    ReadsSplit(src, pos, x, " ");
    ReadsInside(src, pos, x + " ");
    ReadsChar(src, pos + |x|, " ", 0);
    DenotesNumerals(x, 10, n);
    DenotesNotEmpty(x, 10, n);
    DecimalTurn(src, pos, x);
    LeadingDenotes(x, 10, n);
    ReadsChar(src, pos, x, 0);
    FirstDigit(x, 10);
    DigitTurn(src, pos, last);
  }

  lemma DigitTurn(src: string, pos: nat, last: Option<Token>)
    requires pos < |src| && IsDigit(src[pos])
    ensures ScanToken(src, pos, last) == ScanNumber(src, pos)
  {
    hide ScanNumber;
    NoSymbol(src[pos], Peek(src, pos + 1));
  }

  lemma FirstDigit(x: string, base: nat)
    requires base == 10 && AllNumerals(x, base) && x != ""
    ensures IsDigit(x[0])
  {
  }

  lemma ReadsInside(src: string, pos: nat, x: string)
    requires Reads(src, pos, x)
    ensures pos + |x| <= |src|
  {
  }

  lemma DecimalTurn(src: string, pos: nat, x: string)
    requires AllNumerals(x, 10) && x != "" && Reads(src, pos, x) && pos + |x| < |src| && src[pos + |x|] == ' '
    ensures ScanNumber(src, pos) == Scanned([Token.Number(ToWord(Leading(x, 10, 0)))], pos + |x|, true)
  {
    hide Leading, NumeralsEnd, ToWord, DigitValue;
    ReadsChar(src, pos, x, 0);
    assert x == [x[0]] + x[1..];
    ReadsSplit(src, pos, [x[0]], x[1..]);
    NumeralsPassed(src, pos + 1, x[1..], 10);
    assert src[pos..pos + |x|] == x;
    if |x| > 1 {
      ReadsChar(src, pos, x, 1);
    }
  }

  /** A text for every number and base, with lower-case digits. */
  function Written(base: nat, n: nat): (x: string)
    requires base == 10 || base == 16
    ensures Denotes(x, base, n)
    decreases n
  {
    if n < base then [LOWER_DIGITS[n]]
    else
      var most, last := Written(base, n / base), [LOWER_DIGITS[n % base]];
      assert (most + last)[..|most + last| - 1] == most;
      most + last
  }

  /** Upper-case hexadecimal digits behind a decimal number are taken with it, and do not count. */
  lemma LettersIgnored(src: string, pos: nat, x: string, y: string, n: nat, last: Option<Token>)
    requires Denotes(x, 10, n) && Reads(src, pos, x + y + " ") && forall i :: 0 <= i < |y| ==> 'A' <= y[i] <= 'F'
    ensures ScanToken(src, pos, last) == Scanned([Token.Number(Cut32(n))], pos + |x| + |y|, true)
  {
    hide Denotes, Leading, NumeralsEnd, AllNumerals, ScanNumber, ScanToken, Reads;
    assert x + y + " " == x + (y + " ");
    ReadsSplit(src, pos, x, y + " ");
    ReadsSplit(src, pos, x + y, " ");
    ReadsInside(src, pos, x + y + " ");
    ReadsChar(src, pos + |x| + |y|, " ", 0);
    DenotesNumerals(x, 10, n);
    DenotesNotEmpty(x, 10, n);
    FirstDigit(x, 10);
    ReadsChar(src, pos, x, 0);
    DigitTurn(src, pos, last);
    MixedTurn(src, pos, x, y);
    LeadingStops(x, y, 0);
    LeadingDenotes(x, 10, n);
  }

  lemma MixedTurn(src: string, pos: nat, x: string, y: string)
    requires AllNumerals(x, 10) && x != "" && Reads(src, pos, x + y) && forall i :: 0 <= i < |y| ==> 'A' <= y[i] <= 'F'
    requires pos + |x + y| < |src| && src[pos + |x + y|] == ' '
    ensures ScanNumber(src, pos) == Scanned([Token.Number(ToWord(Leading(x + y, 10, 0)))], pos + |x| + |y|, true)
  {
    hide Leading, NumeralsEnd, ToWord, DigitValue;
    var z := x + y;
    ReadsChar(src, pos, z, 0);
    assert z == [z[0]] + z[1..];
    ReadsSplit(src, pos, [z[0]], z[1..]);
    forall i | 0 <= i < |z| - 1 ensures IsNumeral(z[1..][i], 10) {
      if i + 1 < |x| {
        assert z[1..][i] == x[i + 1];
      } else {
        assert z[1..][i] == y[i + 1 - |x|];
      }
    }
    MixedPassed(src, pos + 1, z[1..]);
    assert src[pos..pos + |z|] == z;
    if |z| > 1 {
      ReadsChar(src, pos, z, 1);
      assert IsNumeral(z[1..][0], 10);
    }
  }

  lemma {:induction false} MixedPassed(src: string, pos: nat, x: string)
    requires Reads(src, pos, x) && (forall i :: 0 <= i < |x| ==> IsNumeral(x[i], 10)) && pos + |x| < |src| && src[pos + |x|] == ' '
    ensures NumeralsEnd(src, pos, 10) == pos + |x|
    decreases |x|
  {
    if x != "" {
      ReadsChar(src, pos, x, 0);
      assert x == [x[0]] + x[1..];
      ReadsSplit(src, pos, [x[0]], x[1..]);
      MixedPassed(src, pos + 1, x[1..]);
    }
  }

  lemma {:induction false} LeadingStops(x: string, y: string, n: nat)
    requires AllNumerals(x, 10) && forall i :: 0 <= i < |y| ==> 'A' <= y[i] <= 'F'
    ensures Leading(x + y, 10, n) == Leading(x, 10, n)
    decreases |x|
  {
    if x != "" {
      assert (x + y)[1..] == x[1..] + y;
      assert (x + y)[0] == x[0];
      LeadingStops(x[1..], y, n * 10 + DigitValue(x[0], 10).value);
    } else {
      assert x + y == y;
    }
  }

  // ---------- symbols and words ----------

  /** `x` is the one text that is read as the token. */
  predicate Spelling(x: string, t: Token) {
    match t
    case LParen => x == "(" case RParen => x == ")" case LBracket => x == "[" case RBracket => x == "]"
    case LBrace => x == "{" case RBrace => x == "}" case Comma => x == "," case Dot => x == "." case DotDot => x == ".."
    case Colon => x == ":" case Equal => x == "=" case BangSign => x == "!" case Tilde => x == "~" case HashSign => x == "#"
    case NotWord => x == "not" case Truth(b) => if b then x == "true" else x == "false"
    case ForWord => x == "for" case AnyWord => x == "any" case AllWord => x == "all" case InWord => x == "in"
    case PrivateWord => x == "private" case RuleWord => x == "rule" case SequenceWord => x == "sequence" case EventWord => x == "event"
    case Operator(op) => OperatorSpelling(x, op)
    case _ => false
  }

  predicate OperatorSpelling(x: string, op: BinOp) {
    match op
    case And => x == "and" case Or => x == "or"
    case Plus => x == "+" case Minus => x == "-" case Mult => x == "*" case Mod => x == "%"
    case BitAnd => x == "&" case Pipe => x == "|" case BitXor => x == "^" case Shl => x == "<<" case Shr => x == ">>"
    case EqualEqual => x == "==" case BangEqual => x == "!="
    case Greater => x == ">" case GreaterEqual => x == ">=" case Less => x == "<" case LessEqual => x == "<="
    case Contains => x == "contains" case IContains => x == "icontains" case IEquals => x == "iequals"
    case StartsWith => x == "startswith" case IStartsWith => x == "istartswith"
    case EndsWith => x == "endswith" case IEndsWith => x == "iendswith" case Matches => x == "matches"
    case Div => false
  }

  lemma SpellingText(x: string, t: Token)
    requires Spelling(x, t)
    ensures (IsSymbol(t) || KeywordIndex(t).Some?) && t != Operator(Div) && x == TokenText(t)
  {
  }

  lemma PlainWritable(t: Token, last: Option<Token>)
    requires (IsSymbol(t) || KeywordIndex(t).Some?) && t != Operator(Div)
    ensures Writable(t, last)
  {
  }

  /** Every symbol and every word is read from its spelling. */
  lemma SpellingScanned(src: string, pos: nat, x: string, t: Token, last: Option<Token>)
    requires Spelling(x, t) && Reads(src, pos, x + " ")
    ensures ScanToken(src, pos, last) == Scanned([t], pos + |x|, true)
  {
    hide Spelling, ScanToken, Writable, TokenText, IsSymbol, KeywordIndex;
    SpellingText(x, t);
    SpelledScanned(src, pos, x, t, last);
  }

  lemma SpelledScanned(src: string, pos: nat, x: string, t: Token, last: Option<Token>)
    requires (IsSymbol(t) || KeywordIndex(t).Some?) && t != Operator(Div) && x == TokenText(t) && Reads(src, pos, x + " ")
    ensures ScanToken(src, pos, last) == Scanned([t], pos + |x|, true)
  {
    hide ScanToken, Writable, TokenText, Reads, IsSymbol, KeywordIndex;
    PlainWritable(t, last);
    ReadsSplit(src, pos, x, " ");
    ReadsInside(src, pos, x + " ");
    ReadsChar(src, pos + |x|, " ", 0);
    TokenScanned(src, pos, t, last);
  }

  /** The words that are no identifiers. */
  const RESERVED := [
    "and", "or", "not", "true", "false", "startswith", "istartswith", "endswith", "iendswith", "contains", "icontains",
    "iequals", "matches", "for", "any", "all", "in", "private", "rule", "sequence", "event"]

  lemma ReservedTable(k: nat)
    requires k < |KEYWORDS|
    ensures KEYWORDS[k].0 in RESERVED
  {
    assert |KEYWORDS| == |RESERVED| && KEYWORDS[k].0 == RESERVED[k];
  }

  lemma {:induction false} KeywordMissed(x: string, k: nat)
    requires k <= |KEYWORDS| && x !in RESERVED
    ensures Keyword(x, k) == Ident(x)
    decreases |KEYWORDS| - k
  {
    hide *;
    if k < |KEYWORDS| {
      ReservedTable(k);
      KeywordMissed(x, k + 1);
    }
    KeywordStep(x, k);
  }

  lemma KeywordStep(x: string, k: nat)
    requires k <= |KEYWORDS|
    ensures Keyword(x, k) == if k == |KEYWORDS| then Ident(x) else if KEYWORDS[k].0 == x then KEYWORDS[k].1 else Keyword(x, k + 1)
  {
  }

  /** Letters, digits and underscores, beginning with no digit, are an identifier unless they are a reserved word. */
  lemma IdentifierScanned(src: string, pos: nat, x: string, last: Option<Token>)
    requires x != "" && x !in RESERVED && !('0' <= x[0] <= '9') && Reads(src, pos, x + " ")
    requires forall i :: 0 <= i < |x| ==> x[i] == '_' || 'a' <= x[i] <= 'z' || 'A' <= x[i] <= 'Z' || '0' <= x[i] <= '9'
    ensures ScanToken(src, pos, last) == Scanned([Ident(x)], pos + |x|, true)
  {
    hide ScanToken, Reads, Keyword;
    ReadsSplit(src, pos, x, " ");
    ReadsInside(src, pos, x + " ");
    ReadsChar(src, pos + |x|, " ", 0);
    WordScanned(src, pos, x, last);
    KeywordMissed(x, 0);
  }

  /** White space and all other characters that begin no token are passed over; a lone backslash is read as a dot. */
  lemma OthersSkipped(src: string, pos: nat, last: Option<Token>)
    requires pos < |src|
    ensures src[pos] in [' ', '\t', '\r', '\n', '$', '?', ';', '@'] ==> ScanToken(src, pos, last) == Scanned([], pos + 1, true)
    ensures src[pos] as int > 126 ==> ScanToken(src, pos, last) == Scanned([], pos + 1, true)
    ensures src[pos] == '\\' && !(pos + 1 < |src| && src[pos + 1] == '.') ==> ScanToken(src, pos, last) == Scanned([Dot], pos + 1, true)
  {
  }

  /** A slash is a division, unless it stands behind `matches` or opens a comment. */
  lemma SlashScanned(src: string, pos: nat, last: Option<Token>)
    requires Reads(src, pos, "/ ") && last != Some(Operator(Matches))
    ensures ScanToken(src, pos, last) == Scanned([Operator(Div)], pos + 1, true)
  {
    ReadsChar(src, pos, "/ ", 0);
    ReadsChar(src, pos, "/ ", 1);
  }

  // ---------- strings and regexes ----------

  /** The letters behind a backslash, and the codes of the characters they stand for. */
  const ESCAPES: seq<(char, int)> := [
    ('n', 10), ('t', 9), ('r', 13), ('a', 7), ('b', 8), ('f', 12), ('v', 11), ('\\', 92), ('"', 34), ('\'', 39), ('/', 47)]

  lemma EscapesDefined(c: char)
    ensures Escaped(c).Some? <==> exists k :: 0 <= k < |ESCAPES| && ESCAPES[k].0 == c
    ensures forall k :: 0 <= k < |ESCAPES| && ESCAPES[k].0 == c ==> Escaped(c).Some? && Escaped(c).value as int == ESCAPES[k].1
  {
    if Escaped(c).Some? {
      EscapeIndexed(c);
    }
  }

  lemma EscapeIndexed(c: char)
    requires Escaped(c).Some?
    ensures exists k :: 0 <= k < |ESCAPES| && ESCAPES[k].0 == c
  {
    assert ESCAPES[0].0 == 'n' && ESCAPES[1].0 == 't' && ESCAPES[2].0 == 'r' && ESCAPES[3].0 == 'a' && ESCAPES[4].0 == 'b' && ESCAPES[5].0 == 'f';
    assert ESCAPES[6].0 == 'v' && ESCAPES[7].0 == '\\' && ESCAPES[8].0 == '"' && ESCAPES[9].0 == '\'' && ESCAPES[10].0 == '/';
  }

  /** In a string each of them adds its character, wherever it stands; any other letter is an error. */
  lemma EscapeScanned(src: string, pos: nat, quote: char, read: string)
    requires pos + 1 < |src| && src[pos] == '\\' && quote in ['"', '\'', '`']
    ensures var r := ScanQuoted(src, pos, quote, read);
            && (forall k :: 0 <= k < |ESCAPES| && ESCAPES[k].0 == src[pos + 1] ==> r == ScanQuoted(src, pos + 2, quote, read + [ESCAPES[k].1 as char]))
            && ((forall k :: 0 <= k < |ESCAPES| ==> ESCAPES[k].0 != src[pos + 1]) ==> r == Malformed)
  {
    EscapesDefined(src[pos + 1]);
    hide Escaped;
  }

  /** Between two equal quotes, text without that quote, a backslash or a line end is a string. */
  lemma QuotedScanned(src: string, pos: nat, quote: char, x: string, last: Option<Token>)
    requires quote in ['"', '\'', '`'] && Reads(src, pos, [quote] + (x + [quote]))
    requires x != "" && quote !in x && '\\' !in x && '\n' !in x
    ensures ScanToken(src, pos, last) == Scanned([Str(x)], pos + |x| + 2, true)
  {
    hide ScanQuoted, ScanNumber, Keyword;
    ReadsSplit(src, pos, [quote], x + [quote]);
    ReadsChar(src, pos, [quote], 0);
    PlainQuoted(src, pos + 1, quote, x, "");
    assert "" + x == x;
  }

  lemma {:induction false} PlainQuoted(src: string, pos: nat, quote: char, x: string, read: string)
    requires Reads(src, pos, x + [quote]) && quote !in x && '\\' !in x && '\n' !in x && quote != '\n' && quote != '\\'
    ensures ScanQuoted(src, pos, quote, read) == Closed(read + x, pos + |x| + 1)
    decreases |x|
  {
    if x == "" {
      ReadsChar(src, pos, x + [quote], 0);
      assert read + x == read;
    } else {
      assert x + [quote] == [x[0]] + (x[1..] + [quote]);
      ReadsSplit(src, pos, [x[0]], x[1..] + [quote]);
      ReadsChar(src, pos, [x[0]], 0);
      assert x[0] in x;
      PlainQuoted(src, pos + 1, quote, x[1..], read + [x[0]]);
      assert read + [x[0]] + x[1..] == read + x;
    }
  }

  /** The modifiers that letters add. */
  function Modified(x: Modifiers, letters: string): Modifiers {
    Modifiers(x.i || 'i' in letters, x.s || 's' in letters, x.m || 'm' in letters, x.n || 'n' in letters)
  }

  lemma {:induction false} ModifiersRead(src: string, pos: nat, letters: string, pattern: string, x: Modifiers)
    requires Reads(src, pos, letters + " ") && forall i :: 0 <= i < |letters| ==> letters[i] in ['i', 's', 'm', 'n']
    ensures ScanModifiers(src, pos, pattern, x) == Scanned([Token.Regex(pattern, Mask(Modified(x, letters)))], pos + |letters|, true)
    decreases |letters|
  {
    hide Mask;
    var text := letters + " ";
    ReadsChar(src, pos, text, 0);
    if letters != "" {
      var c, rest := letters[0], letters[1..];
      assert text == [c] + (rest + " ");
      ReadsSplit(src, pos, [c], rest + " ");
      assert letters == [c] + rest;
      ModifiersRead(src, pos + 1, rest, pattern, Modify(x, c).value);
    }
  }

  /** The modifiers of a regex are the bits of the engine's options, in any order and however often they are repeated. */
  lemma ModifierBits(src: string, pos: nat, letters: string, pattern: string)
    requires Reads(src, pos, letters + " ") && forall i :: 0 <= i < |letters| ==> letters[i] in ['i', 's', 'm', 'n']
    ensures ScanModifiers(src, pos, pattern, PLAIN) ==
            Scanned([Token.Regex(pattern, (if 'i' in letters then 0x8 else 0) + (if 's' in letters then 0x20 else 0) +
                                          (if 'm' in letters then 0x400 else 0) + (if 'n' in letters then 0x2000 else 0))],
                    pos + |letters|, true)
  {
    hide ScanModifiers;
    ModifiersRead(src, pos, letters, pattern, PLAIN);
  }

  // ---------- comments ----------

  /** The characters that close a comment stand at `p`. */
  predicate Closes(src: string, p: nat) {
    p + 1 < |src| && src[p] == '*' && src[p + 1] == '/'
  }

  /** A comment in `/*` ends behind the first `*/`, and is an error without one. */
  lemma {:induction false} BlockCommentEnds(src: string, pos: nat)
    ensures match CommentEnd(src, pos, '*')
            case Some(end) => pos + 2 <= end && Closes(src, end - 2) && forall p :: pos <= p < end - 2 ==> !Closes(src, p)
            case None => forall p :: pos <= p ==> !Closes(src, p)
    decreases |src| - pos
  {
    if pos < |src| && !Closes(src, pos) {
      BlockCommentEnds(src, pos + 1);
    }
  }

  /** A line comment ends behind the first line end. */
  lemma {:induction false} LineCommentEnd(src: string, pos: nat)
    ensures match CommentEnd(src, pos, '/')
            case Some(end) => pos < end <= |src| && src[end - 1] == '\n' && forall p :: pos <= p < end - 1 ==> src[p] != '\n'
            case None => forall p :: pos <= p < |src| ==> src[p] != '\n'
    decreases |src| - pos
  {
    if pos < |src| && src[pos] != '\n' {
      LineCommentEnd(src, pos + 1);
    }
  }

  /** Comments add no token. */
  lemma CommentSkipped(src: string, pos: nat, last: Option<Token>)
    requires pos + 1 < |src| && src[pos] == '/' && (src[pos + 1] == '/' || src[pos + 1] == '*')
    ensures ScanToken(src, pos, last) ==
            match CommentEnd(src, pos + 2, src[pos + 1])
            case Some(end) => Scanned([], end, true)
            case None => PANIC
  {
  }
}
