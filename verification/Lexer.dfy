/** The scanner as the program writes it: a cursor over the text and a growing token list. */
module Lexer {
  import opened Wrappers
  import opened Ast
  import opened Tokens
  import opened Scanner

  class TextLexer {
    const source: string
    var current: nat
    var tokens: seq<Token>
    var panicked: bool

    ghost predicate Valid()
      reads this
    {
      current <= |source|
    }

    constructor (source: string)
      ensures Valid() && this.source == source && current == 0 && tokens == [] && !panicked
    {
      this.source, current, tokens, panicked := source, 0, [], false;
    }

    /** What a turn that began at `start` with the tokens `before` has done is what `r` says. */
    ghost predicate Did(start: seq<Token>, r: Scanned)
      reads this
    {
      if r.ok then !panicked && current == r.pos && tokens == start + r.added else panicked
    }

    method HandleComment(kind: char)
      requires Valid() && !panicked && current < |source| && (kind == '/' || kind == '*')
      modifies this
      ensures Valid()
      ensures Did(old(tokens), var end := old(CommentEnd(source, current, kind)); if end.None? then PANIC else Scanned([], end.value, true))
    {
      ghost var result := CommentEnd(source, current, kind);
      while current < |source|
        invariant Valid() && !panicked && tokens == old(tokens) && CommentEnd(source, current, kind) == result
      {
        var c := source[current];
        current := current + 1;
        if kind == '/' {
          if c == '\n' {
            assert tokens == old(tokens) + [];
            return;
          }
        } else if c == '*' && current < |source| && source[current] == '/' {
          current := current + 1;
          assert tokens == old(tokens) + [];
          return;
        }
      }
      panicked := true;
    }

    /** A string, or behind `matches` a regex; the opening quote has been read. */
    method HandleString(quote: char)
      requires Valid() && !panicked
      modifies this
      ensures Valid() && Did(old(tokens), old(ScanText(source, current, quote)))
    {
      hide ScanModifiers;
      ghost var result := ScanQuoted(source, current, quote, "");
      var read := "";
      while current < |source|
        invariant Valid() && !panicked && tokens == old(tokens) && ScanQuoted(source, current, quote, read) == result
      {
        var c := source[current];
        current := current + 1;
        if c == '\n' {
          panicked := true;
          return;
        }
        if c == '\\' && quote != '/' {
          var e := Escaped(if current < |source| then source[current] else '\0');
          if e.None? {
            panicked := true;
            return;
          }
          current := current + 1;
          c := e.value;
        } else if c == quote {
          if quote == '/' {
            HandleRegex(read);
          } else {
            tokens := tokens + [Str(read)];
          }
          return;
        }
        read := read + [c];
      }
      assert tokens == old(tokens) + [];
    }

    method HandleRegex(pattern: string)
      requires Valid() && !panicked
      modifies this
      ensures Valid() && Did(old(tokens), old(ScanModifiers(source, current, pattern, PLAIN)))
    {
      hide Mask;
      ghost var result := ScanModifiers(source, current, pattern, PLAIN);
      var x := PLAIN;
      while current < |source|
        invariant Valid() && !panicked && tokens == old(tokens) && ScanModifiers(source, current, pattern, x) == result
      {
        var y := Modify(x, source[current]);
        if y.None? {
          tokens := tokens + [Token.Regex(pattern, Mask(x))];
          return;
        }
        x := y.value;
        current := current + 1;
      }
      assert tokens == old(tokens) + [];
    }

    /** A number; its first digit is at the cursor. */
    method HandleInteger()
      requires Valid() && !panicked && current < |source| && IsDigit(source[current])
      modifies this
      ensures Valid() && Did(old(tokens), old(ScanNumber(source, current)))
    {
      hide Leading, ToWord;
      var base, start := 10, current;
      current := current + 1;
      if source[start] == '0' && current < |source| && source[current] == 'x' {
        base := 16;
        current := current + 1;
        start := current;
      }
      ghost var end := NumeralsEnd(source, current, base);
      while current < |source| && IsNumeral(source[current], base)
        invariant Valid() && start <= current && tokens == old(tokens) && !panicked && NumeralsEnd(source, current, base) == end
        invariant base == 10 ==> start < current
      {
        current := current + 1;
      }
      if current == start {
        panicked := true;
      } else {
        tokens := tokens + [Token.Number(ToWord(Leading(source[start..current], base, 0)))];
      }
    }

    method HandleIdentifier()
      requires Valid() && !panicked && current < |source| && IsWordChar(source[current])
      modifies this
      ensures Valid() && !panicked && current == old(WordEnd(source, current + 1))
      ensures tokens == old(tokens) + [Keyword(source[old(current)..current], 0)]
    {
      hide Keyword;
      var start := current;
      current := current + 1;
      ghost var end := WordEnd(source, current);
      while current < |source| && IsWordChar(source[current])
        invariant Valid() && start < current && tokens == old(tokens) && !panicked && WordEnd(source, current) == end
      {
        current := current + 1;
      }
      tokens := tokens + [Keyword(source[start..current], 0)];
    }

    /** One turn of the scanner, without the end-of-file token. */
    method ScanOne()
      requires Valid() && !panicked && current < |source|
      modifies this
      ensures Valid() && Did(old(tokens), old(ScanToken(source, current, LastToken(tokens))))
    {
      hide ScanText, ScanNumber, CommentEnd, Keyword, WordEnd, SymbolAt;
      var c := source[current];
      var next := if current + 1 < |source| then source[current + 1] else '\0';
      if c == '/' {
        current := current + 1;
        if next == '/' || next == '*' {
          NotAtEnd(source, current, next);
          CommentOpens(source, current, next);
          current := current + 1;
          if current < |source| {
            HandleComment(next);
          } else {
            panicked := true;
          }
        } else if tokens != [] && tokens[|tokens| - 1] == Operator(Matches) {
          HandleString(c);
        } else {
          tokens := tokens + [Operator(Div)];
        }
        return;
      }
      var symbol := SymbolAt(c, next);
      if symbol.Some? {
        tokens, current := tokens + [symbol.value.token], current + symbol.value.length;
      } else if c == '`' || c == '"' || c == '\'' {
        current := current + 1;
        HandleString(c);
      } else if IsDigit(c) {
        HandleInteger();
      } else if IsWordChar(c) {
        HandleIdentifier();
      } else {
        current := current + 1;
        assert tokens == old(tokens) + [];
      }
    }

    /** `ac_lex_scan`: turn after turn to the end of the text. */
    method ScanAll() returns (result: Option<seq<Token>>)
      requires Valid() && current == 0 && tokens == [] && !panicked
      modifies this
      ensures Valid() && result == Scan(source, 0, [])
    {
      hide ScanToken;
      ghost var all := Scan(source, 0, []);
      while current < |source|
        invariant Valid() && !panicked && Scan(source, current, tokens) == all
        decreases |source| - current
      {
        ghost var (before, r) := (tokens, ScanToken(source, current, LastToken(tokens)));
        ScanOne();
        if panicked {
          return None;
        }
        assert tokens + [] == tokens;
        if current >= |source| {
          tokens := tokens + [EndOfFile];
        }
        assert tokens == Grown(source, before, r);
      }
      result := Some(tokens);
    }
  }

  lemma NotAtEnd(src: string, pos: nat, next: char)
    requires pos <= |src| && next == (if pos < |src| then src[pos] else '\0') && next != '\0'
    ensures pos < |src|
  {
  }

  lemma CommentOpens(src: string, pos: nat, kind: char)
    requires pos < |src|
    ensures pos + 1 == |src| ==> CommentEnd(src, pos + 1, kind).None?
  {
  }
}
