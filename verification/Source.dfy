/** From program to text and back. */
module Source {
  import opened Wrappers
  import opened Ast
  import opened Tokens
  import opened Statements
  import opened Scanner

  /** The tokens of a program without the end-of-file token. */
  function Written(ss: seq<Statement>): (ts: seq<Token>)
    ensures PrintProgram(ss) == ts + [EndOfFile]
  {
    EndsFile(ss);
    PrintProgram(ss)[..|PrintProgram(ss)| - 1]
  }

  lemma {:induction false} EndsFile(ss: seq<Statement>)
    ensures var ts := PrintProgram(ss); ts != [] && ts[|ts| - 1] == EndOfFile && ts == ts[..|ts| - 1] + [EndOfFile]
    decreases |ss|
  {
    hide PrintStatement;
    if ss != [] {
      EndsFile(ss[1..]);
    }
  }

  /** Scanning and parsing the text of a program gives the program back. */
  lemma TextRoundTrip(ss: seq<Statement>)
    requires ss != [] && (forall s <- ss :: CanonicalStatement(s)) && AllWritable(Written(ss), None)
    ensures var ts := Scan(TokensText(Written(ss)), 0, []); ts.Some? && ParseProgram(ts.value, 0, 0) == Some(ss)
  {
    hide Scan, ParseProgram, TokensText, AllWritable, PrintStatement, CanonicalStatement, ParseStatement;
    var ts, src := Written(ss), TokensText(Written(ss));
    FirstStatement(ss);
    assert src[0..] == src && [] + ts + [EndOfFile] == PrintProgram(ss);
    WrittenScanned(src, 0, ts, []);
    assert PrintProgram(ss)[0..|PrintProgram(ss)|] == PrintProgram(ss);
    ProgramPrinted(PrintProgram(ss), 0, ss);
  }

  lemma FirstStatement(ss: seq<Statement>)
    requires ss != []
    ensures Written(ss) != []
  {
    hide PrintMembers, PrintBody, PrintEvent, PrintSpan;
    var rest := PrintProgram(ss[1..]);
    EndsFile(ss[1..]);
    assert PrintProgram(ss) == PrintStatement(ss[0]) + rest;
    assert |PrintStatement(ss[0])| > 0;
    assert |PrintProgram(ss)| > 1;
  }
}
