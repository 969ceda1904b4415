/** All stages in a row: text, tokens, tree, types, code, verdict. */
module Pipeline {
  import opened Wrappers
  import opened Ast
  import opened Machine
  import opened Semantics
  import opened Checker
  import opened Correctness
  import opened References
  import Roots
  import opened Compiler
  import opened Linking
  import opened Program
  import Statements
  import Scanner
  import Source

  predicate WritableFile(ss: seq<Statement>) {
    ss != [] && (forall st <- ss :: Statements.CanonicalStatement(st)) && Scanner.AllWritable(Source.Written(ss), None)
  }

  /** Scanning and parsing the text of the file gives the file. */
  predicate ReadBack(ss: seq<Statement>)
    requires WritableFile(ss)
  {
    var ts := Scanner.Scan(Scanner.TokensText(Source.Written(ss)), 0, []);
    ts.Some? && Statements.ParseProgram(ts.value, 0, 0) == Some(ss)
  }

  /**
   * The texts of the files are read back as the files, and every rule halts with the verdict its tree means,
   * except where it reaches an identifier without code; in a single file no rule with an event does.
   */
  lemma TextRuns(known: Modules, versions: map<string, nat>, files: seq<seq<Statement>>, objects: map<string, Object>, x: Externals,
                 j: nat, s: seq<Value>, k: nat)
    returns (fuel: nat)
    requires forall ss <- files :: WritableFile(ss)
    requires var c := CheckFiles(known, files); var q := ProgramProgress(versions, c.statements);
             && c.ok && ProperFiles(known, files)
             && (forall st <- c.statements :: Clean(st)) && Fits(q.out) && q.error == 0
             && j < |q.out.sources| && |s| + RuleDepth(WorldOf(q.out, objects, x), j) <= STACK_MAX
    requires WorldConforms(known, objects, x)
    ensures forall ss <- files :: ReadBack(ss)
    ensures var o := ProgramProgress(versions, CheckFiles(known, files).statements).out;
            var w := WorldOf(o, objects, x);
            && |o.rules| == |o.sources| && EmittableWorld(w)
            && var r := Exec(ImageOf(o, objects, x), o.rules[j].codeOffset, s, ZERO, fuel);
               match EvalRule(w, j)
               case Val(v, _) => v.Num? && r == Stop(0, v.w, s, k)
               case Err(e) => r.Stop? && r.error == e && r.result == 0 && s <= r.stack
               case Lost(reason) =>
                 || (reason == UndefinedArithmetic && r == Fault(UndefinedArithmetic))
                 || (reason == NoCode && !Rooted(o.sources, j) && (|files| == 1 ==> o.rules[j].ordinal == 0))
  {
    hide Exec, EvalRule, RuleDepth, CheckFiles, ProperFiles, ProgramProgress, WorldConforms, Rooted;
    hide Scanner.Scan, Scanner.TokensText, Scanner.AllWritable, Statements.ParseProgram;
    forall ss <- files ensures ReadBack(ss) {
      Source.TextRoundTrip(ss);
    }
    fuel := ProgramRuns(known, versions, files, objects, x, j, s, k);
    if |files| == 1 && ProgramProgress(versions, CheckFiles(known, files).statements).out.rules[j].ordinal != 0 {
      assert files == [files[0]];
      Roots.SingleFileRooted(known, versions, files[0], j);
    }
  }
}
