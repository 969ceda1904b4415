/**
 * Where every rule that an event runs is rooted: a name that an accepted body mentions is its module or a rule
 * of its own event, so only a rule without an event can bring a rule without code within reach, and only
 * under a repeated name.
 */
module Roots {
  import opened Wrappers
  import opened Ast
  import opened Semantics
  import opened References
  import opened Checker
  import opened Soundness
  import opened Compiler
  import opened Linking
  import opened Program
  import Names

  // ---------- what an accepted body mentions ----------

  /** The name is the event's module, or a rule of the event other than the one being checked. */
  predicate InReach(sc: Scope, x: string) {
    sc.event == Some(x) || (x in sc.env && sc.env[x].RuleName? && sc.env[x].event == sc.event && sc.self != Some(x))
  }

  predicate AllInReach(sc: Scope, names: set<string>) {
    forall x <- names :: InReach(sc, x)
  }

  /** The scope's only variable is the loop variable. */
  predicate OneVariable(sc: Scope, iter: Option<string>) {
    forall x <- sc.env :: sc.env[x] == Variable ==> iter == Some(x)
  }

  lemma {:induction false} CanonMentions(e: Expr, iter: Option<string>)
    ensures Mentioned(Canon(e), iter) == Mentioned(e, iter) && HasRange(Canon(e)) == HasRange(e)
    decreases e, 1
  {
    CanonShape(e);
    match e
    case Binary(_, l, r, _) => CanonMentions(l, iter); CanonMentions(r, IterAfter(l, iter));
    case Unary(_, r) => CanonMentions(r, iter);
    case Grouping(i) => CanonMentions(i, iter);
    case Call(f, args) => CanonAllMentions(args, iter); CanonMentions(f, IterAfterAll(args, iter));
    case Field(o, _, _) => CanonMentions(o, iter);
    case Index(a, i) => CanonMentions(a, iter); CanonMentions(i, IterAfter(a, iter));
    case Range(_, x, s, t, c) =>
      var i1 := IterAfter(t, Some(x));
      CanonMentions(t, Some(x));
      CanonMentions(s, i1);
      CanonMentions(c, IterAfter(s, i1));
    case _ =>
  }

  lemma {:induction false} CanonAllMentions(es: seq<Expr>, iter: Option<string>)
    ensures MentionedAll(CanonAll(es), iter) == MentionedAll(es, iter) && AnyRange(CanonAll(es)) == AnyRange(es)
    decreases es, 2
  {
    CanonAllShape(es);
    if es != [] {
      assert CanonAll(es)[1..] == CanonAll(es[1..]);
      CanonAllMentions(es[1..], iter);
      CanonMentions(es[0], IterAfterAll(es[1..], iter));
    }
  }

  lemma {:induction false} RegexMentions(e: Expr, iter: Option<string>)
    requires IsRegex(Strip(e))
    ensures Mentioned(e, iter) == {}
    decreases e
  {
    if e.Grouping? {
      RegexMentions(e.inner, iter);
    }
  }

  /** An accepted, proper body mentions only names within reach. */
  lemma {:induction false} AcceptedMentions(sc: Scope, e: Expr, iter: Option<string>)
    requires Proper(sc, e) && Resolve(sc, e).tag != Eof && OneVariable(sc, iter) && (iter.Some? ==> !HasRange(e))
    ensures AllInReach(sc, Mentioned(Resolve(sc, e).expr, iter))
    decreases e, 3
  {
    match e
    case Binary(op, l, r, _) =>
      AcceptedMentions(sc, l, iter);
      SameIter(sc, l, iter);
      if op == Matches {
        ResolveShape(sc, r);
        RegexMentions(Resolve(sc, r).expr, iter);
      } else {
        AcceptedMentions(sc, r, iter);
      }
    case Unary(_, r) => AcceptedMentions(sc, r, iter);
    case Grouping(i) => AcceptedMentions(sc, i, iter);
    case Lit(_) =>
    case Call(_, _) => PathMentions(sc, e, iter);
    case Field(_, _, _) => PathMentions(sc, e, iter);
    case Index(a, i) =>
      PathMentions(sc, a.owner, iter);
      AcceptedMentions(sc, i, iter);
      SameIter(sc, a.owner, iter);
    case Range(_, x, s, t, c) => RangeMentions(sc, e, iter);
  }

  lemma {:induction false} RangeMentions(sc: Scope, e: Expr, iter: Option<string>)
    requires e.Range? && Proper(sc, e) && Resolve(sc, e).tag != Eof && OneVariable(sc, iter) && iter == None
    ensures AllInReach(sc, Mentioned(Resolve(sc, e).expr, iter))
    decreases e, 0
  {
    var x := Some(e.ivar);
    var inner := sc.(env := sc.env[e.ivar := Variable]);
    AcceptedMentions(sc, e.end, x);
    AcceptedMentions(sc, e.start, x);
    AcceptedMentions(inner, e.condition, x);
    SameIter(sc, e.end, x);
    SameIter(sc, e.start, x);
  }

  lemma {:induction false} PathMentions(sc: Scope, e: Expr, iter: Option<string>)
    requires ProperPath(sc, e) && !Trace(sc, e).reach.Failed? && OneVariable(sc, iter) && (iter.Some? ==> !HasRange(e))
    ensures AllInReach(sc, Mentioned(Trace(sc, e).path, iter))
    decreases e, 2
  {
    match e
    case Lit(_) =>
    case Field(o, _, _) => PathMentions(sc, o, iter);
    case Index(a, i) =>
      PathMentions(sc, a.owner, iter);
      SameIter(sc, a.owner, iter);
      AcceptedMentions(sc, i, iter);
      CanonMentions(i, iter);
      CanonMentions(Resolve(sc, i).expr, iter);
    case Call(f, args) =>
      ArgumentsMentions(sc, args, iter);
      SameIterAll(sc, args, iter);
      CallMentions(sc, e, iter);
  }

  lemma CallMentions(sc: Scope, e: Expr, iter: Option<string>)
    requires e.Call? && ProperPath(sc, e) && !Trace(sc, e).reach.Failed?
    requires IterAfterAll(Exprs(ResolveAll(sc, e.arguments).value), iter) == iter
    ensures ResolveAll(sc, e.arguments).Some? && sc.event == Some(e.callee.owner.literal.name)
    ensures Mentioned(Trace(sc, e).path, iter) <= MentionedAll(Exprs(ResolveAll(sc, e.arguments).value), iter) + {e.callee.owner.literal.name}
  {
    hide ResolveAll, MentionedAll;
    var owner, path := e.callee.owner, Trace(sc, e).path;
    assert Trace(sc, owner).path == owner;
    assert path.callee.owner == owner && Mentioned(owner, iter) <= {owner.literal.name};
    assert Mentioned(path.callee, iter) == Mentioned(owner, iter);
  }

  lemma {:induction false} ArgumentsMentions(sc: Scope, es: seq<Expr>, iter: Option<string>)
    requires AllProper(sc, es) && ResolveAll(sc, es).Some? && OneVariable(sc, iter) && (iter.Some? ==> !AnyRange(es))
    ensures AllInReach(sc, MentionedAll(Exprs(ResolveAll(sc, es).value), iter))
    decreases es, 4
  {
    hide Resolve, Proper;
    if es != [] {
      ArgumentsParts(sc, es);
      ArgumentsMentions(sc, es[1..], iter);
      SameIterAll(sc, es[1..], iter);
      AcceptedMentions(sc, es[0], iter);
    }
  }

  // ---------- rooted programs ----------

  /** Where names are unique, every rule that an event runs is rooted: all rules it reaches have its event. */
  lemma {:induction false} UniqueRooted(known: Modules, o: Output, j: nat)
    requires |o.rules| == |o.sources| && UniqueNames(o) && (forall k :: 0 <= k < |o.rules| ==> RuleChecked(known, o, k))
    requires j < |o.rules| && o.rules[j].ordinal != 0
    ensures Rooted(o.sources, j)
    decreases j
  {
    hide Proper, Resolve, IndexOf, UniqueNames, Mentioned, NamesStand;
    assert RuleChecked(known, o, j);
    var sc, e :| CheckedIn(known, o, j, sc, e);
    AcceptedMentions(sc, e, None);
    forall x <- Mentioned(o.sources[j].body, None) | o.sources[j].event != Some(x)
      ensures var i := IndexOf(o.sources, x); i.Some? && i.value < j ==> Rooted(o.sources, i.value)
    {
      assert InReach(sc, x);
      var i := UniqueReference(known, o, j, sc, e, x);
      UniqueRooted(known, o, i);
    }
  }

  lemma UniqueReference(known: Modules, o: Output, j: nat, sc: Scope, e: Expr, x: string) returns (i: nat)
    requires |o.rules| == |o.sources| && UniqueNames(o) && CheckedIn(known, o, j, sc, e) && sc.event.Some?
    requires x in sc.env && sc.env[x].RuleName? && sc.env[x].event == sc.event && sc.self != Some(x)
    ensures i < j && o.rules[i].ordinal != 0 && IndexOf(o.sources, x) == Some(i)
  {
    hide Proper, Resolve, IndexOf;
    i :| 0 <= i < j && Stands(o, i, x, sc.env[x].event);
    FirstIndex(o.sources, x, i);
  }

  /** In a program of one accepted file every rule that an event runs is rooted. */
  lemma SingleFileRooted(known: Modules, versions: map<string, nat>, statements: seq<Statement>, j: nat)
    requires ProperFiles(known, [statements])
    requires var c := CheckFiles(known, [statements]); var q := ProgramProgress(versions, c.statements);
             && c.ok && (forall s <- c.statements :: Clean(s)) && Fits(q.out) && q.error == 0
             && j < |q.out.rules| && q.out.rules[j].ordinal != 0
    ensures var o := ProgramProgress(versions, CheckFiles(known, [statements]).statements).out;
            |o.rules| == |o.sources| && Rooted(o.sources, j)
  {
    hide CheckFiles, ProgramProgress, Fits, Clean, ProperFiles, UniqueNames, RuleBuilt, RuleChecked, Rooted;
    Names.SingleFileUnique(known, versions, statements);
    FilesInStep(known, versions, [statements]);
    UniqueRooted(known, ProgramProgress(versions, CheckFiles(known, [statements]).statements).out, j);
  }
}
