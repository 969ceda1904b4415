/**
 * Files of rules and the names in scope: which files pass the checker, stated by the typing relation and by
 * what their statements declare.
 */
module TypedFiles {
  import opened Wrappers
  import opened Ast
  import opened Checker
  import opened Soundness
  import opened Typing

  // ---------- the names in scope ----------

  /** What a statement adds to the names in scope. */
  function Introduces(env: Environment, file: nat, s: Statement): Environment {
    match s
    case Import(name) => if name in env then env else env[name := OtherName]
    case Declare(name, event, _, _) => env[name := RuleName(event, file)]
    case Sequence(name, _, _) => env[name := OtherName]
  }

  /** The names in scope behind the statements. */
  function Visible(env: Environment, file: nat, statements: seq<Statement>): Environment {
    if statements == [] then env
    else Introduces(Visible(env, file, statements[..|statements| - 1]), file, statements[|statements| - 1])
  }

  function PrivateNames(statements: seq<Statement>): set<string> {
    set s <- statements | s.Declare? && s.isPrivate :: s.ruleName
  }

  /** The names that earlier files leave to later ones: all but the private ones. */
  function Public(files: seq<seq<Statement>>): Environment {
    if files == [] then map[]
    else
      var last := |files| - 1;
      Visible(Public(files[..last]), last, files[last]) - PrivateNames(files[last])
  }

  // ---------- files that are typed ----------

  /** The module of the event is known, and the body is Boolean. */
  ghost predicate BodyTyped(known: Modules, env: Environment, self: Option<string>, event: Option<string>, body: Expr) {
    && (event.Some? ==> event.value in known)
    && Typed(Scope(env, self, event, if event.Some? then Some(known[event.value]) else None), body, Logical)
  }

  /** A member of a sequence is a rule of the same file, or a typed body. */
  ghost predicate MemberTyped(known: Modules, env: Environment, file: nat, m: Member) {
    match m
    case Reference(name) => exists event :: name in env && env[name] == RuleName(event, file)
    case Anonymous(event, body) => BodyTyped(known, env, None, event, body)
  }

  /** A declared name is new, and in scope in its own statement. */
  ghost predicate StatementTyped(known: Modules, env: Environment, file: nat, s: Statement) {
    match s
    case Import(_) => true
    case Declare(name, event, body, _) => name !in env && BodyTyped(known, env[name := RuleName(event, file)], Some(name), event, body)
    case Sequence(name, _, members) => name !in env && forall m <- members :: MemberTyped(known, env[name := OtherName], file, m)
  }

  ghost predicate FileTyped(known: Modules, env: Environment, file: nat, statements: seq<Statement>) {
    forall i :: 0 <= i < |statements| ==> StatementTyped(known, Visible(env, file, statements[..i]), file, statements[i])
  }

  ghost predicate FilesTyped(known: Modules, files: seq<seq<Statement>>) {
    forall f :: 0 <= f < |files| ==> TypedAt(known, files, f)
  }

  ghost predicate TypedAt(known: Modules, files: seq<seq<Statement>>, f: nat)
    requires f < |files|
  {
    FileTyped(known, Public(files[..f]), f, files[f])
  }

  // ---------- and files that are proper ----------

  predicate BodyProper(known: Modules, env: Environment, self: Option<string>, event: Option<string>, body: Expr) {
    var sc := RuleScope(known, env, self, event); sc.Some? ==> Proper(sc.value, body)
  }

  predicate StatementProper(known: Modules, env: Environment, file: nat, s: Statement) {
    match s
    case Import(_) => true
    case Declare(name, event, body, _) => BodyProper(known, env[name := RuleName(event, file)], Some(name), event, body)
    case Sequence(name, _, members) => forall m <- members :: m.Anonymous? ==> BodyProper(known, env[name := OtherName], None, m.event, m.body)
  }

  ghost predicate FileProper(known: Modules, env: Environment, file: nat, statements: seq<Statement>) {
    forall i :: 0 <= i < |statements| ==> StatementProper(known, Visible(env, file, statements[..i]), file, statements[i])
  }

  ghost predicate FilesProper(known: Modules, files: seq<seq<Statement>>) {
    forall f :: 0 <= f < |files| ==> ProperAt(known, files, f)
  }

  ghost predicate ProperAt(known: Modules, files: seq<seq<Statement>>, f: nat)
    requires f < |files|
  {
    FileProper(known, Public(files[..f]), f, files[f])
  }

  // ---------- bodies and members ----------

  lemma BodyAccepted(known: Modules, env: Environment, self: Option<string>, event: Option<string>, body: Expr)
    ensures BodyTyped(known, env, self, event, body) ==> CheckBody(known, env, self, event, body).ok
    ensures BodyProper(known, env, self, event, body) && CheckBody(known, env, self, event, body).ok ==> BodyTyped(known, env, self, event, body)
  {
    hide Typed, Proper, Resolve;
    var sc := RuleScope(known, env, self, event);
    if sc.Some? {
      if Typed(sc.value, body, Logical) {
        Complete(sc.value, body, Logical);
      }
      if Proper(sc.value, body) {
        AcceptedExactly(sc.value, body);
      }
    }
  }

  lemma MemberAccepted(known: Modules, env: Environment, file: nat, m: Member)
    ensures MemberTyped(known, env, file, m) ==> CheckMember(known, env, file, m).0
    ensures (m.Anonymous? ==> BodyProper(known, env, None, m.event, m.body)) && CheckMember(known, env, file, m).0 ==> MemberTyped(known, env, file, m)
  {
    hide BodyTyped, BodyProper, CheckBody;
    match m
    case Reference(name) =>
      if name in env && env[name].RuleName? {
        assert env[name] == RuleName(env[name].event, env[name].file);
      }
    case Anonymous(event, body) => BodyAccepted(known, env, None, event, body);
  }

  lemma {:induction false} MembersAccepted(known: Modules, env: Environment, file: nat, members: seq<Member>)
    ensures (forall m <- members :: MemberTyped(known, env, file, m)) ==> CheckMembers(known, env, file, members).0
    ensures (forall m <- members :: m.Anonymous? ==> BodyProper(known, env, None, m.event, m.body)) && CheckMembers(known, env, file, members).0 ==>
              forall m <- members :: MemberTyped(known, env, file, m)
    decreases |members|
  {
    hide MemberTyped, BodyProper, CheckMember;
    if members != [] {
      var last := |members| - 1;
      assert members == members[..last] + [members[last]];
      MembersAccepted(known, env, file, members[..last]);
      MemberAccepted(known, env, file, members[last]);
    }
  }

  // ---------- statements and files ----------

  /** A statement that passes adds the names that it declares; it passes if it is typed, and only then if it is proper. */
  lemma StatementAccepted(known: Modules, p: Progress, file: nat, s: Statement)
    ensures var c := CheckStatement(known, p, file, s);
            && (p.ok && StatementTyped(known, p.env, file, s) ==> c.ok)
            && (c.ok ==> p.ok && c.env == Introduces(p.env, file, s))
            && (c.ok ==> c.privates == p.privates + PrivateNames([s]))
            && (c.ok && StatementProper(known, p.env, file, s) ==> StatementTyped(known, p.env, file, s))
  {
    hide BodyTyped, MemberTyped, BodyProper, CheckBody, CheckMembers;
    match s
    case Import(_) =>
    case Declare(name, event, body, _) =>
      BodyAccepted(known, p.env[name := RuleName(event, file)], Some(name), event, body);
      assert s in [s];
    case Sequence(name, _, members) =>
      MembersAccepted(known, p.env[name := OtherName], file, members);
  }

  lemma PrivateNamesAppend(most: seq<Statement>, s: Statement)
    ensures PrivateNames(most + [s]) == PrivateNames(most) + PrivateNames([s])
  {
    assert forall t :: t in most + [s] <==> t in most || t in [s];
  }

  lemma FileSplit(known: Modules, env: Environment, file: nat, most: seq<Statement>, s: Statement)
    ensures FileTyped(known, env, file, most + [s]) <==> FileTyped(known, env, file, most) && StatementTyped(known, Visible(env, file, most), file, s)
    ensures FileProper(known, env, file, most + [s]) <==> FileProper(known, env, file, most) && StatementProper(known, Visible(env, file, most), file, s)
  {
    hide StatementTyped, StatementProper, Visible;
    var all := most + [s];
    assert forall i :: 0 <= i < |most| ==> most[..i] == all[..i] && most[i] == all[i];
    assert all[..|most|] == most && all[|most|] == s;
  }

  lemma NoStatements(known: Modules, env: Environment, file: nat)
    ensures FileTyped(known, env, file, []) && FileProper(known, env, file, []) && PrivateNames([]) == {}
  {
  }

  lemma {:induction false} StatementsAccepted(known: Modules, start: Progress, file: nat, statements: seq<Statement>)
    ensures var c := CheckStatements(known, start, file, statements);
            && (start.ok && FileTyped(known, start.env, file, statements) ==> c.ok)
            && (c.ok ==> start.ok && c.env == Visible(start.env, file, statements))
            && (c.ok ==> c.privates == start.privates + PrivateNames(statements))
            && (c.ok && FileProper(known, start.env, file, statements) ==> FileTyped(known, start.env, file, statements))
    decreases |statements|
  {
    hide CheckStatement, StatementTyped, StatementProper, Introduces, FileTyped, FileProper, PrivateNames;
    if statements == [] {
      NoStatements(known, start.env, file);
    } else {
      var last := |statements| - 1;
      var most, s := statements[..last], statements[last];
      assert statements == most + [s];
      FileSplit(known, start.env, file, most, s);
      StatementsAccepted(known, start, file, most);
      StatementAccepted(known, CheckStatements(known, start, file, most), file, s);
      PrivateNamesAppend(most, s);
    }
  }

  /** A file passes if it is typed, and leaves its public names; a proper file passes only if it is typed. */
  lemma FileAccepted(known: Modules, before: Progress, file: nat, statements: seq<Statement>)
    ensures var c := CheckFile(known, before, file, statements);
            && (before.ok && FileTyped(known, before.env, file, statements) ==> c.ok)
            && (c.ok ==> before.ok && c.env == Visible(before.env, file, statements) - PrivateNames(statements))
            && (c.ok && FileProper(known, before.env, file, statements) ==> FileTyped(known, before.env, file, statements))
  {
    StatementsAccepted(known, before.(privates := {}), file, statements);
  }

  lemma FilesSplit(known: Modules, most: seq<seq<Statement>>, last: seq<Statement>)
    ensures FilesTyped(known, most + [last]) <==> FilesTyped(known, most) && FileTyped(known, Public(most), |most|, last)
    ensures FilesProper(known, most + [last]) <==> FilesProper(known, most) && FileProper(known, Public(most), |most|, last)
  {
    hide TypedAt, ProperAt, FileTyped, FileProper, Public;
    var all := most + [last];
    forall f | 0 <= f < |most| ensures TypedAt(known, all, f) == TypedAt(known, most, f) && ProperAt(known, all, f) == ProperAt(known, most, f) {
      AtStays(known, most, last, f);
    }
    AtLast(known, most, last);
  }

  lemma AtStays(known: Modules, most: seq<seq<Statement>>, last: seq<Statement>, f: nat)
    requires f < |most|
    ensures TypedAt(known, most + [last], f) == TypedAt(known, most, f) && ProperAt(known, most + [last], f) == ProperAt(known, most, f)
  {
    hide FileTyped, FileProper, Public;
    assert (most + [last])[..f] == most[..f];
  }

  lemma AtLast(known: Modules, most: seq<seq<Statement>>, last: seq<Statement>)
    ensures TypedAt(known, most + [last], |most|) == FileTyped(known, Public(most), |most|, last)
    ensures ProperAt(known, most + [last], |most|) == FileProper(known, Public(most), |most|, last)
  {
    hide FileTyped, FileProper, Public;
    assert (most + [last])[..|most|] == most;
  }

  /**
   * Completeness of the checker: files that are typed pass, and what they leave in scope are their public
   * names.  Of proper files exactly the typed ones pass.
   */
  lemma {:induction false} FilesAccepted(known: Modules, files: seq<seq<Statement>>)
    ensures FilesTyped(known, files) ==> CheckFiles(known, files).ok
    ensures CheckFiles(known, files).ok ==> CheckFiles(known, files).env == Public(files)
    ensures FilesProper(known, files) ==> (CheckFiles(known, files).ok <==> FilesTyped(known, files))
    decreases |files|
  {
    hide CheckFile, FileTyped, FileProper, FilesTyped, FilesProper;
    if files == [] {
      NoFiles(known);
    } else {
      var last := |files| - 1;
      var most := files[..last];
      assert files == most + [files[last]];
      FilesSplit(known, most, files[last]);
      FilesAccepted(known, most);
      FileAccepted(known, CheckFiles(known, most), last, files[last]);
    }
  }

  lemma NoFiles(known: Modules)
    ensures FilesTyped(known, []) && FilesProper(known, [])
  {
  }

  // ---------- which names are in scope ----------

  function NameOf(s: Statement): string {
    match s
    case Import(name) => name
    case Declare(name, _, _, _) => name
    case Sequence(name, _, _) => name
  }

  /** A name is in scope if it was before the file or if a statement above introduces it. */
  lemma {:induction false} VisibleNames(env: Environment, file: nat, statements: seq<Statement>, x: string)
    ensures x in Visible(env, file, statements) <==> x in env || exists s <- statements :: NameOf(s) == x
    decreases |statements|
  {
    if statements != [] {
      var last := |statements| - 1;
      var most := statements[..last];
      assert statements == most + [statements[last]];
      assert forall s :: s in statements <==> s in most || s == statements[last];
      VisibleNames(env, file, most, x);
      assert (exists s <- statements :: NameOf(s) == x) <==> (exists s <- most :: NameOf(s) == x) || NameOf(statements[last]) == x;
    }
  }

  predicate Declares(s: Statement, x: string, event: Option<string>) {
    s.Declare? && s.ruleName == x && s.event == event
  }

  predicate Stands(env: Environment, x: string, event: Option<string>, file: nat) {
    x in env && env[x] == RuleName(event, file)
  }

  predicate Declared(statements: seq<Statement>, x: string, event: Option<string>) {
    exists i :: 0 <= i < |statements| && Declares(statements[i], x, event)
  }

  lemma DeclaredAppend(most: seq<Statement>, s: Statement, x: string, event: Option<string>)
    ensures Declared(most + [s], x, event) <==> Declared(most, x, event) || Declares(s, x, event)
  {
    if Declared(most, x, event) {
      var i :| 0 <= i < |most| && Declares(most[i], x, event);
      assert Declares((most + [s])[i], x, event);
    }
    if Declares(s, x, event) {
      assert Declares((most + [s])[|most|], x, event);
    }
  }

  /** Inside a typed file a name stands for a rule if it did before the file or if a statement above declares it. */
  lemma {:induction false} VisibleRules(known: Modules, env: Environment, file: nat, statements: seq<Statement>, x: string, event: Option<string>, g: nat)
    requires FileTyped(known, env, file, statements)
    ensures Stands(Visible(env, file, statements), x, event, g) <==> Stands(env, x, event, g) || (g == file && Declared(statements, x, event))
    ensures x in env ==> !Declared(statements, x, event)
    ensures env.Keys <= Visible(env, file, statements).Keys
    ensures Declared(statements, x, event) ==> x in Visible(env, file, statements)
    decreases |statements|
  {
    hide BodyTyped, MemberTyped, Declared, FileTyped, Introduces, Stands, Declares, StatementTyped;
    if statements == [] {
      NothingDeclared(x, event);
    } else {
      var last := |statements| - 1;
      var most, s := statements[..last], statements[last];
      assert statements == most + [s];
      FileSplit(known, env, file, most, s);
      VisibleRules(known, env, file, most, x, event, g);
      DeclaredAppend(most, s, x, event);
      IntroducedRules(known, Visible(env, file, most), file, s, x, event, g);
    }
  }

  lemma IntroducedRules(known: Modules, env: Environment, file: nat, s: Statement, x: string, event: Option<string>, g: nat)
    requires StatementTyped(known, env, file, s)
    ensures var env' := Introduces(env, file, s);
            && (Stands(env', x, event, g) <==> Stands(env, x, event, g) || (g == file && Declares(s, x, event)))
            && env.Keys <= env'.Keys && (Declares(s, x, event) ==> x !in env && x in env')
  {
    hide BodyTyped, MemberTyped;
  }

  lemma NothingDeclared(x: string, event: Option<string>)
    ensures !Declared([], x, event)
  {
  }

  predicate PubliclyDeclared(statements: seq<Statement>, x: string, event: Option<string>) {
    exists i :: 0 <= i < |statements| && Declares(statements[i], x, event) && !statements[i].isPrivate
  }

  lemma PublicSplit(files: seq<seq<Statement>>)
    requires files != []
    ensures var last := |files| - 1; Public(files) == Visible(Public(files[..last]), last, files[last]) - PrivateNames(files[last])
  {
  }

  lemma {:induction false} DeclaredOnce(known: Modules, env: Environment, file: nat, statements: seq<Statement>, i: nat, j: nat)
    requires FileTyped(known, env, file, statements) && i < j < |statements| && statements[i].Declare? && statements[j].Declare?
    ensures statements[i].ruleName != statements[j].ruleName
  {
    hide BodyTyped, MemberTyped;
    var before, x := statements[..j], statements[i].ruleName;
    assert statements[..j + 1] == before + [statements[j]];
    TypedPrefix(known, env, file, statements, j);
    assert Declares(before[i], x, statements[i].event);
    VisibleRules(known, env, file, before, x, statements[i].event, file);
    assert StatementTyped(known, Visible(env, file, statements[..j]), file, statements[j]);
  }

  lemma TypedPrefix(known: Modules, env: Environment, file: nat, statements: seq<Statement>, j: nat)
    requires FileTyped(known, env, file, statements) && j <= |statements|
    ensures FileTyped(known, env, file, statements[..j])
  {
    hide StatementTyped, Visible;
    var most := statements[..j];
    forall i | 0 <= i < j ensures StatementTyped(known, Visible(env, file, most[..i]), file, most[i]) {
      assert most[..i] == statements[..i];
    }
  }

  lemma PubliclyExactly(known: Modules, env: Environment, file: nat, statements: seq<Statement>, x: string, event: Option<string>)
    requires FileTyped(known, env, file, statements)
    ensures PubliclyDeclared(statements, x, event) <==> Declared(statements, x, event) && x !in PrivateNames(statements)
    ensures x in PrivateNames(statements) ==> x !in env
  {
    hide FileTyped;
    if x in PrivateNames(statements) {
      var s :| s in statements && s.Declare? && s.isPrivate && s.ruleName == x;
      var i :| 0 <= i < |statements| && statements[i] == s;
      assert Declares(statements[i], x, s.event);
      VisibleRules(known, env, file, statements, x, s.event, file);
      forall j | 0 <= j < |statements| && Declares(statements[j], x, event) ensures j == i {
        if i < j {
          DeclaredOnce(known, env, file, statements, i, j);
        } else if j < i {
          DeclaredOnce(known, env, file, statements, j, i);
        }
      }
    }
    forall i | 0 <= i < |statements| && Declares(statements[i], x, event) && x !in PrivateNames(statements) ensures !statements[i].isPrivate {
      assert statements[i] in statements;
    }
  }

  /**
   * Behind typed files a name stands for a rule of file `g` if and only if that file declares it without the
   * word `private`.
   */
  lemma {:induction false} PublicRules(known: Modules, files: seq<seq<Statement>>, x: string, event: Option<string>, g: nat)
    requires FilesTyped(known, files)
    ensures Stands(Public(files), x, event, g) <==> g < |files| && PubliclyDeclared(files[g], x, event)
    decreases |files|
  {
    hide FilesTyped, FileTyped, Visible, Public, PubliclyDeclared, Declared, PrivateNames;
    if files == [] {
      NothingPublic();
    } else {
      var last := |files| - 1;
      var most := files[..last];
      assert files == most + [files[last]];
      FilesSplit(known, most, files[last]);
      PublicRules(known, most, x, event, g);
      PublicSplit(files);
      VisibleRules(known, Public(most), last, files[last], x, event, g);
      PubliclyExactly(known, Public(most), last, files[last], x, event);
    }
  }

  lemma NothingPublic()
    ensures Public([]) == map[]
  {
  }
}
