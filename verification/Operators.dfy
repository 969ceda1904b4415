/**
 * What the operators of the language compute, written out: arithmetic modulo 2^32, the binary digits of
 * the bitwise operators, and the relations between texts that the text operators test.
 */
module Operators {
  import opened Words
  import opened Wrappers
  import opened CStrings
  import opened Ast
  import opened Machine
  import opened Semantics

  // ---------- binary digits ----------

  /** Binary digit `k` of a number, the lowest being digit 0. */
  predicate Digit(x: nat, k: nat) {
    x / Power2(k) % 2 == 1
  }

  lemma HalfThenRest(x: nat, p: nat)
    requires p > 0
    ensures x / (2 * p) == x / 2 / p
  {
    var q, r := x / 2 / p, x / 2 % p;
    assert x / 2 == q * p + r;
    assert x == q * (2 * p) + (2 * r + x % 2) && 2 * r + x % 2 < 2 * p;
    QuotientIs(x, 2 * p, q, 2 * r + x % 2);
  }

  lemma QuotientIs(x: nat, d: nat, q: nat, r: nat)
    requires x == q * d + r && r < d
    ensures x / d == q
  {
    var q' := x / d;
    NotMore(q, q', d, r, x % d);
    NotMore(q', q, d, x % d, r);
  }

  lemma NotMore(q: nat, q': nat, d: nat, r: nat, r': nat)
    requires q * d + r == q' * d + r' && r < d
    ensures q' <= q
  {
    if q' > q {
      OneMore(q, q' - q - 1, d);
    }
  }

  lemma OneMore(q: nat, k: nat, d: nat)
    ensures (q + k + 1) * d >= q * d + d
  {
    assert (q + k + 1) * d == q * d + k * d + d;
  }

  lemma DigitOfHalf(x: nat, k: nat)
    requires k > 0
    ensures Digit(x, k) == Digit(x / 2, k - 1)
  {
    HalfThenRest(x, Power2(k - 1));
  }

  lemma {:induction false} BitwiseDigit(connective: (bool, bool) -> bool, x: nat, y: nat, bits: nat, k: nat)
    requires k < bits
    ensures Digit(Bitwise(connective, x, y, bits), k) == connective(Digit(x, k), Digit(y, k))
    decreases k
  {
    var r := Bitwise(connective, x, y, bits);
    assert r / 2 == Bitwise(connective, x / 2, y / 2, bits - 1);
    if k == 0 {
      assert Power2(0) == 1;
    } else {
      BitwiseDigit(connective, x / 2, y / 2, bits - 1, k - 1);
      DigitOfHalf(x, k);
      DigitOfHalf(y, k);
      DigitOfHalf(r, k);
    }
  }

  lemma {:induction false} ComplementDigit(x: nat, bits: nat, k: nat)
    requires x < Power2(bits) && k < bits
    ensures Digit(Power2(bits) - 1 - x, k) == !Digit(x, k)
    decreases k
  {
    var r := Power2(bits) - 1 - x;
    assert r / 2 == Power2(bits - 1) - 1 - x / 2;
    if k == 0 {
      assert Power2(0) == 1;
    } else {
      ComplementDigit(x / 2, bits - 1, k - 1);
      DigitOfHalf(x, k);
      DigitOfHalf(r, k);
    }
  }

  lemma {:induction false} Halved(x: word, n: nat)
    ensures ShiftRight(x, n) == x / Power2(n)
    decreases n
  {
    if n > 0 {
      Halved(x / 2, n - 1);
      HalfThenRest(x, Power2(n - 1));
    }
  }

  /** A number below 2^bits is known by its digits. */
  lemma {:induction false} DigitsDetermine(x: nat, y: nat, bits: nat)
    requires x < Power2(bits) && y < Power2(bits)
    requires forall k :: 0 <= k < bits ==> Digit(x, k) == Digit(y, k)
    ensures x == y
    decreases bits
  {
    if bits > 0 {
      assert Power2(0) == 1;
      assert Digit(x, 0) == Digit(y, 0);
      forall k | 0 <= k < bits - 1 ensures Digit(x / 2, k) == Digit(y / 2, k) {
        DigitOfHalf(x, k + 1);
        DigitOfHalf(y, k + 1);
      }
      DigitsDetermine(x / 2, y / 2, bits - 1);
    }
  }

  /** The bitwise operations, digit by digit, and the shifts. */
  lemma WordsMean(x: word, y: word)
    ensures forall k :: 0 <= k < 32 ==> (Digit(Words.BitAnd(x, y), k) <==> Digit(x, k) && Digit(y, k))
    ensures forall k :: 0 <= k < 32 ==> (Digit(Words.BitOr(x, y), k) <==> Digit(x, k) || Digit(y, k))
    ensures forall k :: 0 <= k < 32 ==> (Digit(Words.BitXor(x, y), k) <==> Digit(x, k) != Digit(y, k))
    ensures forall k :: 0 <= k < 32 ==> (Digit(Words.BitNot(x), k) <==> !Digit(x, k))
    ensures ShiftLeft(x, y) == x * Power2(y) % 0x1_0000_0000 && ShiftRight(x, y) == x / Power2(y)
  {
    hide Digit;
    WordWidth();
    forall k | 0 <= k < 32
      ensures Digit(Words.BitAnd(x, y), k) <==> Digit(x, k) && Digit(y, k)
      ensures Digit(Words.BitOr(x, y), k) <==> Digit(x, k) || Digit(y, k)
      ensures Digit(Words.BitXor(x, y), k) <==> Digit(x, k) != Digit(y, k)
      ensures Digit(Words.BitNot(x), k) <==> !Digit(x, k)
    {
      DigitsMean(x, y, k);
    }
    Halved(x, y);
  }

  lemma DigitsMean(x: word, y: word, k: nat)
    requires k < 32 && Power2(32) == WORD_LIMIT
    ensures Digit(Words.BitAnd(x, y), k) <==> Digit(x, k) && Digit(y, k)
    ensures Digit(Words.BitOr(x, y), k) <==> Digit(x, k) || Digit(y, k)
    ensures Digit(Words.BitXor(x, y), k) <==> Digit(x, k) != Digit(y, k)
    ensures Digit(Words.BitNot(x), k) <==> !Digit(x, k)
  {
    hide Digit, Power2, Bitwise;
    BitwiseDigit((a: bool, b: bool) => a && b, x, y, 32, k);
    BitwiseDigit((a: bool, b: bool) => a || b, x, y, 32, k);
    BitwiseDigit((a: bool, b: bool) => a != b, x, y, 32, k);
    ComplementDigit(x, 32, k);
  }

  // ---------- numbers ----------

  /** Two operands where they stand, with the annotation of the operator between them. */
  datatype Pair = Pair(w: World, n: nat, mod: Option<string>, iter: Option<string>, regs: Registers, left: Expr, right: Expr, tag: Tag)

  /** The operands have the values `x` and `y`; `between` are the registers after the left one, `after` those after both. */
  ghost predicate Meets(p: Pair, x: Value, y: Value, between: Registers, after: Registers) {
    && EmittableWorld(p.w) && Emittable(p.left) && Emittable(p.right)
    && Eval(p.w, p.n, p.mod, p.iter, p.left, p.regs) == Val(x, between)
    && Eval(p.w, p.n, p.mod, IterAfter(p.left, p.iter), p.right, between) == Val(y, after)
  }

  function ValueOf(p: Pair, op: BinOp): Evaluated
    requires EmittableWorld(p.w) && Emittable(p.left) && Emittable(p.right) && op != Matches
  {
    Eval(p.w, p.n, p.mod, p.iter, Binary(op, p.left, p.right, p.tag), p.regs)
  }

  /** The value is the number 1 if the condition holds, and 0 otherwise. */
  predicate Tells(v: Evaluated, condition: bool, after: Registers) {
    v == Val(Num(if condition then 1 else 0), after)
  }

  predicate IsNumber(v: Evaluated, after: Registers) {
    v.Val? && v.value.Num? && v.regs == after
  }

  lemma ValueUnfolds(p: Pair, op: BinOp, x: Value, y: Value, between: Registers, after: Registers)
    requires Meets(p, x, y, between, after) && op != Matches && op != And
    ensures ValueOf(p, op) == FromComputed(Operate(op, p.tag, x, y), after)
  {
    hide Operate;
  }

  /** Sums, differences and products are cut to 32 bits; quotient and remainder are those of natural numbers. */
  lemma ArithmeticMeans(p: Pair, x: word, y: word, between: Registers, after: Registers)
    requires Meets(p, Num(x), Num(y), between, after)
    ensures ValueOf(p, Plus) == Val(Num((x + y) % 0x1_0000_0000), after)
    ensures ValueOf(p, Minus) == Val(Num((x - y) % 0x1_0000_0000), after)
    ensures ValueOf(p, Mult) == Val(Num((x * y) % 0x1_0000_0000), after)
    ensures y == 0 ==> ValueOf(p, Div) == ValueOf(p, Mod) == Lost(UndefinedArithmetic)
    ensures y != 0 ==> var q, r := ValueOf(p, Div), ValueOf(p, Mod);
                       IsNumber(q, after) && IsNumber(r, after) && x == q.value.w * y + r.value.w && r.value.w < y
  {
    hide Eval, ValueOf, Meets;
    ValueUnfolds(p, Plus, Num(x), Num(y), between, after);
    ValueUnfolds(p, Minus, Num(x), Num(y), between, after);
    ValueUnfolds(p, Mult, Num(x), Num(y), between, after);
    ValueUnfolds(p, Div, Num(x), Num(y), between, after);
    ValueUnfolds(p, Mod, Num(x), Num(y), between, after);
  }

  /** The bitwise operators, digit by digit. */
  lemma BitwiseMeans(p: Pair, x: word, y: word, between: Registers, after: Registers)
    requires Meets(p, Num(x), Num(y), between, after)
    ensures var v := ValueOf(p, BitAnd); IsNumber(v, after) && forall k :: 0 <= k < 32 ==> (Digit(v.value.w, k) <==> Digit(x, k) && Digit(y, k))
    ensures var v := ValueOf(p, Pipe); IsNumber(v, after) && forall k :: 0 <= k < 32 ==> (Digit(v.value.w, k) <==> Digit(x, k) || Digit(y, k))
    ensures var v := ValueOf(p, BitXor); IsNumber(v, after) && forall k :: 0 <= k < 32 ==> (Digit(v.value.w, k) <==> Digit(x, k) != Digit(y, k))
  {
    hide Eval, ValueOf, Meets, Words.BitAnd, Words.BitOr, Words.BitXor, Digit;
    WordsMean(x, y);
    ValueUnfolds(p, BitAnd, Num(x), Num(y), between, after);
    ValueUnfolds(p, Pipe, Num(x), Num(y), between, after);
    ValueUnfolds(p, BitXor, Num(x), Num(y), between, after);
  }

  /** Shifts by less than the width of a word; by the width they are undefined, and by more an error. */
  lemma ShiftsMean(p: Pair, x: word, y: word, between: Registers, after: Registers)
    requires Meets(p, Num(x), Num(y), between, after)
    ensures y < 32 ==> var v := ValueOf(p, Shl); IsNumber(v, after) && v.value.w == x * Power2(y) % 0x1_0000_0000
    ensures y < 32 ==> var v := ValueOf(p, Shr); IsNumber(v, after) && v.value.w == x / Power2(y)
    ensures y == 32 ==> ValueOf(p, Shl) == ValueOf(p, Shr) == Lost(UndefinedArithmetic)
    ensures y > 32 ==> ValueOf(p, Shl) == ValueOf(p, Shr) == Err(25)
  {
    hide Eval, ValueOf, Meets, Power2, ShiftLeft, ShiftRight;
    WordsMean(x, y);
    ValueUnfolds(p, Shl, Num(x), Num(y), between, after);
    ValueUnfolds(p, Shr, Num(x), Num(y), between, after);
  }

  /** Comparisons of unsigned numbers, which Booleans are too. */
  lemma ComparisonsMean(p: Pair, x: word, y: word, between: Registers, after: Registers)
    requires Meets(p, Num(x), Num(y), between, after)
    ensures Tells(ValueOf(p, Greater), x > y, after) && Tells(ValueOf(p, GreaterEqual), x >= y, after)
    ensures Tells(ValueOf(p, Less), x < y, after) && Tells(ValueOf(p, LessEqual), x <= y, after)
    ensures p.tag != String ==> Tells(ValueOf(p, EqualEqual), x == y, after) && Tells(ValueOf(p, BangEqual), x != y, after)
  {
    hide Eval, ValueOf, Meets;
    ValueUnfolds(p, Greater, Num(x), Num(y), between, after);
    ValueUnfolds(p, GreaterEqual, Num(x), Num(y), between, after);
    ValueUnfolds(p, Less, Num(x), Num(y), between, after);
    ValueUnfolds(p, LessEqual, Num(x), Num(y), between, after);
    ValueUnfolds(p, EqualEqual, Num(x), Num(y), between, after);
    ValueUnfolds(p, BangEqual, Num(x), Num(y), between, after);
  }

  /** `or` looks at both operands; `and` at the right one only if the left one is not zero. */
  lemma ConnectivesMean(p: Pair, x: word, y: word, between: Registers, after: Registers)
    requires Meets(p, Num(x), Num(y), between, after)
    ensures Tells(ValueOf(p, Or), x != 0 || y != 0, after)
    ensures if x == 0 then Tells(ValueOf(p, And), false, between) else Tells(ValueOf(p, And), y != 0, after)
  {
    ValueUnfolds(p, Or, Num(x), Num(y), between, after);
    hide EmittableWorld;
  }

  // ---------- texts ----------

  /** The same letter, in either case. */
  predicate SameLetter(c: char, d: char) {
    || c == d
    || ('A' <= c <= 'Z' && d as int == c as int + 32)
    || ('A' <= d <= 'Z' && c as int == d as int + 32)
  }

  predicate SameButCase(s: string, t: string) {
    |s| == |t| && forall i :: 0 <= i < |s| ==> SameLetter(s[i], t[i])
  }

  lemma LowerSame(s: string, t: string)
    ensures Lower(s) == Lower(t) <==> SameButCase(s, t)
  {
    if Lower(s) == Lower(t) {
      assert |Lower(s)| == |Lower(t)|;
      forall i | 0 <= i < |s| ensures SameLetter(s[i], t[i]) {
        assert Lower(s)[i] == Lower(t)[i];
      }
    }
    if SameButCase(s, t) {
      assert forall i :: 0 <= i < |s| ==> SameLetter(s[i], t[i]);
    }
  }

  /** `t` is a part of `s`. */
  ghost predicate Part(t: string, s: string) {
    exists a, b :: s == a + t + b
  }

  ghost predicate Start(t: string, s: string) {
    exists b :: s == t + b
  }

  ghost predicate Ending(t: string, s: string) {
    exists a :: s == a + t
  }

  lemma PartOccurs(t: string, s: string)
    ensures Occurs(t, s) <==> Part(t, s)
  {
    if Occurs(t, s) {
      var i :| 0 <= i <= |s| && OccursAt(t, s, i);
      assert s == s[..i] + t + s[i + |t|..];
    }
    if a, b :| s == a + t + b {
      assert s[|a|..|a| + |t|] == t;
      assert OccursAt(t, s, |a|);
    }
  }

  lemma StartIsPrefix(t: string, s: string)
    ensures HasPrefix(s, t) <==> Start(t, s)
    ensures HasSuffix(s, t) <==> Ending(t, s)
  {
    if HasPrefix(s, t) {
      assert s == t + s[|t|..];
    }
    if HasSuffix(s, t) {
      assert s == s[..|s| - |t|] + t;
    }
  }

  /** Part, start and end, in any case. */
  ghost predicate LikePart(t: string, s: string) {
    exists u :: Part(u, s) && SameButCase(u, t)
  }

  ghost predicate LikeStart(t: string, s: string) {
    exists u :: Start(u, s) && SameButCase(u, t)
  }

  ghost predicate LikeEnding(t: string, s: string) {
    exists u :: Ending(u, s) && SameButCase(u, t)
  }

  lemma LowerSlice(s: string, i: nat, j: nat)
    requires i <= j <= |s|
    ensures Lower(s[i..j]) == Lower(s)[i..j]
  {
  }

  lemma LikePartMeans(t: string, s: string)
    ensures Occurs(Lower(t), Lower(s)) <==> LikePart(t, s)
  {
    hide SameButCase;
    if Occurs(Lower(t), Lower(s)) {
      var i :| 0 <= i <= |s| && OccursAt(Lower(t), Lower(s), i);
      var u := s[i..i + |t|];
      LowerSlice(s, i, i + |t|);
      LowerSame(u, t);
      assert s == s[..i] + u + s[i + |t|..];
      assert Part(u, s);
    }
    if u :| Part(u, s) && SameButCase(u, t) {
      var a, b :| s == a + u + b;
      LowerSame(u, t);
      LowerSlice(s, |a|, |a| + |u|);
      assert s[|a|..|a| + |u|] == u;
      assert |Lower(u)| == |Lower(t)|;
      assert OccursAt(Lower(t), Lower(s), |a|);
    }
  }

  lemma LikeStartMeans(t: string, s: string)
    ensures HasPrefix(Lower(s), Lower(t)) <==> LikeStart(t, s)
  {
    hide SameButCase;
    if HasPrefix(Lower(s), Lower(t)) {
      var u := s[..|t|];
      LowerSlice(s, 0, |t|);
      assert s[0..|t|] == u && Lower(s)[0..|t|] == Lower(s)[..|t|];
      LowerSame(u, t);
      assert s == u + s[|t|..];
      assert Start(u, s);
    }
    if u :| Start(u, s) && SameButCase(u, t) {
      var b :| s == u + b;
      LowerSame(u, t);
      LowerSlice(s, 0, |u|);
      assert s[0..|u|] == u;
      assert |Lower(u)| == |Lower(t)|;
      assert Lower(s)[0..|u|] == Lower(s)[..|t|];
    }
  }

  lemma LikeEndingMeans(t: string, s: string)
    ensures HasSuffix(Lower(s), Lower(t)) <==> LikeEnding(t, s)
  {
    hide SameButCase;
    if HasSuffix(Lower(s), Lower(t)) {
      var i := |s| - |t|;
      var u := s[i..];
      LowerSlice(s, i, |s|);
      assert s[i..|s|] == u && Lower(s)[i..|s|] == Lower(s)[i..];
      LowerSame(u, t);
      assert s == s[..i] + u;
      assert Ending(u, s);
    }
    if u :| Ending(u, s) && SameButCase(u, t) {
      var a :| s == a + u;
      LowerSame(u, t);
      LowerSlice(s, |a|, |s|);
      assert s[|a|..|s|] == u;
      assert |Lower(u)| == |Lower(t)|;
      assert Lower(s)[|a|..|s|] == Lower(s)[|a|..];
    }
  }

  /** The text operators; the right operand is looked for in the left one. */
  lemma TextsMean(p: Pair, s: string, t: string, between: Registers, after: Registers)
    requires Meets(p, Str(s), Str(t), between, after)
    ensures Tells(ValueOf(p, Contains), Part(t, s), after) && Tells(ValueOf(p, StartsWith), Start(t, s), after)
    ensures Tells(ValueOf(p, EndsWith), Ending(t, s), after)
    ensures p.tag == String ==> Tells(ValueOf(p, EqualEqual), s == t, after) && Tells(ValueOf(p, BangEqual), s != t, after)
  {
    hide Eval, ValueOf, Meets, Occurs, HasPrefix, HasSuffix, Part, Start, Ending;
    PartOccurs(t, s);
    StartIsPrefix(t, s);
    ValueUnfolds(p, Contains, Str(s), Str(t), between, after);
    ValueUnfolds(p, StartsWith, Str(s), Str(t), between, after);
    ValueUnfolds(p, EndsWith, Str(s), Str(t), between, after);
    ValueUnfolds(p, EqualEqual, Str(s), Str(t), between, after);
    ValueUnfolds(p, BangEqual, Str(s), Str(t), between, after);
  }

  /** The text operators that do not tell upper case from lower case. */
  lemma CaselessMean(p: Pair, s: string, t: string, between: Registers, after: Registers)
    requires Meets(p, Str(s), Str(t), between, after)
    ensures Tells(ValueOf(p, IContains), LikePart(t, s), after) && Tells(ValueOf(p, IStartsWith), LikeStart(t, s), after)
    ensures Tells(ValueOf(p, IEndsWith), LikeEnding(t, s), after) && Tells(ValueOf(p, IEquals), SameButCase(s, t), after)
  {
    hide Eval, ValueOf, Meets, Lower, Occurs, HasPrefix, HasSuffix, LikePart, LikeStart, LikeEnding, SameButCase;
    LikePartMeans(t, s);
    LikeStartMeans(t, s);
    LikeEndingMeans(t, s);
    LowerSame(s, t);
    ValueUnfolds(p, IContains, Str(s), Str(t), between, after);
    ValueUnfolds(p, IStartsWith, Str(s), Str(t), between, after);
    ValueUnfolds(p, IEndsWith, Str(s), Str(t), between, after);
    ValueUnfolds(p, IEquals, Str(s), Str(t), between, after);
  }

  // ---------- other expressions ----------

  /** The operand of a unary operator. */
  lemma UnaryMeans(w: World, n: nat, mod: Option<string>, iter: Option<string>, e: Expr, regs: Registers, x: word, after: Registers)
    requires EmittableWorld(w) && Emittable(e) && Eval(w, n, mod, iter, e, regs) == Val(Num(x), after)
    ensures Tells(Eval(w, n, mod, iter, Unary(Bang, e), regs), x == 0, after)
    ensures Tells(Eval(w, n, mod, iter, Unary(Not, e), regs), x == 0, after)
    ensures var v := Eval(w, n, mod, iter, Unary(Negate, e), regs); IsNumber(v, after) && (v.value.w + x) % 0x1_0000_0000 == 0
    ensures var v := Eval(w, n, mod, iter, Unary(UnOp.BitNot, e), regs);
            IsNumber(v, after) && forall k :: 0 <= k < 32 ==> (Digit(v.value.w, k) <==> !Digit(x, k))
  {
    hide Digit, Eval, OperateUnary, EmittableWorld;
    UnaryUnfolds(w, n, mod, iter, e, regs, Num(x), after);
    UnaryComputed(x);
  }

  lemma UnaryComputed(x: word)
    ensures OperateUnary(Bang, Num(x)) == OperateUnary(Not, Num(x)) == Ok(Num(if x == 0 then 1 else 0))
    ensures var c := OperateUnary(Negate, Num(x)); c.Ok? && c.value.Num? && (c.value.w + x) % 0x1_0000_0000 == 0
    ensures var c := OperateUnary(UnOp.BitNot, Num(x));
            c.Ok? && c.value.Num? && forall k :: 0 <= k < 32 ==> (Digit(c.value.w, k) <==> !Digit(x, k))
  {
    hide Digit, Words.BitNot;
    WordsMean(x, 0);
  }

  lemma UnaryUnfolds(w: World, n: nat, mod: Option<string>, iter: Option<string>, e: Expr, regs: Registers, x: Value, after: Registers)
    requires EmittableWorld(w) && Emittable(e) && Eval(w, n, mod, iter, e, regs) == Val(x, after)
    ensures forall op :: Eval(w, n, mod, iter, Unary(op, e), regs) == FromComputed(OperateUnary(op, x), after)
  {
    hide OperateUnary, EmittableWorld;
  }

  /** `#` is the length of a text. */
  lemma LengthMeans(w: World, n: nat, mod: Option<string>, iter: Option<string>, e: Expr, regs: Registers, s: string, after: Registers)
    requires EmittableWorld(w) && Emittable(e) && Eval(w, n, mod, iter, e, regs) == Val(Str(s), after)
    ensures Eval(w, n, mod, iter, Unary(Hash, e), regs) == Val(Num(|s| % 0x1_0000_0000), after)
  {
    hide EmittableWorld;
  }

  /** Literals, the module, the loop variable and rules; a rule is run with registers of its own, all zero. */
  lemma LiteralsMean(w: World, n: nat, mod: Option<string>, iter: Option<string>, regs: Registers, k: word, s: string, b: bool, x: string)
    requires EmittableWorld(w) && mod.Some?
    ensures Eval(w, n, mod, iter, Lit(Integer(k)), regs) == Val(Num(k), regs)
    ensures Eval(w, n, mod, iter, Lit(Text(s)), regs) == Val(Str(s), regs)
    ensures Eval(w, n, mod, iter, Lit(Boolean(b)), regs) == Val(Num(if b then 1 else 0), regs)
    ensures var v := Eval(w, n, mod, iter, Lit(Identifier(x)), regs);
            && (mod.value == x ==> v == if x in w.objects then Val(Obj(w.objects[x]), regs) else Err(14))
            && (mod.value != x && iter == Some(x) ==> v == Val(regs.r0, regs))
  {
    hide EmittableWorld;
  }

  lemma ReferenceMeans(w: World, n: nat, mod: Option<string>, iter: Option<string>, regs: Registers, x: string, j: nat, y: word, after: Registers)
    requires EmittableWorld(w) && mod.Some? && mod.value != x && iter != Some(x)
    requires j < n && j < |w.rules| && w.rules[j].ruleName == x && forall i :: 0 <= i < j ==> w.rules[i].ruleName != x
    requires Eval(w, j, w.rules[j].event, None, w.rules[j].body, Registers(Num(0), Num(0), Num(0), Num(0))) == Val(Num(y), after)
    ensures Eval(w, n, mod, iter, Lit(Identifier(x)), regs) == Val(Num(y), regs)
  {
    var r := IndexOf(w.rules, x);
    assert w.rules[j].ruleName == x;
    assert r == Some(j);
    assert EvalRule(w, j) == Val(Num(y), after);
    hide EmittableWorld, IndexOf, EvalRule;
    assert EvalLiteral(w, n, mod, iter, Identifier(x), regs) == Val(Num(y), regs);
  }

  /** A field of an object: itself if it is an array, a struct or a function, and else what it holds. */
  lemma FieldMeans(w: World, n: nat, mod: Option<string>, iter: Option<string>, e: Expr, regs: Registers,
                   name: string, ty: set<Flag>, o: Object, after: Registers)
    requires EmittableWorld(w) && Emittable(e) && Eval(w, n, mod, iter, e, regs) == Val(Obj(o), after) && name in o.fields
    ensures var v := Eval(w, n, mod, iter, Field(e, name, ty), regs); var f := o.fields[name];
            if ty * {OfArray, OfStruct, OfFunction} != {} then v == Val(Obj(f), after)
            else f.payload.Scalar? ==> v == Val(f.payload.value, after)
  {
    hide EmittableWorld;
    assert Eval(w, n, mod, iter, Field(e, name, ty), regs) == FromComputed(Access(Obj(o), name, ty), after);
    hide Eval;
    assert OfArray in ty ==> OfArray in ty * {OfArray, OfStruct, OfFunction};
    assert OfStruct in ty ==> OfStruct in ty * {OfArray, OfStruct, OfFunction};
    assert OfFunction in ty ==> OfFunction in ty * {OfArray, OfStruct, OfFunction};
  }

  /** Index `k` gives item `k`, counted from 0; behind the last item it is an error, as it is on what is no array. */
  lemma IndexMeans(w: World, n: nat, mod: Option<string>, iter: Option<string>, e: Expr, i: Expr, regs: Registers,
                   o: Object, between: Registers, k: word, after: Registers)
    requires EmittableWorld(w) && Emittable(e) && Emittable(i) && Eval(w, n, mod, iter, e, regs) == Val(Obj(o), between)
    requires Eval(w, n, mod, IterAfter(e, iter), i, between) == Val(Num(k), after)
    ensures var v := Eval(w, n, mod, iter, Index(e, i), regs);
            && (OfArray !in o.flags ==> v == Err(26))
            && (OfArray in o.flags && o.payload.Items? ==>
                  v == if k < |o.payload.items| then Val(o.payload.items[k], after) else Err(26))
  {
    hide EmittableWorld, ItemOf;
    assert Eval(w, n, mod, iter, Index(e, i), regs) == FromComputed(ItemOf(Obj(o), Num(k)), after);
    hide Eval;
    ItemMeans(o, k);
  }

  lemma ItemMeans(o: Object, k: word)
    ensures OfArray !in o.flags ==> ItemOf(Obj(o), Num(k)) == Bad(26)
    ensures OfArray in o.flags && o.payload.Items? ==>
              ItemOf(Obj(o), Num(k)) == if k < |o.payload.items| then Ok(o.payload.items[k]) else Bad(26)
  {
  }

  /** A match hands the modifiers, the pattern and the left operand to the regex engine. */
  lemma MatchMeans(w: World, n: nat, mod: Option<string>, iter: Option<string>, e: Expr, regs: Registers,
                   pattern: string, modifiers: word, tag: Tag, s: string, after: Registers)
    requires EmittableWorld(w) && Emittable(e) && Eval(w, n, mod, iter, e, regs) == Val(Str(s), after)
    ensures Tells(Eval(w, n, mod, iter, Binary(Matches, e, Lit(Pattern(pattern, modifiers)), tag), regs),
                  w.externals.regex(modifiers, pattern, s), after)
  {
    hide EmittableWorld;
  }

  /** Argument `i` has the value `values[i]`; `states[i]` are the registers after it, the later arguments coming before it. */
  ghost predicate Evaluates(w: World, n: nat, mod: Option<string>, iter: Option<string>, args: seq<Expr>, values: seq<Value>, states: seq<Registers>) {
    && EmittableWorld(w) && AllEmittable(args) && |values| == |args| && |states| == |args| + 1
    && forall i :: 0 <= i < |args| ==>
         Emittable(args[i]) && Eval(w, n, mod, IterAfterAll(args[i + 1..], iter), args[i], states[i + 1]) == Val(values[i], states[i])
  }

  lemma {:induction false} ArgumentsMean(w: World, n: nat, mod: Option<string>, iter: Option<string>, args: seq<Expr>, values: seq<Value>, states: seq<Registers>)
    requires Evaluates(w, n, mod, iter, args, values, states)
    ensures EvalAll(w, n, mod, iter, args, states[|args|]) == Vals(values, states[0])
    decreases |args|
  {
    hide Eval, EmittableWorld, Emittable;
    if args == [] {
      assert values == [];
    } else {
      var rest := args[1..];
      forall i | 0 <= i < |rest|
        ensures Emittable(rest[i]) && Eval(w, n, mod, IterAfterAll(rest[i + 1..], iter), rest[i], states[1..][i + 1]) == Val(values[1..][i], states[1..][i])
      {
        assert args[i + 1 + 1..] == rest[i + 1..];
        assert Eval(w, n, mod, IterAfterAll(args[i + 1 + 1..], iter), args[i + 1], states[i + 1 + 1]) == Val(values[i + 1], states[i + 1]);
      }
      ArgumentsMean(w, n, mod, iter, rest, values[1..], states[1..]);
      assert [values[0]] + values[1..] == values;
      assert args[0 + 1..] == rest;
    }
  }

  /** A call hands the values of the arguments, in the order written, to the function. */
  lemma CallMeans(w: World, n: nat, mod: Option<string>, iter: Option<string>, f: Expr, args: seq<Expr>,
                  values: seq<Value>, states: seq<Registers>, o: Object, after: Registers)
    requires Evaluates(w, n, mod, iter, args, values, states) && Emittable(f) && OfFunction in o.flags
    requires Eval(w, n, mod, IterAfterAll(args, iter), f, states[0]) == Val(Obj(o), after)
    ensures Eval(w, n, mod, iter, Call(f, args), states[|args|]) ==
            match w.externals.call(o.entry, values)
            case Returned(v) => Val(v, after)
            case Raised(e) => Err(e)
  {
    ArgumentsMean(w, n, mod, iter, args, values, states);
    hide EvalAll, EmittableWorld;
  }
}
