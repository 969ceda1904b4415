/** The emitter: one pass over the tree that appends to the code arena and patches jumps in place. */
module Emitter {
  import opened Words
  import opened Wrappers
  import opened CStrings
  import opened Ast
  import opened Codegen
  import opened Arena
  import I = Instructions

  /** The strings interned for `e`, in the order the emitter meets them. */
  function Mentions(e: Expr): seq<string> {
    match e
    case Binary(_, l, r, _) => Mentions(l) + Mentions(r)
    case Unary(_, r) => Mentions(r)
    case Grouping(i) => Mentions(i)
    case Lit(l) =>
      (match l
       case Identifier(x) => [x]
       case Text(s) => [s]
       case Pattern(s, _) => [s]
       case _ => [])
    case Call(f, args) => MentionsAll(args) + Mentions(f)
    case Field(o, name, _) => Mentions(o) + [name]
    case Index(a, i) => Mentions(a) + Mentions(i)
    case Range(_, _, s, t, c) => Mentions(t) + Mentions(s) + Mentions(c)
    case Null => []
  }

  function MentionsAll(es: seq<Expr>): seq<string> {
    if es == [] then [] else MentionsAll(es[1..]) + Mentions(es[0])
  }

  /** `code` is `before` followed by the bytes of `listing`, whose strings are all in `t`. */
  ghost predicate Emitted(before: seq<byte>, code: seq<byte>, listing: seq<I.Instr>, t: StringTable) {
    code == before + I.Assemble(listing, t.offsets) && I.AllInterned(listing, t)
  }

  /** Interning `strings` into `t` stays within 32-bit offsets. */
  ghost predicate Room(t: StringTable, strings: seq<string>) {
    (forall s <- strings :: NulFree(s)) && |InternAll(t, strings).data| < WORD_LIMIT
  }

  lemma RoomSplit(t: StringTable, a: seq<string>, b: seq<string>)
    requires ValidTable(t) && Room(t, a + b)
    ensures Room(t, a) && ValidTable(InternAll(t, a)) && Room(InternAll(t, a), b)
    ensures InternAll(t, a + b) == InternAll(InternAll(t, a), b)
    ensures Extends(InternAll(t, a + b), InternAll(t, a))
  {
    hide ValidTable, InternAll, Extends;
    InternAllAppend(t, a, b);
    assert forall s <- a :: s in a + b;
    assert forall s <- b :: s in a + b;
    InternAllGrows(InternAll(t, a), b);
    InternAllKeeps(t, a);
    InternAllKeeps(InternAll(t, a), b);
  }

  /** Two pieces of code emitted one after the other, with more strings interned in between. */
  lemma EmittedThen(c0: seq<byte>, c1: seq<byte>, c2: seq<byte>, x: seq<I.Instr>, y: seq<I.Instr>, t1: StringTable, t2: StringTable)
    requires Emitted(c0, c1, x, t1) && Extends(t2, t1) && Emitted(c1, c2, y, t2)
    ensures Emitted(c0, c2, x + y, t2)
  {
    I.AssembleStable(x, t1, t2);
    I.AssembleAppend(x, y, t2.offsets);
    forall i <- x + y ensures I.Interned(i, t2) {
      if i in x {
        assert I.Interned(i, t1);
      } else {
        assert i in y;
      }
    }
  }

  lemma AssembleThree(x: seq<I.Instr>, i: I.Instr, y: seq<I.Instr>, offsets: I.Offsets)
    ensures I.Assemble(x + [i] + y, offsets) == I.Assemble(x, offsets) + I.Encode(i, offsets) + I.Assemble(y, offsets)
  {
    hide I.Encode, I.Width;
    I.AssembleAppend(x + [i], y, offsets);
    I.AssembleAppend(x, [i], offsets);
    AssembleOne(i, offsets);
  }

  /** Overwriting an instruction by one of the same width that refers to no string changes just that one. */
  lemma PatchEmitted(c0: seq<byte>, c: seq<byte>, x: seq<I.Instr>, i: I.Instr, j: I.Instr, y: seq<I.Instr>, t: StringTable)
    requires Emitted(c0, c, x + [i] + y, t) && I.Width(i) == I.Width(j) && !I.Refers(j)
    ensures var p := |c0| + I.Size(x);
            && p + I.Width(j) <= |c|
            && Emitted(c0, Patched(c, p, I.Encode(j, t.offsets)), x + [j] + y, t)
  {
    hide I.Encode, I.Width, I.Assemble, I.Size, I.Refers, I.AllInterned, Patched, Emitted;
    var m := t.offsets;
    EmittedThree(c0, c, x, i, y, t);
    PatchBytes(c0 + I.Assemble(x, m), I.Encode(i, m), I.Encode(j, m), I.Assemble(y, m));
    PatchInterned(x, i, j, y, t);
    EmittedThree(c0, c0 + I.Assemble(x, m) + I.Encode(j, m) + I.Assemble(y, m), x, j, y, t);
  }

  /** Emitted code with one instruction singled out. */
  lemma EmittedThree(c0: seq<byte>, c: seq<byte>, x: seq<I.Instr>, i: I.Instr, y: seq<I.Instr>, t: StringTable)
    ensures var m := t.offsets;
            Emitted(c0, c, x + [i] + y, t) <==>
            c == c0 + I.Assemble(x, m) + I.Encode(i, m) + I.Assemble(y, m) && I.AllInterned(x + [i] + y, t)
  {
    hide I.Encode, I.Width, I.Assemble, I.Size, I.Refers, I.AllInterned;
    var m := t.offsets;
    AssembleThree(x, i, y, m);
    Associate(c0, I.Assemble(x, m), I.Encode(i, m), I.Assemble(y, m));
  }

  lemma Associate(w: seq<byte>, x: seq<byte>, y: seq<byte>, z: seq<byte>)
    ensures w + (x + y + z) == w + x + y + z
  {
  }

  lemma PatchInterned(x: seq<I.Instr>, i: I.Instr, j: I.Instr, y: seq<I.Instr>, t: StringTable)
    requires I.AllInterned(x + [i] + y, t) && !I.Refers(j)
    ensures I.AllInterned(x + [j] + y, t)
  {
    forall k <- x + [j] + y ensures I.Interned(k, t) {
      assert k == j || k in x + [i] + y;
    }
  }

  lemma PatchBytes(before: seq<byte>, x: seq<byte>, y: seq<byte>, after: seq<byte>)
    requires |x| == |y|
    ensures Patched(before + x + after, |before|, y) == before + y + after
  {
  }

  lemma AssembleOne(i: I.Instr, offsets: I.Offsets)
    ensures I.Assemble([i], offsets) == I.Encode(i, offsets) && I.Size([i]) == I.Width(i)
  {
    assert I.Assemble([i], offsets) == I.Encode(i, offsets) + I.Assemble([], offsets);
  }

  class Builder {
    var moduleName: Option<string>
    var iter: Option<string>
    const code: Buffer<byte>
    const data: StringArena

    ghost function Repr(): set<object>
      reads this, code, data, data.buffer
    {
      {this, code, code.data, data, data.buffer, data.buffer.data}
    }

    ghost predicate Valid()
      reads this, code, code.data, data, data.buffer, data.buffer.data
    {
      && code.Valid() && data.Valid() && code as object != data.buffer && code.data as object != data.buffer.data
      && code.size < WORD_LIMIT
    }

    /** The code emitted so far. */
    ghost function Bytes(): seq<byte>
      reads code, code.data
      requires code.Valid()
    {
      code.Contents()
    }

    /** The strings interned so far. */
    ghost function Table(): StringTable
      reads data, data.buffer, data.buffer.data
      requires data.buffer.Valid()
    {
      data.Table()
    }

    constructor ()
      ensures Valid() && Bytes() == [] && Table() == StringTable("", map[])
      ensures moduleName == None && iter == None && fresh(Repr())
    {
      moduleName, iter := None, None;
      code := new Buffer<byte>();
      data := new StringArena();
    }

    /** There is room for the strings and the code of `e`. */
    ghost predicate CanEmit(e: Expr)
      reads this, code, code.data, data, data.buffer, data.buffer.data
    {
      && Valid() && Room(Table(), Mentions(e))
      && |Bytes()| + I.Size(Code(e, moduleName, iter, |Bytes()|)) < WORD_LIMIT
    }

    /** What emitting `e` does: its strings are interned and its code, at this address, is appended. */
    twostate predicate HasEmitted(e: Expr)
      reads this, code, code.data, data, data.buffer, data.buffer.data
    {
      && old(Valid()) && Valid() && fresh(Repr() - old(Repr())) && moduleName == old(moduleName)
      && iter == IterAfter(e, old(iter)) && Table() == InternAll(old(Table()), Mentions(e))
      && var x := Code(e, moduleName, old(iter), |old(Bytes())|);
         |Bytes()| == |old(Bytes())| + I.Size(x) && Emitted(old(Bytes()), Bytes(), x, Table())
    }

    /** Appends an instruction whose string, if it has one, is interned already. */
    method Emit(i: I.Instr) returns (offset: nat)
      requires Valid() && I.Interned(i, Table()) && |Bytes()| + I.Width(i) < WORD_LIMIT
      modifies Repr()
      ensures Valid() && fresh(Repr() - old(Repr())) && moduleName == old(moduleName)
      ensures iter == old(iter) && Table() == old(Table())
      ensures offset == |old(Bytes())| && |Bytes()| == offset + I.Width(i)
      ensures Emitted(old(Bytes()), Bytes(), [i], Table())
    {
      AssembleOne(i, data.offsets);
      offset := code.Append(I.Encode(i, data.offsets));
    }

    /** A straight run of instructions without strings. */
    method EmitRun(run: seq<I.Instr>)
      requires Valid() && (forall i <- run :: !I.Refers(i)) && |Bytes()| + I.Size(run) < WORD_LIMIT
      modifies Repr()
      ensures Valid() && fresh(Repr() - old(Repr())) && moduleName == old(moduleName)
      ensures iter == old(iter) && Table() == old(Table())
      ensures |Bytes()| == |old(Bytes())| + I.Size(run) && Emitted(old(Bytes()), Bytes(), run, Table())
    {
      hide I.Assemble, I.Size, ValidTable;
      EmittedNothing(Bytes(), Table());
      for k := 0 to |run|
        invariant Valid() && fresh(Repr() - old(Repr())) && moduleName == old(moduleName)
        invariant iter == old(iter) && Table() == old(Table())
        invariant |Bytes()| == |old(Bytes())| + I.Size(run[..k])
        invariant Emitted(old(Bytes()), Bytes(), run[..k], Table())
      {
        ghost var c := Bytes();
        assert run[..k + 1] == run[..k] + [run[k]] && run == run[..k + 1] + run[k + 1..];
        SizeThen(run[..k], run[k]);
        I.SizeAppend(run[..k + 1], run[k + 1..]);
        var _ := Emit(run[k]);
        EmittedLast(old(Bytes()), c, Bytes(), run[..k], run[k], Table());
      }
      assert run[..|run|] == run;
    }

    /** Interns a name that no instruction refers to. */
    method AddName(s: string) returns (offset: word)
      requires Valid() && NulFree(s) && |Intern(Table(), s).data| < WORD_LIMIT
      modifies Repr()
      ensures Valid() && fresh(Repr() - old(Repr())) && moduleName == old(moduleName)
      ensures iter == old(iter) && Table() == Intern(old(Table()), s)
      ensures s in Table().offsets && offset == Table().offsets[s] && Bytes() == old(Bytes())
    {
      offset := data.AddString(s);
    }

    /** Interns a string and appends an instruction that refers to it. */
    method EmitReference(i: I.Instr)
      requires Valid() && I.Refers(i) && Room(Table(), [i.text]) && |Bytes()| + I.Width(i) < WORD_LIMIT
      modifies Repr()
      ensures Valid() && fresh(Repr() - old(Repr())) && moduleName == old(moduleName)
      ensures iter == old(iter) && Table() == InternAll(old(Table()), [i.text])
      ensures |Bytes()| == |old(Bytes())| + I.Width(i) && Emitted(old(Bytes()), Bytes(), [i], Table())
    {
      InternOne(Table(), i.text);
      var _ := data.AddString(i.text);
      var _ := Emit(i);
    }

    /** Overwrites `placeholder` at an earlier offset; `before`, `x` and `y` say what surrounds it. */
    method Patch(offset: nat, i: I.Instr, ghost before: seq<byte>, ghost x: seq<I.Instr>, ghost placeholder: I.Instr, ghost y: seq<I.Instr>)
      requires Valid() && !I.Refers(i) && I.Width(i) == I.Width(placeholder)
      requires Emitted(before, Bytes(), x + [placeholder] + y, Table()) && offset == |before| + I.Size(x)
      modifies Repr()
      ensures Valid() && Repr() == old(Repr()) && moduleName == old(moduleName)
      ensures iter == old(iter) && Table() == old(Table())
      ensures |Bytes()| == |old(Bytes())| && Emitted(before, Bytes(), x + [i] + y, Table())
    {
      hide Emitted, I.Size, I.Encode, I.Refers, I.Width, ValidTable;
      PatchEmitted(before, Bytes(), x, placeholder, i, y, Table());
      code.Replace(offset, I.Encode(i, data.offsets));
    }

    /** Dispatch on the kind of expression. */
    method EmitExpr(e: Expr)
      requires CanEmit(e)
      modifies Repr()
      ensures HasEmitted(e)
      decreases e, 3
    {
      hide I.Assemble, I.Size, ValidTable, InternAll, Extends, Code, Mentions, HasRange, IterAfter, Emitted;
      match e
      case Binary(_, _, _, _) => EmitBinary(e);
      case Unary(_, _) => EmitUnary(e);
      case Grouping(_) => EmitGrouping(e);
      case Lit(_) => EmitLiteral(e);
      case Call(_, _) => EmitCall(e);
      case Field(_, _, _) => EmitField(e);
      case Index(_, _) => EmitIndex(e);
      case Range(_, _, _, _, _) => EmitRange(e);
      case Null => EmitNull(e);
    }

    /** A null child has no code. */
    method EmitNull(e: Expr)
      requires e.Null?
      requires CanEmit(e)
      modifies Repr()
      ensures HasEmitted(e)
      decreases e, 0
    {
      hide I.Assemble, I.Size, ValidTable, Extends, Emitted;
      EmittedNothing(Bytes(), Table());
    }

    /** Parentheses emit what is inside them. */
    method EmitGrouping(e: Expr)
      requires e.Grouping?
      requires CanEmit(e)
      modifies Repr()
      ensures HasEmitted(e)
      decreases e, 0
    {
      hide Emitted, InternAll, ValidTable, I.Assemble, I.Size;
      EmitExpr(e.inner);
    }

    /** Operand, then operator. */
    method EmitUnary(e: Expr)
      requires e.Unary?
      requires CanEmit(e)
      modifies Repr()
      ensures HasEmitted(e)
      decreases e, 0
    {
      hide I.Assemble, I.Size, ValidTable, InternAll, Extends, Code, Mentions, HasRange, IterAfter, Emitted;
      ghost var (c0, x) := (Bytes(), Code(e.operand, moduleName, iter, |Bytes()|));
      UnaryCode(e, moduleName, iter, |c0|);
      EmitExpr(e.operand);
      ghost var c1 := Bytes();
      var _ := Emit(UnaryInstr(e.unop));
      EmittedLast(c0, c1, Bytes(), x, UnaryInstr(e.unop), Table());
    }

    /** Left operand, right operand, operator; the right one of `and` is guarded. */
    method EmitBinary(e: Expr)
      requires e.Binary?
      requires CanEmit(e)
      modifies Repr()
      ensures HasEmitted(e)
      decreases e, 2
    {
      hide I.Assemble, I.Size, ValidTable, InternAll, Extends, Code, Mentions, HasRange, IterAfter, Emitted;
      if e.op == BinOp.And {
        EmitAnd(e);
      } else {
        EmitStrict(e);
      }
    }

    /** A binary operator that needs both operands. */
    method EmitStrict(e: Expr)
      requires e.Binary? && e.op != BinOp.And
      requires CanEmit(e)
      modifies Repr()
      ensures HasEmitted(e)
      decreases e, 0
    {
      hide I.Assemble, I.Size, ValidTable, InternAll, Extends, Code, Mentions, HasRange, IterAfter, Emitted;
      hide BinaryInstr;
      ghost var (c0, x) := (Bytes(), Code(e.left, moduleName, iter, |Bytes()|));
      ghost var y := Code(e.right, moduleName, IterAfter(e.left, iter), |c0| + I.Size(x));
      StrictCode(e, moduleName, iter, |c0|);
      RoomSplit(Table(), Mentions(e.left), Mentions(e.right));
      EmitExpr(e.left);
      ghost var (c1, t1) := (Bytes(), Table());
      EmitExpr(e.right);
      ghost var c2 := Bytes();
      EmittedThen(c0, c1, c2, x, y, t1, Table());
      var _ := Emit(BinaryInstr(e.op, e.operandType));
      EmittedLast(c0, c2, Bytes(), x + y, BinaryInstr(e.op, e.operandType), Table());
    }

    /** `and`: both operands, the right one guarded by the left. */
    method EmitAnd(e: Expr)
      requires e.Binary? && e.op == BinOp.And
      requires CanEmit(e)
      modifies Repr()
      ensures HasEmitted(e)
      decreases e, 0
    {
      hide I.Assemble, I.Size, ValidTable, InternAll, Extends, Code, Mentions, HasRange, IterAfter, Emitted, Room;
      ghost var (c0, x) := (Bytes(), Code(e.left, moduleName, iter, |Bytes()|));
      ghost var y := Code(e.right, moduleName, IterAfter(e.left, iter), |c0| + I.Size(x) + 15);
      AndCode(e, moduleName, iter, |c0|);
      RoomSplit(Table(), Mentions(e.left), Mentions(e.right));
      EmitExpr(e.left);
      ghost var (c1, t1, z) := (Bytes(), Table(), Guarded(|Bytes()| + 15, y));
      EmitGuarded(e.right);
      ghost var c2 := Bytes();
      EmittedThen(c0, c1, c2, x, z, t1, Table());
      var _ := Emit(I.Apply2(I.AndL));
      EmittedLast(c0, c2, Bytes(), x + z, I.Apply2(I.AndL), Table());
    }

    /** The right operand of `and`: the jump over it is patched once its length is known. */
    method EmitGuarded(e: Expr)
      requires Valid() && Room(Table(), Mentions(e))
      requires |Bytes()| + 15 + I.Size(Code(e, moduleName, iter, |Bytes()| + 15)) < WORD_LIMIT
      modifies Repr()
      ensures Valid() && fresh(Repr() - old(Repr())) && moduleName == old(moduleName)
      ensures iter == IterAfter(e, old(iter)) && Table() == InternAll(old(Table()), Mentions(e))
      ensures var y := Code(e, moduleName, old(iter), |old(Bytes())| + 15);
              && |Bytes()| == |old(Bytes())| + 15 + I.Size(y)
              && Emitted(old(Bytes()), Bytes(), Guarded(|old(Bytes())| + 15, y), Table())
      decreases e, 4
    {
      hide I.Assemble, I.Size, ValidTable, InternAll, Extends, Code, Mentions, HasRange, IterAfter, Emitted, Room;
      hide Wrap, I.Encode;
      ghost var (c1, t1) := (Bytes(), Table());
      ghost var p := |c1| + 15;
      ghost var (y, z) := (Code(e, moduleName, iter, p), [I.JTrue(Wrap(p)), I.PushBool(0)]);
      var offset := EmitSkip();
      ghost var c2 := Bytes();
      EmitExpr(e);
      RoomKeeps(t1, Mentions(e));
      EmittedThen(c1, c2, Bytes(), z + [I.Jump(0)], y, t1, Table());
      GuardSize(p);
      Patch(offset, I.Jump(Wrap(code.size)), c1, z, I.Jump(0), y);
    }

    /** The jumps before the right operand of `and`; the last one is a placeholder. */
    method EmitSkip() returns (offset: nat)
      requires Valid() && |Bytes()| + 15 < WORD_LIMIT
      modifies Repr()
      ensures Valid() && fresh(Repr() - old(Repr())) && moduleName == old(moduleName)
      ensures iter == old(iter) && Table() == old(Table())
      ensures offset == |old(Bytes())| + 10 && |Bytes()| == |old(Bytes())| + 15
      ensures Emitted(old(Bytes()), Bytes(), [I.JTrue(Wrap(|old(Bytes())| + 15)), I.PushBool(0)] + [I.Jump(0)], Table())
    {
      hide I.Assemble, I.Size, ValidTable, InternAll, Extends, Code, Mentions, HasRange, IterAfter, Emitted;
      ghost var c1 := Bytes();
      var p := code.size + 5 * 3;
      GuardSize(p);
      EmitRun([I.JTrue(Wrap(p)), I.PushBool(0)]);
      ghost var c2 := Bytes();
      offset := Emit(I.Jump(0));
      EmittedLast(c1, c2, Bytes(), [I.JTrue(Wrap(p)), I.PushBool(0)], I.Jump(0), Table());
    }

    /** A literal: a constant, the module, the loop variable or a rule; every identifier is interned. */
    method EmitLiteral(e: Expr)
      requires e.Lit?
      requires CanEmit(e)
      modifies Repr()
      ensures HasEmitted(e)
      decreases e, 0
    {
      hide I.Assemble, I.Size, ValidTable, InternAll, Extends, Code, Mentions, HasRange, IterAfter, Emitted;
      LiteralListing(e, moduleName, iter, |Bytes()|);
      match e.literal
      case Identifier(x) =>
        InternOne(Table(), x);
        if moduleName == None {
          var _ := data.AddString(x);
          EmittedNothing(Bytes(), Table());
        } else if moduleName == Some(x) {
          EmitReference(I.PushModule(x));
        } else if iter == Some(x) {
          var _ := data.AddString(x);
          var _ := Emit(I.Load(0));
        } else {
          EmitReference(I.RunRule(x));
        }
      case Integer(w) =>
        var _ := Emit(I.PushInt(w));
      case Text(t) => EmitReference(I.PushString(t));
      case Pattern(t, f) =>
        ghost var c0 := Bytes();
        EmitReference(I.PushString(t));
        ghost var c1 := Bytes();
        var _ := Emit(I.PushInt(f));
        EmittedLast(c0, c1, Bytes(), [I.PushString(t)], I.PushInt(f), Table());
      case Boolean(t) =>
        var _ := Emit(I.PushBool(AsWord(t)));
    }

    /** A field access, unwrapped when the field is used for its value. */
    method EmitField(e: Expr)
      requires e.Field?
      requires CanEmit(e)
      modifies Repr()
      ensures HasEmitted(e)
      decreases e, 0
    {
      hide I.Assemble, I.Size, ValidTable, InternAll, Extends, Code, Mentions, HasRange, IterAfter, Emitted;
      var get := I.GetField(e.fieldName);
      ghost var (c0, x) := (Bytes(), Code(e.owner, moduleName, iter, |Bytes()|));
      FieldCode(e, moduleName, iter, |c0|);
      RoomSplit(Table(), Mentions(e.owner), [e.fieldName]);
      EmitExpr(e.owner);
      ghost var (c1, t1) := (Bytes(), Table());
      EmitReference(get);
      ghost var c2 := Bytes();
      EmittedThen(c0, c1, c2, x, [get], t1, Table());
      if Unwraps(e.fieldType) {
        var _ := Emit(I.Object);
        EmittedLast(c0, c2, Bytes(), x + [get], I.Object, Table());
      }
    }

    /** The indexed object, the index, then the instruction. */
    method EmitIndex(e: Expr)
      requires e.Index?
      requires CanEmit(e)
      modifies Repr()
      ensures HasEmitted(e)
      decreases e, 0
    {
      hide I.Assemble, I.Size, ValidTable, InternAll, Extends, Code, Mentions, HasRange, IterAfter, Emitted;
      ghost var (c0, x) := (Bytes(), Code(e.indexed, moduleName, iter, |Bytes()|));
      ghost var y := Code(e.index, moduleName, IterAfter(e.indexed, iter), |c0| + I.Size(x));
      IndexCode(e, moduleName, iter, |c0|);
      RoomSplit(Table(), Mentions(e.indexed), Mentions(e.index));
      EmitExpr(e.indexed);
      ghost var (c1, t1) := (Bytes(), Table());
      EmitExpr(e.index);
      ghost var c2 := Bytes();
      EmittedThen(c0, c1, c2, x, y, t1, Table());
      var _ := Emit(I.Index);
      EmittedLast(c0, c2, Bytes(), x + y, I.Index, Table());
    }

    /** Arguments, their count, the callee, then the call. */
    method EmitCall(e: Expr)
      requires e.Call?
      requires CanEmit(e)
      modifies Repr()
      ensures HasEmitted(e)
      decreases e, 0
    {
      hide I.Assemble, I.Size, ValidTable, InternAll, Extends, Code, Mentions, HasRange, IterAfter, Emitted;
      hide MentionsAll, ArgumentsCode, AnyRange, IterAfterAll, Room, Wrap;
      ghost var count := I.PushInt(Wrap(|e.arguments|));
      ghost var (c0, t0) := (Bytes(), Table());
      ghost var x := ArgumentsCode(e.arguments, moduleName, iter, |c0|);
      ghost var y := Code(e.callee, moduleName, IterAfterAll(e.arguments, iter), |c0| + I.Size(x) + 5);
      CallCode(e, moduleName, iter, |c0|);
      RoomSplit(t0, MentionsAll(e.arguments), Mentions(e.callee));
      EmitCounted(e.arguments);
      ghost var (c2, t1) := (Bytes(), Table());
      EmitExpr(e.callee);
      ghost var c3 := Bytes();
      EmittedThen(c0, c2, c3, x + [count], y, t1, Table());
      var _ := Emit(I.Call);
      EmittedLast(c0, c3, Bytes(), x + [count] + y, I.Call, Table());
    }

    /** The arguments of a call, and how many there are. */
    method EmitCounted(args: seq<Expr>)
      requires Valid() && Room(Table(), MentionsAll(args))
      requires |Bytes()| + I.Size(ArgumentsCode(args, moduleName, iter, |Bytes()|)) + 5 < WORD_LIMIT
      modifies Repr()
      ensures Valid() && fresh(Repr() - old(Repr())) && moduleName == old(moduleName)
      ensures iter == IterAfterAll(args, old(iter)) && Table() == InternAll(old(Table()), MentionsAll(args))
      ensures var x := ArgumentsCode(args, moduleName, old(iter), |old(Bytes())|);
              && |Bytes()| == |old(Bytes())| + I.Size(x) + 5
              && Emitted(old(Bytes()), Bytes(), x + [I.PushInt(Wrap(|args|))], Table())
      decreases args, 1
    {
      hide I.Size, ValidTable, InternAll, Extends, Emitted, MentionsAll, ArgumentsCode, AnyRange, IterAfterAll, Room, Wrap;
      ghost var (c0, x) := (Bytes(), ArgumentsCode(args, moduleName, iter, |Bytes()|));
      EmitArguments(args);
      ghost var c1 := Bytes();
      var _ := Emit(I.PushInt(Wrap(|args|)));
      EmittedLast(c0, c1, Bytes(), x, I.PushInt(Wrap(|args|)), Table());
    }

    /** The arguments of a call, from the last to the first. */
    method EmitArguments(args: seq<Expr>)
      requires Valid() && Room(Table(), MentionsAll(args))
      requires |Bytes()| + I.Size(ArgumentsCode(args, moduleName, iter, |Bytes()|)) < WORD_LIMIT
      modifies Repr()
      ensures Valid() && fresh(Repr() - old(Repr())) && moduleName == old(moduleName)
      ensures iter == IterAfterAll(args, old(iter)) && Table() == InternAll(old(Table()), MentionsAll(args))
      ensures var x := ArgumentsCode(args, moduleName, old(iter), |old(Bytes())|);
              |Bytes()| == |old(Bytes())| + I.Size(x) && Emitted(old(Bytes()), Bytes(), x, Table())
      decreases args, 0
    {
      hide I.Assemble, I.Size, ValidTable, InternAll, Extends, Code, Mentions, HasRange, IterAfter, Emitted;
      ghost var (c0, t0, m, it) := (Bytes(), Table(), moduleName, iter);
      EmittedNothing(c0, t0);
      assert InternAll(t0, []) == t0 by { InternNothing(t0); }
      for i := |args| downto 0
        invariant Valid() && fresh(Repr() - old(Repr())) && moduleName == m
        invariant iter == IterAfterAll(args[i..], it) && Table() == InternAll(t0, MentionsAll(args[i..]))
        invariant |Bytes()| == |c0| + I.Size(ArgumentsCode(args[i..], m, it, |c0|))
        invariant Emitted(c0, Bytes(), ArgumentsCode(args[i..], m, it, |c0|), Table())
      {
        ghost var (c1, t1) := (Bytes(), Table());
        ghost var x := ArgumentsCode(args[i + 1..], m, it, |c0|);
        ghost var y := Code(args[i], m, IterAfterAll(args[i + 1..], it), |c0| + I.Size(x));
        ArgumentRoom(args, i, m, it, |c0|, t0);
        EmitExpr(args[i]);
        EmittedThen(c0, c1, Bytes(), x, y, t1, Table());
      }
      assert args[0..] == args;
    }

    /** A `for`: the bounds, then the loop; the loop variable is in scope throughout. */
    method EmitRange(e: Expr)
      requires e.Range?
      requires CanEmit(e)
      modifies Repr()
      ensures HasEmitted(e)
      decreases e, 1
    {
      hide I.Assemble, I.Size, ValidTable, InternAll, Extends, Code, Mentions, HasRange, IterAfter, Emitted, Room, LoopCode;
      ghost var (c0, t0, x) := (Bytes(), Table(), Some(e.ivar));
      ghost var last := Code(e.end, moduleName, x, |c0|);
      ghost var first := Code(e.start, moduleName, IterAfter(e.end, x), |c0| + I.Size(last));
      RangeCode(e, moduleName, iter, |c0|);
      RoomSplit(t0, Mentions(e.end) + Mentions(e.start), Mentions(e.condition));
      iter := Some(e.ivar);
      EmitBounds(e);
      ghost var (c2, t2) := (Bytes(), Table());
      EmitLoop(e.quantifier, e.condition);
      RoomKeeps(t2, Mentions(e.condition));
      EmittedThen(c0, c2, Bytes(), last + first, LoopAt(e, moduleName, |c2|, IterAfter(e.start, IterAfter(e.end, x))), t2, Table());
      iter := None;
    }

    /** The bounds of a `for`, the end before the start. */
    method EmitBounds(e: Expr)
      requires e.Range? && Valid() && Room(Table(), Mentions(e.end) + Mentions(e.start))
      requires var last := Code(e.end, moduleName, iter, |Bytes()|);
               var first := Code(e.start, moduleName, IterAfter(e.end, iter), |Bytes()| + I.Size(last));
               |Bytes()| + I.Size(last) + I.Size(first) < WORD_LIMIT
      modifies Repr()
      ensures Valid() && fresh(Repr() - old(Repr())) && moduleName == old(moduleName)
      ensures iter == IterAfter(e.start, IterAfter(e.end, old(iter)))
      ensures Table() == InternAll(old(Table()), Mentions(e.end) + Mentions(e.start))
      ensures var last := Code(e.end, moduleName, old(iter), |old(Bytes())|);
              var first := Code(e.start, moduleName, IterAfter(e.end, old(iter)), |old(Bytes())| + I.Size(last));
              && |Bytes()| == |old(Bytes())| + I.Size(last) + I.Size(first)
              && Emitted(old(Bytes()), Bytes(), last + first, Table())
      decreases e, 0
    {
      hide I.Assemble, I.Size, ValidTable, InternAll, Extends, Code, Mentions, HasRange, IterAfter, Emitted, Room;
      ghost var (c0, t0) := (Bytes(), Table());
      RoomSplit(t0, Mentions(e.end), Mentions(e.start));
      ghost var last := Code(e.end, moduleName, iter, |c0|);
      ghost var first := Code(e.start, moduleName, IterAfter(e.end, iter), |c0| + I.Size(last));
      EmitExpr(e.end);
      ghost var (c1, t1) := (Bytes(), Table());
      EmitExpr(e.start);
      EmittedThen(c0, c1, Bytes(), last, first, t1, Table());
    }

    /** The loop of a `for`, whose exit jump is patched last. */
    method EmitLoop(q: Quantifier, c: Expr)
      requires Valid() && Room(Table(), Mentions(c))
      requires |Bytes()| + I.Size(LoopCode(q, |Bytes()|, Code(c, moduleName, iter, ConditionStart(|Bytes()|)))) < WORD_LIMIT
      modifies Repr()
      ensures Valid() && fresh(Repr() - old(Repr())) && moduleName == old(moduleName)
      ensures iter == IterAfter(c, old(iter)) && Table() == InternAll(old(Table()), Mentions(c))
      ensures var x := LoopCode(q, |old(Bytes())|, Code(c, moduleName, old(iter), ConditionStart(|old(Bytes())|)));
              |Bytes()| == |old(Bytes())| + I.Size(x) && Emitted(old(Bytes()), Bytes(), x, Table())
      decreases c, 6
    {
      hide I.Assemble, I.Size, ValidTable, InternAll, Extends, Code, Mentions, HasRange, IterAfter, Emitted, Room;
      hide LoopCode, LoopExit, Verdict, NextRound, LoopHead;
      ghost var c0 := Bytes();
      ghost var cond := Code(c, moduleName, iter, ConditionStart(|c0|));
      LoopParts(q, |c0|, cond);
      var offset := EmitLoopBody(q, c);
      CloseLoop(offset, c0, [I.Pop] + (cond + Verdict(q, |c0| + 27 + I.Size(cond)) + NextRound(|c0| + 10)));
    }

    /** Everything up to the exit of a loop; the exit test still has its placeholder. */
    method EmitLoopBody(q: Quantifier, c: Expr) returns (offset: nat)
      requires Valid() && Room(Table(), Mentions(c))
      requires var cond := Code(c, moduleName, iter, |Bytes()| + 27); |Bytes()| + 27 + I.Size(cond) + VerdictSize(q) + 22 < WORD_LIMIT
      modifies Repr()
      ensures Valid() && fresh(Repr() - old(Repr())) && moduleName == old(moduleName)
      ensures iter == IterAfter(c, old(iter)) && Table() == InternAll(old(Table()), Mentions(c))
      ensures offset == |old(Bytes())| + 21
      ensures var b := |old(Bytes())|; var cond := Code(c, moduleName, old(iter), b + 27); var v := b + 27 + I.Size(cond);
              && |Bytes()| == v + VerdictSize(q) + 22
              && Emitted(old(Bytes()), Bytes(), LOOP_START + [I.JFalse(0)] + ([I.Pop] + (cond + Verdict(q, v) + NextRound(b + 10))), Table())
      decreases c, 5
    {
      hide I.Assemble, I.Size, ValidTable, InternAll, Extends, Code, Mentions, HasRange, IterAfter, Emitted, Room;
      hide Verdict, NextRound;
      ghost var (c0, t0) := (Bytes(), Table());
      ghost var cond := Code(c, moduleName, iter, |c0| + 27);
      var head;
      head, offset := EmitLoopStart();
      ghost var c1 := Bytes();
      EmitRound(q, c, head);
      RoomKeeps(t0, Mentions(c));
      ghost var (x, y) := (LOOP_START, cond + Verdict(q, |c1| + I.Size(cond)) + NextRound(head));
      EmittedThen(c0, c1, Bytes(), x + [I.JFalse(0)] + [I.Pop], y, t0, Table());
      assert x + [I.JFalse(0)] + [I.Pop] + y == x + [I.JFalse(0)] + ([I.Pop] + y);
    }

    /** Patches the exit of a loop to this address, where the last condition's value is loaded. */
    method CloseLoop(offset: nat, ghost before: seq<byte>, ghost body: seq<I.Instr>)
      requires Valid() && |Bytes()| + 6 < WORD_LIMIT && offset == |before| + 21
      requires Emitted(before, Bytes(), LOOP_START + [I.JFalse(0)] + body, Table())
      modifies Repr()
      ensures Valid() && fresh(Repr() - old(Repr())) && moduleName == old(moduleName)
      ensures iter == old(iter) && Table() == old(Table()) && |Bytes()| == |old(Bytes())| + 6
      ensures Emitted(before, Bytes(), LOOP_START + [I.JFalse(Wrap(|old(Bytes())|))] + body + LOOP_EXIT, Table())
    {
      hide Emitted, ValidTable, I.Size, Extends, Wrap;
      StartParts();
      ExitParts();
      Patch(offset, I.JFalse(Wrap(code.size)), before, LOOP_START, I.JFalse(0), body);
      ghost var c := Bytes();
      EmitRun(LOOP_EXIT);
      ExtendsSelf(Table());
      EmittedThen(before, c, Bytes(), LOOP_START + [I.JFalse(Wrap(|c|))] + body, LOOP_EXIT, Table(), Table());
    }

    /** The bounds go to their registers; then comes the exit test, whose target is a placeholder. */
    method EmitLoopStart() returns (iterStart: nat, offset: nat)
      requires Valid() && |Bytes()| + 27 < WORD_LIMIT
      modifies Repr()
      ensures Valid() && fresh(Repr() - old(Repr())) && moduleName == old(moduleName)
      ensures iter == old(iter) && Table() == old(Table())
      ensures iterStart == |old(Bytes())| + 10 && offset == |old(Bytes())| + 21 && |Bytes()| == |old(Bytes())| + 27
      ensures Emitted(old(Bytes()), Bytes(), LOOP_START + [I.JFalse(0)] + [I.Pop], Table())
    {
      hide Emitted, ValidTable, I.Size, Extends;
      ghost var (c0, t0) := (Bytes(), Table());
      StartParts();
      ExtendsSelf(t0);
      EmitRun([I.Store(0), I.Store(1)]);
      ghost var c1 := Bytes();
      iterStart := code.size;
      EmitRun([I.Load(0), I.Load(1), I.Apply2(I.Lt)]);
      EmittedThen(c0, c1, Bytes(), [I.Store(0), I.Store(1)], [I.Load(0), I.Load(1), I.Apply2(I.Lt)], t0, t0);
      offset := EmitTest(c0, LOOP_START);
    }

    /** The condition, the verdict on it and the step to the next round. */
    method EmitRound(q: Quantifier, c: Expr, head: nat)
      requires Valid() && Room(Table(), Mentions(c))
      requires |Bytes()| + I.Size(Code(c, moduleName, iter, |Bytes()|)) + VerdictSize(q) + 22 < WORD_LIMIT
      modifies Repr()
      ensures Valid() && fresh(Repr() - old(Repr())) && moduleName == old(moduleName)
      ensures iter == IterAfter(c, old(iter)) && Table() == InternAll(old(Table()), Mentions(c))
      ensures var x := Code(c, moduleName, old(iter), |old(Bytes())|); var v := |old(Bytes())| + I.Size(x);
              && |Bytes()| == v + VerdictSize(q) + 22
              && Emitted(old(Bytes()), Bytes(), x + Verdict(q, v) + NextRound(head), Table())
      decreases c, 4
    {
      hide I.Assemble, I.Size, ValidTable, InternAll, Extends, Code, Mentions, HasRange, IterAfter, Emitted;
      hide Verdict, NextRound, Room;
      ghost var (c0, cond) := (Bytes(), Code(c, moduleName, iter, |Bytes()|));
      EmitExpr(c);
      ghost var (c1, t) := (Bytes(), Table());
      ExtendsSelf(t);
      EmitDecision(q, head);
      EmittedThen(c0, c1, Bytes(), cond, Verdict(q, |c1|) + NextRound(head), t, t);
      assert cond + Verdict(q, |c1|) + NextRound(head) == cond + (Verdict(q, |c1|) + NextRound(head));
    }

    /** The verdict on the condition, and the step to the next round if the loop goes on. */
    method EmitDecision(q: Quantifier, head: nat)
      requires Valid() && |Bytes()| + VerdictSize(q) + 22 < WORD_LIMIT
      modifies Repr()
      ensures Valid() && fresh(Repr() - old(Repr())) && moduleName == old(moduleName)
      ensures iter == old(iter) && Table() == old(Table()) && |Bytes()| == |old(Bytes())| + VerdictSize(q) + 22
      ensures Emitted(old(Bytes()), Bytes(), Verdict(q, |old(Bytes())|) + NextRound(head), Table())
    {
      hide I.Size, ValidTable, Extends, Emitted, Verdict, NextRound;
      ghost var (c0, t) := (Bytes(), Table());
      ExtendsSelf(t);
      EmitVerdict(q);
      ghost var c1 := Bytes();
      NextParts(head);
      EmitRun(NextRound(head));
      EmittedThen(c0, c1, Bytes(), Verdict(q, |c0|), NextRound(head), t, t);
    }

    /** The exit test of a loop, with a placeholder for the exit. */
    method EmitTest(ghost c0: seq<byte>, ghost head: seq<I.Instr>) returns (offset: nat)
      requires Valid() && |Bytes()| + 6 < WORD_LIMIT && Emitted(c0, Bytes(), head, Table())
      modifies Repr()
      ensures Valid() && fresh(Repr() - old(Repr())) && moduleName == old(moduleName)
      ensures iter == old(iter) && Table() == old(Table())
      ensures offset == |old(Bytes())| && |Bytes()| == |old(Bytes())| + 6
      ensures Emitted(c0, Bytes(), head + [I.JFalse(0)] + [I.Pop], Table())
    {
      hide Emitted, ValidTable;
      ghost var c1 := Bytes();
      offset := Emit(I.JFalse(0));
      EmittedLast(c0, c1, Bytes(), head, I.JFalse(0), Table());
      ghost var c2 := Bytes();
      var _ := Emit(I.Pop);
      EmittedLast(c0, c2, Bytes(), head + [I.JFalse(0)], I.Pop, Table());
    }

    /** Saving the condition, and the jumps that leave the loop. */
    method EmitVerdict(q: Quantifier)
      requires Valid() && |Bytes()| + VerdictSize(q) < WORD_LIMIT
      modifies Repr()
      ensures Valid() && fresh(Repr() - old(Repr())) && moduleName == old(moduleName)
      ensures iter == old(iter) && Table() == old(Table())
      ensures |Bytes()| == |old(Bytes())| + VerdictSize(q)
      ensures Emitted(old(Bytes()), Bytes(), Verdict(q, |old(Bytes())|), Table())
    {
      hide Emitted, ValidTable, I.Size, Extends, Verdict;
      ghost var (c0, t) := (Bytes(), Table());
      var save := [I.Store(2), I.Load(2)];
      VerdictParts(q, |c0|);
      ExtendsSelf(t);
      EmitRun(save);
      ghost var c1 := Bytes();
      match q {
        case All =>
          var exit := I.JFalse(Wrap(code.size + 27));
          var _ := Emit(exit);
          EmittedLast(c0, c1, Bytes(), save, exit, t);
        case Any =>
          var exit := I.JTrue(Wrap(code.size + 27));
          var _ := Emit(exit);
          EmittedLast(c0, c1, Bytes(), save, exit, t);
        case AtLeast(n) =>
          EmitCount(n);
          EmittedThen(c0, c1, Bytes(), save, CountCode(n, |c1|), t, t);
      }
    }

    /** `for N`: skip to the next round unless the condition held, else count and compare. */
    method EmitCount(n: word)
      requires Valid() && |Bytes()| + 43 < WORD_LIMIT
      modifies Repr()
      ensures Valid() && fresh(Repr() - old(Repr())) && moduleName == old(moduleName)
      ensures iter == old(iter) && Table() == old(Table())
      ensures |Bytes()| == |old(Bytes())| + 43
      ensures Emitted(old(Bytes()), Bytes(), CountCode(n, |old(Bytes())|), Table())
    {
      hide Emitted, ValidTable, I.Size, Extends, CountRun;
      ghost var (c0, t) := (Bytes(), Table());
      ExtendsSelf(t);
      CountParts(n, |c0|);
      var offset := EmitCountSkip();
      ghost var c1 := Bytes();
      EmitCounting(n);
      ghost var (x, y) := ([I.JTrue(Wrap(|c0| + 10))], CountRun(n) + [I.JTrue(Wrap(|c1| + 28 + 27))]);
      EmittedThen(c0, c1, Bytes(), x + [I.Jump(0)], y, t, t);
      Patch(offset, I.Jump(Wrap(code.size)), c0, x, I.Jump(0), y);
    }

    /** Counting a match, and the exit once there are enough. */
    method EmitCounting(n: word)
      requires Valid() && |Bytes()| + 33 < WORD_LIMIT
      modifies Repr()
      ensures Valid() && fresh(Repr() - old(Repr())) && moduleName == old(moduleName)
      ensures iter == old(iter) && Table() == old(Table()) && |Bytes()| == |old(Bytes())| + 33
      ensures Emitted(old(Bytes()), Bytes(), CountRun(n) + [I.JTrue(Wrap(|old(Bytes())| + 28 + 27))], Table())
    {
      hide Emitted, ValidTable, I.Size, CountRun, Wrap;
      CountParts(n, 0);
      ghost var c1 := Bytes();
      EmitRun(CountRun(n));
      ghost var c2 := Bytes();
      var exit := I.JTrue(Wrap(code.size + 27));
      var _ := Emit(exit);
      EmittedLast(c1, c2, Bytes(), CountRun(n), exit, Table());
    }

    /** The jump to the counting code, and a placeholder for the jump past it. */
    method EmitCountSkip() returns (offset: nat)
      requires Valid() && |Bytes()| + 10 < WORD_LIMIT
      modifies Repr()
      ensures Valid() && fresh(Repr() - old(Repr())) && moduleName == old(moduleName)
      ensures iter == old(iter) && Table() == old(Table())
      ensures offset == |old(Bytes())| + 5 && |Bytes()| == |old(Bytes())| + 10
      ensures Emitted(old(Bytes()), Bytes(), [I.JTrue(Wrap(|old(Bytes())| + 10))] + [I.Jump(0)], Table())
    {
      hide Emitted, ValidTable, I.Size;
      ghost var c0 := Bytes();
      var toCount := I.JTrue(Wrap(code.size + 10));
      var _ := Emit(toCount);
      ghost var c1 := Bytes();
      offset := Emit(I.Jump(0));
      EmittedLast(c0, c1, Bytes(), [toCount], I.Jump(0), Table());
    }

    /** A rule: its event selects the module, its body is emitted and ended by the halt instruction. */
    method EmitRule(event: Option<string>, body: Expr)
      requires Valid() && Room(Table(), Mentions(body))
      requires var m := if event.Some? then event else moduleName;
               |Bytes()| + I.Size(RuleCode(body, m, iter, |Bytes()|)) < WORD_LIMIT
      modifies Repr()
      ensures Valid() && fresh(Repr() - old(Repr()))
      ensures moduleName == if event.Some? then event else old(moduleName)
      ensures iter == IterAfter(body, old(iter)) && Table() == InternAll(old(Table()), Mentions(body))
      ensures var x := RuleCode(body, moduleName, old(iter), |old(Bytes())|);
              |Bytes()| == |old(Bytes())| + I.Size(x) && Emitted(old(Bytes()), Bytes(), x, Table())
    {
      hide I.Assemble, I.Size, ValidTable, InternAll, Extends, Code, Mentions, HasRange, IterAfter, Emitted;
      if event.Some? {
        moduleName := event;
      }
      ghost var (c0, x) := (Bytes(), Code(body, moduleName, iter, |Bytes()|));
      SizeThen(x, I.Halt);
      EmitExpr(body);
      ghost var c1 := Bytes();
      var _ := Emit(I.Halt);
      EmittedLast(c0, c1, Bytes(), x, I.Halt, Table());
    }
  }

  lemma InternOne(t: StringTable, s: string)
    requires ValidTable(t) && Room(t, [s])
    ensures InternAll(t, [s]) == Intern(t, s) && s in Intern(t, s).offsets && NulFree(s) && |Intern(t, s).data| < WORD_LIMIT
  {
    assert s in [s];
    InternAllKeeps(t, [s]);
    assert InternAll(t, [s]) == InternAll(Intern(t, s), []);
  }

  lemma EmittedNothing(c: seq<byte>, t: StringTable)
    ensures Emitted(c, c, [], t) && I.Size([]) == 0
  {
    assert I.Assemble([], t.offsets) == [];
  }

  lemma SizeThen(x: seq<I.Instr>, i: I.Instr)
    ensures I.Size(x + [i]) == I.Size(x) + I.Width(i)
  {
    I.SizeAppend(x, [i]);
    AssembleOne(i, map[]);
  }

  lemma EmittedLast(c0: seq<byte>, c1: seq<byte>, c2: seq<byte>, x: seq<I.Instr>, i: I.Instr, t: StringTable)
    requires Emitted(c0, c1, x, t) && Emitted(c1, c2, [i], t)
    ensures Emitted(c0, c2, x + [i], t)
  {
    hide I.Assemble;
    EmittedThen(c0, c1, c2, x, [i], t, t);
  }

  // ---------- the listings, taken apart ----------

  lemma UnaryCode(e: Expr, mod: Option<string>, iter: Option<string>, b: nat)
    requires e.Unary?
    ensures var x := Code(e.operand, mod, iter, b);
            && Code(e, mod, iter, b) == x + [UnaryInstr(e.unop)]
            && I.Size(Code(e, mod, iter, b)) == I.Size(x) + 1
            && Mentions(e) == Mentions(e.operand) && IterAfter(e, iter) == IterAfter(e.operand, iter)
            && I.Width(UnaryInstr(e.unop)) == 1 && !I.Refers(UnaryInstr(e.unop))
  {
    hide I.Size;
    SizeThen(Code(e.operand, mod, iter, b), UnaryInstr(e.unop));
  }

  lemma BinaryWidth(op: BinOp, tag: Tag)
    ensures I.Width(BinaryInstr(op, tag)) == 1 && !I.Refers(BinaryInstr(op, tag))
  {
  }

  lemma StrictCode(e: Expr, mod: Option<string>, iter: Option<string>, b: nat)
    requires e.Binary? && e.op != BinOp.And
    ensures var x := Code(e.left, mod, iter, b);
            var y := Code(e.right, mod, IterAfter(e.left, iter), b + I.Size(x));
            && Code(e, mod, iter, b) == x + y + [BinaryInstr(e.op, e.operandType)]
            && I.Size(Code(e, mod, iter, b)) == I.Size(x) + I.Size(y) + 1
            && Mentions(e) == Mentions(e.left) + Mentions(e.right)
            && IterAfter(e, iter) == IterAfter(e.right, IterAfter(e.left, iter))
            && I.Width(BinaryInstr(e.op, e.operandType)) == 1 && !I.Refers(BinaryInstr(e.op, e.operandType))
  {
    hide I.Size, BinaryInstr;
    BinaryWidth(e.op, e.operandType);
    var x := Code(e.left, mod, iter, b);
    var y := Code(e.right, mod, IterAfter(e.left, iter), b + I.Size(x));
    SizeThen(x + y, BinaryInstr(e.op, e.operandType));
    I.SizeAppend(x, y);
  }

  /** The right operand `y` of `and`, at address `p`, with the jumps before it. */
  function Guarded(p: nat, y: seq<I.Instr>): seq<I.Instr> {
    [I.JTrue(Wrap(p)), I.PushBool(0)] + [I.Jump(Wrap(p + I.Size(y)))] + y
  }

  lemma GuardSize(p: nat)
    ensures I.Size([I.JTrue(Wrap(p)), I.PushBool(0)]) == 10
  {
    assert [I.JTrue(Wrap(p)), I.PushBool(0)] == [I.JTrue(Wrap(p))] + [I.PushBool(0)];
    SizeThen([I.JTrue(Wrap(p))], I.PushBool(0));
    AssembleOne(I.JTrue(Wrap(p)), map[]);
  }

  lemma RoomKeeps(t: StringTable, strings: seq<string>)
    requires ValidTable(t) && Room(t, strings)
    ensures Extends(InternAll(t, strings), t)
  {
    InternAllKeeps(t, strings);
  }

  lemma AndCode(e: Expr, mod: Option<string>, iter: Option<string>, b: nat)
    requires e.Binary? && e.op == BinOp.And
    ensures var x := Code(e.left, mod, iter, b);
            var p := b + I.Size(x) + 15;
            var y := Code(e.right, mod, IterAfter(e.left, iter), p);
            && Code(e, mod, iter, b) == x + Guarded(p, y) + [I.Apply2(I.AndL)]
            && I.Size(Code(e, mod, iter, b)) == I.Size(x) + 15 + I.Size(y) + 1
            && Mentions(e) == Mentions(e.left) + Mentions(e.right)
            && IterAfter(e, iter) == IterAfter(e.right, IterAfter(e.left, iter))
  {
    hide I.Size, Wrap;
    var x := Code(e.left, mod, iter, b);
    var p := b + I.Size(x) + 15;
    var y := Code(e.right, mod, IterAfter(e.left, iter), p);
    var z := [I.JTrue(Wrap(p)), I.PushBool(0), I.Jump(Wrap(p + I.Size(y)))];
    assert Guarded(p, y) == z + y;
    assert x + (z + y) == x + z + y;
    AndSize(x, p, y);
  }

  lemma AndSize(x: seq<I.Instr>, p: nat, y: seq<I.Instr>)
    ensures I.Size(x + Guarded(p, y) + [I.Apply2(I.AndL)]) == I.Size(x) + 15 + I.Size(y) + 1
  {
    hide I.Size, Wrap;
    var z, jump := [I.JTrue(Wrap(p)), I.PushBool(0)], I.Jump(Wrap(p + I.Size(y)));
    SizeThen(x + Guarded(p, y), I.Apply2(I.AndL));
    I.SizeAppend(x, Guarded(p, y));
    I.SizeAppend(z + [jump], y);
    SizeThen(z, jump);
    GuardSize(p);
  }

  lemma LiteralListing(e: Expr, mod: Option<string>, iter: Option<string>, b: nat)
    requires e.Lit?
    ensures IterAfter(e, iter) == iter
    ensures var c := Code(e, mod, iter, b);
            match e.literal
            case Identifier(x) =>
              && Mentions(e) == [x]
              && (if mod.None? then c == [] && I.Size(c) == 0
                  else I.Size(c) == 5 &&
                       c == (if mod == Some(x) then [I.PushModule(x)]
                             else if iter == Some(x) then [I.Load(0)] else [I.RunRule(x)]))
            case Integer(w) => Mentions(e) == [] && c == [I.PushInt(w)] && I.Size(c) == 5
            case Text(t) => Mentions(e) == [t] && c == [I.PushString(t)] && I.Size(c) == 5
            case Pattern(t, f) => Mentions(e) == [t] && c == [I.PushString(t)] + [I.PushInt(f)] && I.Size(c) == 10
            case Boolean(t) => Mentions(e) == [] && c == [I.PushBool(AsWord(t))] && I.Size(c) == 5
    ensures forall t: StringTable :: InternAll(t, []) == t
  {
    hide I.Size;
    var c := Code(e, mod, iter, b);
    if e.literal.Pattern? {
      SizeThen([c[0]], c[1]);
    }
    if c != [] {
      AssembleOne(c[0], map[]);
    } else {
      EmittedNothing([], StringTable("", map[]));
    }
  }

  lemma FieldCode(e: Expr, mod: Option<string>, iter: Option<string>, b: nat)
    requires e.Field?
    ensures var x := Code(e.owner, mod, iter, b); var get := I.GetField(e.fieldName);
            && Code(e, mod, iter, b) == (if Unwraps(e.fieldType) then x + [get] + [I.Object] else x + [get])
            && I.Size(Code(e, mod, iter, b)) == I.Size(x) + (if Unwraps(e.fieldType) then 6 else 5)
            && Mentions(e) == Mentions(e.owner) + [e.fieldName] && IterAfter(e, iter) == IterAfter(e.owner, iter)
  {
    hide I.Size;
    var x, get := Code(e.owner, mod, iter, b), I.GetField(e.fieldName);
    assert x + [get, I.Object] == x + [get] + [I.Object];
    SizeThen(x, get);
    SizeThen(x + [get], I.Object);
  }

  lemma IndexCode(e: Expr, mod: Option<string>, iter: Option<string>, b: nat)
    requires e.Index?
    ensures var x := Code(e.indexed, mod, iter, b);
            var y := Code(e.index, mod, IterAfter(e.indexed, iter), b + I.Size(x));
            && Code(e, mod, iter, b) == x + y + [I.Index]
            && I.Size(Code(e, mod, iter, b)) == I.Size(x) + I.Size(y) + 1
            && Mentions(e) == Mentions(e.indexed) + Mentions(e.index)
            && IterAfter(e, iter) == IterAfter(e.index, IterAfter(e.indexed, iter))
  {
    hide I.Size;
    var x := Code(e.indexed, mod, iter, b);
    var y := Code(e.index, mod, IterAfter(e.indexed, iter), b + I.Size(x));
    SizeThen(x + y, I.Index);
    I.SizeAppend(x, y);
  }

  lemma CallCode(e: Expr, mod: Option<string>, iter: Option<string>, b: nat)
    requires e.Call?
    ensures var x := ArgumentsCode(e.arguments, mod, iter, b); var count := I.PushInt(Wrap(|e.arguments|));
            var y := Code(e.callee, mod, IterAfterAll(e.arguments, iter), b + I.Size(x) + 5);
            && Code(e, mod, iter, b) == x + [count] + y + [I.Call]
            && I.Size(Code(e, mod, iter, b)) == I.Size(x) + 5 + I.Size(y) + 1
            && Mentions(e) == MentionsAll(e.arguments) + Mentions(e.callee)
            && IterAfter(e, iter) == IterAfter(e.callee, IterAfterAll(e.arguments, iter))
  {
    hide I.Size;
    var x, count := ArgumentsCode(e.arguments, mod, iter, b), I.PushInt(Wrap(|e.arguments|));
    var y := Code(e.callee, mod, IterAfterAll(e.arguments, iter), b + I.Size(x) + 5);
    SizeThen(x + [count] + y, I.Call);
    I.SizeAppend(x + [count], y);
    SizeThen(x, count);
  }

  /** The code and the strings of the later arguments come first. */
  lemma {:induction false} ArgumentsSplit(args: seq<Expr>, i: nat, mod: Option<string>, iter: Option<string>, b: nat)
    returns (code: seq<I.Instr>, strings: seq<string>)
    requires i <= |args|
    ensures ArgumentsCode(args, mod, iter, b) == ArgumentsCode(args[i..], mod, iter, b) + code
    ensures MentionsAll(args) == MentionsAll(args[i..]) + strings
    decreases i
  {
    hide Code, Mentions, I.Size;
    if i == 0 {
      assert args[0..] == args;
      code, strings := [], [];
    } else {
      assert args[1..][i - 1..] == args[i..];
      code, strings := ArgumentsSplit(args[1..], i - 1, mod, iter, b);
      var p := b + I.Size(ArgumentsCode(args[1..], mod, iter, b));
      code := code + Code(args[0], mod, IterAfterAll(args[1..], iter), p);
      strings := strings + Mentions(args[0]);
    }
  }

  /** The room that argument `i` needs once the later ones are emitted. */
  lemma ArgumentRoom(args: seq<Expr>, i: nat, mod: Option<string>, iter: Option<string>, b: nat, t: StringTable)
    requires i < |args| && ValidTable(t) && Room(t, MentionsAll(args))
    requires b + I.Size(ArgumentsCode(args, mod, iter, b)) < WORD_LIMIT
    ensures var x := ArgumentsCode(args[i + 1..], mod, iter, b);
            var it := IterAfterAll(args[i + 1..], iter);
            var y := Code(args[i], mod, it, b + I.Size(x));
            var t1 := InternAll(t, MentionsAll(args[i + 1..]));
            && ArgumentsCode(args[i..], mod, iter, b) == x + y && I.Size(x + y) == I.Size(x) + I.Size(y)
            && b + I.Size(x) + I.Size(y) < WORD_LIMIT
            && Room(t1, Mentions(args[i])) && InternAll(t, MentionsAll(args[i..])) == InternAll(t1, Mentions(args[i]))
            && Extends(InternAll(t, MentionsAll(args[i..])), t1)
            && IterAfterAll(args[i..], iter) == IterAfter(args[i], it)
  {
    hide Code, Mentions, I.Size, InternAll, ValidTable, Extends, HasRange, Room;
    var code, strings := ArgumentsSplit(args, i, mod, iter, b);
    assert args[i..][1..] == args[i + 1..];
    var x := ArgumentsCode(args[i + 1..], mod, iter, b);
    var y := Code(args[i], mod, IterAfterAll(args[i + 1..], iter), b + I.Size(x));
    I.SizeAppend(x, y);
    I.SizeAppend(x + y, code);
    RoomSplit(t, MentionsAll(args[i..]), strings);
    RoomSplit(t, MentionsAll(args[i + 1..]), Mentions(args[i]));
  }

  lemma InternNothing(t: StringTable)
    ensures InternAll(t, []) == t
  {
  }

  lemma ExtendsSelf(t: StringTable)
    ensures Extends(t, t)
  {
  }

  function LoopAt(e: Expr, mod: Option<string>, b: nat, iter: Option<string>): seq<I.Instr>
    requires e.Range?
  {
    LoopCode(e.quantifier, b, Code(e.condition, mod, iter, ConditionStart(b)))
  }

  lemma RangeCode(e: Expr, mod: Option<string>, iter: Option<string>, b: nat)
    requires e.Range?
    ensures var last := Code(e.end, mod, Some(e.ivar), b);
            var iter1 := IterAfter(e.end, Some(e.ivar));
            var first := Code(e.start, mod, iter1, b + I.Size(last));
            var loop := LoopAt(e, mod, b + I.Size(last) + I.Size(first), IterAfter(e.start, iter1));
            && Code(e, mod, iter, b) == last + first + loop
            && I.Size(Code(e, mod, iter, b)) == I.Size(last) + I.Size(first) + I.Size(loop)
            && Mentions(e) == Mentions(e.end) + Mentions(e.start) + Mentions(e.condition)
            && IterAfter(e, iter) == None
  {
    hide I.Size, LoopCode;
    var last := Code(e.end, mod, Some(e.ivar), b);
    var iter1 := IterAfter(e.end, Some(e.ivar));
    var first := Code(e.start, mod, iter1, b + I.Size(last));
    var p := b + I.Size(last) + I.Size(first);
    I.SizeAppend(last + first, LoopAt(e, mod, p, IterAfter(e.start, iter1)));
    I.SizeAppend(last, first);
  }

  /** Counting a match: everything between the two jumps. */
  function CountRun(n: word): seq<I.Instr> {
    [I.Pop, I.Load(3), I.PushInt(1), I.Apply2(I.Add), I.Store(3), I.Load(3), I.PushInt(n), I.Apply2(I.Gte)]
  }

  function CountCode(n: word, p: nat): seq<I.Instr> {
    [I.JTrue(Wrap(p + 10))] + [I.Jump(Wrap(p + 43))] + (CountRun(n) + [I.JTrue(Wrap(p + 38 + 27))])
  }

  lemma CountParts(n: word, p: nat)
    ensures I.Size(CountRun(n)) == 28 && (forall i <- CountRun(n) :: !I.Refers(i))
    ensures I.Size([I.JTrue(Wrap(p + 10))]) == 5
  {
    hide I.Size;
    AssembleOne(I.JTrue(Wrap(p + 10)), map[]);
    var r := CountRun(n);
    SizeStep(r);
    SizeStep(r[5..]);
  }

  lemma VerdictParts(q: Quantifier, p: nat)
    ensures var save := [I.Store(2), I.Load(2)];
            && I.Size(save) == 10
            && Verdict(q, p) == match q
                 case All => save + [I.JFalse(Wrap(p + 37))]
                 case Any => save + [I.JTrue(Wrap(p + 37))]
                 case AtLeast(n) => save + CountCode(n, p + 10)
  {
    hide I.Size;
    SizeStep([I.Store(2), I.Load(2)]);
  }

  const LOOP_START := [I.Store(0), I.Store(1)] + [I.Load(0), I.Load(1), I.Apply2(I.Lt)]

  lemma StartParts()
    ensures I.Size([I.Store(0), I.Store(1)]) == 10 && I.Size([I.Load(0), I.Load(1), I.Apply2(I.Lt)]) == 11
    ensures I.Size(LOOP_START) == 21
  {
    hide I.Size;
    SizeStep([I.Store(0), I.Store(1)]);
    SizeStep([I.Load(0), I.Load(1), I.Apply2(I.Lt)]);
    I.SizeAppend([I.Store(0), I.Store(1)], [I.Load(0), I.Load(1), I.Apply2(I.Lt)]);
  }

  lemma ExitParts()
    ensures I.Size(LOOP_EXIT) == 6 && (forall i <- LOOP_EXIT :: !I.Refers(i))
  {
    hide I.Size;
    FragmentSizes(All, 0, 0, 0);
  }

  lemma NextParts(head: nat)
    ensures I.Size(NextRound(head)) == 22 && (forall i <- NextRound(head) :: !I.Refers(i))
  {
    hide I.Size;
    FragmentSizes(All, 0, 0, head);
  }

  lemma LoopParts(q: Quantifier, b: nat, cond: seq<I.Instr>)
    ensures var v := b + 27 + I.Size(cond);
            var exit := v + VerdictSize(q) + 22;
            var body := [I.Pop] + (cond + Verdict(q, v) + NextRound(b + 10));
            && LoopCode(q, b, cond) == LOOP_START + [I.JFalse(Wrap(exit))] + body + LOOP_EXIT
            && I.Size(LoopCode(q, b, cond)) == exit + 6 - b
  {
    hide I.Size, Verdict;
    var stores, loads := [I.Store(0), I.Store(1)], [I.Load(0), I.Load(1), I.Apply2(I.Lt)];
    var v := b + 27 + I.Size(cond);
    var exit, next := v + VerdictSize(q) + 22, NextRound(b + 10);
    assert LoopHead(exit) == loads + [I.JFalse(Wrap(exit))] + [I.Pop];
    assert LoopCode(q, b, cond) == stores + LoopHead(exit) + cond + Verdict(q, v) + next + LOOP_EXIT;
    FragmentSizes(q, exit, v, b + 10);
    StartParts();
    I.SizeAppend(stores + LoopHead(exit) + cond + Verdict(q, v) + next, LOOP_EXIT);
    I.SizeAppend(stores + LoopHead(exit) + cond + Verdict(q, v), next);
    I.SizeAppend(stores + LoopHead(exit) + cond, Verdict(q, v));
    I.SizeAppend(stores + LoopHead(exit), cond);
    I.SizeAppend(stores, LoopHead(exit));
  }
}
