/**
 * The bytes of compiled code, one by one: what a turn of the machine does at each opcode, with the numbers
 * of the opcodes and the layout of their operands written out.
 */
module Bytecode {
  import opened Words
  import opened Wrappers
  import opened CStrings
  import opened Ast
  import opened Machine
  import opened Operators
  import I = Instructions

  // ---------- instructions on two values ----------

  /** What the instruction with one byte leaves for the numbers `x` and `y`, `y` being on top; `None` if it stops or is none of these. */
  function NumberByte(op: byte, x: word, y: word): Option<word> {
    if op < 12 then ArithmeticByte(op, x, y)
    else if op == 12 then Some(if x > y then 1 else 0)
    else if op == 13 then Some(if x < y then 1 else 0)
    else if op == 14 then Some(if x >= y then 1 else 0)
    else if op == 15 then Some(if x <= y then 1 else 0)
    else if op == 16 || op == 18 then Some(if x == y then 1 else 0)
    else if op == 19 || op == 21 then Some(if x != y then 1 else 0)
    else if op == 22 then Some(if x != 0 && y != 0 then 1 else 0)
    else if op == 23 then Some(if x != 0 || y != 0 then 1 else 0)
    else None
  }

  function ArithmeticByte(op: byte, x: word, y: word): Option<word> {
    if op == 1 then Some((x + y) % 0x1_0000_0000)
    else if op == 2 then Some((x - y) % 0x1_0000_0000)
    else if op == 3 then Some((x * y) % 0x1_0000_0000)
    else if op == 4 || op == 5 then if y == 0 then None else Some(if op == 4 then x / y else x % y)
    else if op == 6 then if y >= 32 then None else Some(ShiftLeft(x, y))
    else if op == 7 then if y >= 32 then None else Some(ShiftRight(x, y))
    else if op == 8 then Some(Words.BitAnd(x, y))
    else if op == 9 then Some(Words.BitOr(x, y))
    else if op == 10 then Some(Words.BitXor(x, y))
    else None
  }

  /** The same for texts: whether the relation holds between `s` and `t`, `t` being on top. */
  ghost function TextByte(op: byte, s: string, t: string): Option<bool> {
    if op == 17 then Some(s == t)
    else if op == 20 then Some(s != t)
    else if op == 105 then Some(Part(t, s))
    else if op == 106 then Some(LikePart(t, s))
    else if op == 107 then Some(Start(t, s))
    else if op == 108 then Some(LikeStart(t, s))
    else if op == 109 then Some(Ending(t, s))
    else if op == 110 then Some(LikeEnding(t, s))
    else if op == 111 then Some(SameButCase(s, t))
    else None
  }

  /** One turn of the machine at such a byte. */
  lemma NumberByteRuns(img: Image, ip: nat, s: seq<Value>, x: word, y: word, regs: Registers, k: nat)
    requires ip < |img.code| && NumberByte(img.code[ip], x, y).Some? && |s| < 256
    ensures Exec(img, ip, s + [Num(x)] + [Num(y)], regs, k + 1) == Exec(img, ip + 1, s + [Num(NumberByte(img.code[ip], x, y).value)], regs, k)
  {
    NumberByteFetched(img, ip, x, y);
    DropsTwo(s, Num(x), Num(y));
    hide NumberByte, NumericOp, I.Fetch;
  }

  lemma DropsTwo(s: seq<Value>, x: Value, y: Value)
    ensures var t := s + [x] + [y]; |t| >= 2 && Drop(t, 2) == s && Top(t) == y && t[|t| - 2] == x
  {
  }

  lemma NumberByteFetched(img: Image, ip: nat, x: word, y: word)
    requires ip < |img.code| && NumberByte(img.code[ip], x, y).Some?
    ensures var f := I.Fetch(img.code, img.strings, ip);
            f.Found? && f.instr.Apply2? && NumericOp(f.instr.op2, x, y) == Ok(Num(NumberByte(img.code[ip], x, y).value))
  {
    hide ShiftLeft, ShiftRight, Words.BitAnd, Words.BitOr, Words.BitXor;
  }

  lemma TextByteRuns(img: Image, ip: nat, s: seq<Value>, x: string, y: string, regs: Registers, k: nat)
    requires ip < |img.code| && TextByte(img.code[ip], x, y).Some? && |s| < 256
    ensures Exec(img, ip, s + [Str(x)] + [Str(y)], regs, k + 1) ==
            Exec(img, ip + 1, s + [Num(if TextByte(img.code[ip], x, y).value then 1 else 0)], regs, k)
  {
    TextByteFetched(img, ip, x, y);
    DropsTwo(s, Str(x), Str(y));
    hide TextByte, StringOp, I.Fetch;
  }

  lemma TextByteFetched(img: Image, ip: nat, x: string, y: string)
    requires ip < |img.code| && TextByte(img.code[ip], x, y).Some?
    ensures var f := I.Fetch(img.code, img.strings, ip);
            f.Found? && f.instr.Apply2? && StringOp(f.instr.op2, x, y) == Ok(Num(if TextByte(img.code[ip], x, y).value then 1 else 0))
  {
    TextByteTable(img.code[ip], x, y);
    hide StringOp, TextByte;
    assert I.Fetch(img.code, img.strings, ip) == I.Found(I.DecodePlain(img.code[ip]).value);
  }

  lemma TextByteTable(op: byte, x: string, y: string)
    requires TextByte(op, x, y).Some?
    ensures !I.IsWideOpcode(op)
    ensures var i := I.DecodePlain(op);
            i.Some? && i.value.Apply2? && StringOp(i.value.op2, x, y) == Ok(Num(if TextByte(op, x, y).value then 1 else 0))
  {
    if op in [106, 108, 110, 111] {
      CaselessByteTable(op, x, y);
    } else {
      ExactByteTable(op, x, y);
    }
  }

  lemma CaselessByteTable(op: byte, x: string, y: string)
    requires op in [106, 108, 110, 111]
    ensures TextByte(op, x, y).Some? && !I.IsWideOpcode(op)
    ensures var i := I.DecodePlain(op);
            i.Some? && i.value.Apply2? && StringOp(i.value.op2, x, y) == Ok(Num(if TextByte(op, x, y).value then 1 else 0))
  {
    hide Lower, Occurs, HasPrefix, HasSuffix, LikePart, LikeStart, LikeEnding, SameButCase;
    LikePartMeans(y, x);
    LikeStartMeans(y, x);
    LikeEndingMeans(y, x);
    LowerSame(x, y);
  }

  lemma ExactByteTable(op: byte, x: string, y: string)
    requires TextByte(op, x, y).Some? && op !in [106, 108, 110, 111]
    ensures !I.IsWideOpcode(op)
    ensures var i := I.DecodePlain(op);
            i.Some? && i.value.Apply2? && StringOp(i.value.op2, x, y) == Ok(Num(if TextByte(op, x, y).value then 1 else 0))
  {
    hide Lower, Occurs, HasPrefix, HasSuffix, Part, Start, Ending;
    PartOccurs(y, x);
    StartIsPrefix(y, x);
  }

  // ---------- instructions with an operand ----------

  /** A turn of the machine, once the instruction is known. */
  lemma Turns(img: Image, ip: nat, i: I.Instr, s: seq<Value>, regs: Registers, k: nat)
    requires I.Fetch(img.code, img.strings, ip) == I.Found(i)
    ensures var e, r := Step(img, i, ip + I.Width(i), s, regs), Exec(img, ip, s, regs, k + 1);
            (e.Next? ==> r == Exec(img, e.ip, e.stack, e.regs, k)) && (e.End? ==> r == Stop(e.error, e.result, e.left, k))
  {
    hide Step, I.Fetch;
  }

  /** The 32-bit operand behind the opcode, lowest byte first. */
  function OperandAt(code: seq<byte>, ip: nat): int
    requires ip + 5 <= |code|
  {
    code[ip + 1] as int + 0x100 * (code[ip + 2] as int) + 0x1_0000 * (code[ip + 3] as int) + 0x100_0000 * (code[ip + 4] as int)
  }

  lemma OperandFetched(img: Image, ip: nat, arg: word)
    requires ip + 5 <= |img.code| && arg == OperandAt(img.code, ip)
    ensures var f := I.Fetch(img.code, img.strings, ip);
            match img.code[ip]
            case 26 => f == I.Found(I.JFalse(arg))
            case 27 => f == I.Found(I.JTrue(arg))
            case 28 => f == I.Found(I.Jump(arg))
            case 100 => f == I.Found(I.PushInt(arg))
            case 101 => f == I.Found(I.PushBool(arg))
            case 206 => f == I.Found(I.Load(arg))
            case 207 => f == I.Found(I.Store(arg))
            case _ => true
  {
    hide GetString;
    var b := img.code[ip + 1..ip + 5];
    assert b[0] == img.code[ip + 1] && b[1] == img.code[ip + 2] && b[2] == img.code[ip + 3] && b[3] == img.code[ip + 4];
  }

  /** Jumps look at the value on top and leave it there: 26 is taken on zero, 27 on any other number, 28 always. */
  lemma JumpByteRuns(img: Image, ip: nat, s: seq<Value>, x: word, regs: Registers, k: nat, arg: word)
    requires ip + 5 <= |img.code| && arg == OperandAt(img.code, ip)
    ensures var op, t := img.code[ip], s + [Num(x)]; var r := Exec(img, ip, t, regs, k + 1);
            && (op == 26 ==> r == Exec(img, if x == 0 then arg else ip + 5, t, regs, k))
            && (op == 27 ==> r == Exec(img, if x != 0 then arg else ip + 5, t, regs, k))
            && (op == 28 ==> r == Exec(img, arg, t, regs, k))
  {
    OperandFetched(img, ip, arg);
    TopIs(s, Num(x));
    hide I.Fetch;
  }

  lemma TopIs(s: seq<Value>, x: Value)
    ensures var t := s + [x]; t != [] && Top(t) == x && Drop(t, 1) == s
  {
  }

  /** Constants are pushed; 206 and 207 move a value between the stack and one of the four registers. */
  lemma MoveByteRuns(img: Image, ip: nat, s: seq<Value>, x: Value, regs: Registers, k: nat, arg: word)
    requires ip + 5 <= |img.code| && arg == OperandAt(img.code, ip) && |s| < 255
    ensures var op, t := img.code[ip], s + [x]; var r := Exec(img, ip, t, regs, k + 1);
            && (op == 100 || op == 101 ==> r == Exec(img, ip + 5, t + [Num(arg)], regs, k))
            && (op == 206 && arg < 4 ==> r == Exec(img, ip + 5, t + [[regs.r0, regs.r1, regs.r2, regs.r3][arg]], regs, k))
            && (op == 207 && arg < 4 ==>
                  r == Exec(img, ip + 5, s, [regs.(r0 := x), regs.(r1 := x), regs.(r2 := x), regs.(r3 := x)][arg], k))
  {
    if img.code[ip] == 206 && arg < 4 {
      LoadByteRuns(img, ip, s + [x], regs, k, arg);
    } else if img.code[ip] == 207 && arg < 4 {
      StoreByteRuns(img, ip, s, x, regs, k, arg);
    } else {
      PushByteRuns(img, ip, s + [x], regs, k, arg);
    }
    hide Exec;
  }

  lemma PushByteRuns(img: Image, ip: nat, t: seq<Value>, regs: Registers, k: nat, arg: word)
    requires ip + 5 <= |img.code| && arg == OperandAt(img.code, ip) && |t| < 256
    ensures img.code[ip] in [100, 101] ==> Exec(img, ip, t, regs, k + 1) == Exec(img, ip + 5, t + [Num(arg)], regs, k)
  {
    OperandFetched(img, ip, arg);
    if img.code[ip] in [100, 101] {
      Turns(img, ip, if img.code[ip] == 100 then I.PushInt(arg) else I.PushBool(arg), t, regs, k);
    }
    hide I.Fetch, Exec;
  }

  lemma LoadByteRuns(img: Image, ip: nat, t: seq<Value>, regs: Registers, k: nat, arg: word)
    requires ip + 5 <= |img.code| && img.code[ip] == 206 && arg == OperandAt(img.code, ip) && arg < 4 && |t| < 256
    ensures Exec(img, ip, t, regs, k + 1) == Exec(img, ip + 5, t + [[regs.r0, regs.r1, regs.r2, regs.r3][arg]], regs, k)
  {
    OperandFetched(img, ip, arg);
    Turns(img, ip, I.Load(arg), t, regs, k);
    hide I.Fetch, Exec;
  }

  lemma StoreByteRuns(img: Image, ip: nat, s: seq<Value>, x: Value, regs: Registers, k: nat, arg: word)
    requires ip + 5 <= |img.code| && img.code[ip] == 207 && arg == OperandAt(img.code, ip) && arg < 4
    ensures Exec(img, ip, s + [x], regs, k + 1) == Exec(img, ip + 5, s, [regs.(r0 := x), regs.(r1 := x), regs.(r2 := x), regs.(r3 := x)][arg], k)
  {
    OperandFetched(img, ip, arg);
    TopIs(s, x);
    Turns(img, ip, I.Store(arg), s + [x], regs, k);
    hide I.Fetch, Exec;
  }

  // ---------- other instructions ----------

  /** Instructions on one value: 11, 24, 25 and 113 compute, 104 takes the value out of an object, 205 drops it, and 254 ends the run. */
  lemma TopByteRuns(img: Image, ip: nat, s: seq<Value>, x: word, t: string, o: Object, regs: Registers, k: nat)
    requires ip < |img.code| && |s| < 256
    ensures var op := img.code[ip]; var r := Exec(img, ip, s + [Num(x)], regs, k + 1);
            && (op == 11 ==> r == Exec(img, ip + 1, s + [Num(Words.BitNot(x))], regs, k))
            && (op == 24 ==> r == Exec(img, ip + 1, s + [Num(if x == 0 then 1 else 0)], regs, k))
            && (op == 25 ==> r == Exec(img, ip + 1, s + [Num((0 - x) % 0x1_0000_0000)], regs, k))
            && (op == 205 ==> r == Exec(img, ip + 1, s, regs, k))
            && (op == 254 ==> r == Stop(0, x, s, k))
    ensures img.code[ip] == 113 ==> Exec(img, ip, s + [Str(t)], regs, k + 1) == Exec(img, ip + 1, s + [Num(|t| % 0x1_0000_0000)], regs, k)
    ensures img.code[ip] == 104 && o.payload.Scalar? ==>
              Exec(img, ip, s + [Obj(o)], regs, k + 1) == Exec(img, ip + 1, s + [o.payload.value], regs, k)
  {
    PlainFetched(img, ip);
    TopIs(s, Num(x));
    TopIs(s, Str(t));
    TopIs(s, Obj(o));
    var f := I.Fetch(img.code, img.strings, ip);
    if f.Found? {
      Turns(img, ip, f.instr, s + [Num(x)], regs, k);
      Turns(img, ip, f.instr, s + [Str(t)], regs, k);
      Turns(img, ip, f.instr, s + [Obj(o)], regs, k);
    }
    hide I.Fetch, Words.BitNot, Exec;
  }

  lemma PlainFetched(img: Image, ip: nat)
    requires ip < |img.code|
    ensures var f := I.Fetch(img.code, img.strings, ip);
            match img.code[ip]
            case 11 => f == I.Found(I.Apply1(I.Op1.Not))
            case 24 => f == I.Found(I.Apply1(I.NotL))
            case 25 => f == I.Found(I.Apply1(I.Neg))
            case 113 => f == I.Found(I.Apply1(I.StrLen))
            case 104 => f == I.Found(I.Object)
            case 205 => f == I.Found(I.Pop)
            case 254 => f == I.Found(I.Halt)
            case 112 => f == I.Found(I.Matches)
            case 201 => f == I.Found(I.Call)
            case 203 => f == I.Found(I.Index)
            case _ => true
  {
  }

  /** 112 matches a text, 203 takes an item out of an array, and 201 calls a function, whose first argument lies on top of the others. */
  lemma ObjectByteRuns(img: Image, ip: nat, s: seq<Value>, t: string, p: string, i: word, o: Object, regs: Registers, k: nat)
    requires ip < |img.code| && |s| < 256
    ensures img.code[ip] == 112 ==>
              Exec(img, ip, s + [Str(t)] + [Str(p)] + [Num(i)], regs, k + 1) ==
              Exec(img, ip + 1, s + [Num(if img.externals.regex(i, p, t) then 1 else 0)], regs, k)
    ensures img.code[ip] == 203 && OfArray in o.flags && o.payload.Items? ==>
              Exec(img, ip, s + [Obj(o)] + [Num(i)], regs, k + 1) ==
              if i < |o.payload.items| then Exec(img, ip + 1, s + [o.payload.items[i]], regs, k) else Stop(26, 0, s, k)
  {
    PlainFetched(img, ip);
    DropsTwo(s, Obj(o), Num(i));
    var three := s + [Str(t)] + [Str(p)] + [Num(i)];
    assert Drop(three, 3) == s && three[|three| - 3] == Str(t) && three[|three| - 2] == Str(p) && Top(three) == Num(i);
    hide I.Fetch;
  }

  function Backwards(vs: seq<Value>): (r: seq<Value>)
    ensures |r| == |vs|
  {
    seq(|vs|, i requires 0 <= i < |vs| => vs[|vs| - 1 - i])
  }

  lemma CallByteRuns(img: Image, ip: nat, s: seq<Value>, args: seq<Value>, o: Object, regs: Registers, k: nat)
    requires ip < |img.code| && img.code[ip] == 201 && OfFunction in o.flags && |args| < 0x1_0000_0000 && |s| < 256
    ensures Exec(img, ip, s + Backwards(args) + [Num(|args|)] + [Obj(o)], regs, k + 1) ==
            match img.externals.call(o.entry, args)
            case Returned(v) => Exec(img, ip + 1, s + [v], regs, k)
            case Raised(e) => Stop(e, 0, s, k)
  {
    PlainFetched(img, ip);
    var t := s + Backwards(args);
    DropsTwo(t, Num(|args|), Obj(o));
    assert Popped(t, |args|) == args;
    var u := t + [Num(|args|)] + [Obj(o)];
    assert Drop(u, 2 + |args|) == s;
    hide I.Fetch, Popped;
  }

  /** Instructions whose operand is the offset of an interned string: 102 pushes it, 103 pushes the module of that name, 202 takes the field of that name. */
  lemma NameByteRuns(img: Image, ip: nat, s: seq<Value>, arg: word, name: string, o: Object, regs: Registers, k: nat)
    requires ip + 5 <= |img.code| && arg == OperandAt(img.code, ip) && GetString(img.strings, arg) == Some(name) && |s| < 256
    ensures img.code[ip] == 102 ==> Exec(img, ip, s, regs, k + 1) == Exec(img, ip + 5, s + [Str(name)], regs, k)
    ensures img.code[ip] == 103 ==>
              Exec(img, ip, s, regs, k + 1) ==
              if name in img.objects then Exec(img, ip + 5, s + [Obj(img.objects[name])], regs, k) else Stop(14, 0, s, k)
    ensures img.code[ip] == 202 && name in o.fields ==>
              Exec(img, ip, s + [Obj(o)], regs, k + 1) == Exec(img, ip + 5, s + [Obj(o.fields[name])], regs, k)
  {
    NameFetched(img, ip, arg, name);
    if img.code[ip] == 102 {
      Turns(img, ip, I.PushString(name), s, regs, k);
    } else if img.code[ip] == 103 {
      Turns(img, ip, I.PushModule(name), s, regs, k);
    } else if img.code[ip] == 202 && name in o.fields {
      TopIs(s, Obj(o));
      Turns(img, ip, I.GetField(name), s + [Obj(o)], regs, k);
    }
    hide I.Fetch, Exec;
  }

  lemma NameFetched(img: Image, ip: nat, arg: word, name: string)
    requires ip + 5 <= |img.code| && arg == OperandAt(img.code, ip) && GetString(img.strings, arg) == Some(name)
    ensures var f := I.Fetch(img.code, img.strings, ip);
            match img.code[ip]
            case 102 => f == I.Found(I.PushString(name))
            case 103 => f == I.Found(I.PushModule(name))
            case 200 => f == I.Found(I.RunRule(name))
            case 202 => f == I.Found(I.GetField(name))
            case _ => true
  {
    hide GetString;
    var b := img.code[ip + 1..ip + 5];
    assert b[0] == img.code[ip + 1] && b[1] == img.code[ip + 2] && b[2] == img.code[ip + 3] && b[3] == img.code[ip + 4];
  }

  /** 200 runs the first rule of that name with registers of its own, all zero, and pushes its verdict; an error is handed on. */
  lemma RuleByteRuns(img: Image, ip: nat, s: seq<Value>, arg: word, name: string, j: nat, regs: Registers, k: nat)
    requires ip + 5 <= |img.code| && img.code[ip] == 200 && arg == OperandAt(img.code, ip) && GetString(img.strings, arg) == Some(name)
    requires j < |img.rules| && GetString(img.strings, img.rules[j].nameOffset) == Some(name)
    requires forall i :: 0 <= i < j ==> GetString(img.strings, img.rules[i].nameOffset) != Some(name)
    ensures Exec(img, ip, s, regs, k + 1) ==
            match Exec(img, img.rules[j].codeOffset, s, Registers(Num(0), Num(0), Num(0), Num(0)), k)
            case Stop(e, x, t, left) =>
              if e != 0 then Stop(e, 0, t, left)
              else if |t| >= 256 then Stop(0, 24, t, left)
              else Exec(img, ip + 5, t + [Num(x)], regs, left)
            case other => other
  {
    NameFetched(img, ip, arg, name);
    FirstNamed(img.strings, img.rules, name, 0, j);
    hide I.Fetch, GetString, FindRuleFrom;
  }

  lemma {:induction false} FirstNamed(strings: StringTable, rules: seq<RuleEntry>, name: string, i: nat, j: nat)
    requires i <= j < |rules| && GetString(strings, rules[j].nameOffset) == Some(name)
    requires forall k :: i <= k < j ==> GetString(strings, rules[k].nameOffset) != Some(name)
    ensures FindRuleFrom(strings, rules, name, i) == Some(j)
    decreases j - i
  {
    hide GetString;
    if i < j {
      FirstNamed(strings, rules, name, i + 1, j);
    }
  }

  /** A push on a stack of 256 values ends the run: without an error, but with the result 24. */
  lemma FullByteRuns(img: Image, ip: nat, s: seq<Value>, regs: Registers, k: nat)
    requires ip + 5 <= |img.code| && img.code[ip] in [100, 101] && |s| == 256
    ensures Exec(img, ip, s, regs, k + 1) == Stop(0, 24, s, k)
  {
    OperandFetched(img, ip, OperandAt(img.code, ip));
    hide I.Fetch;
  }

  /** Bytes that are no opcode end the run with the error 27. */
  lemma UnknownByteRuns(img: Image, ip: nat, s: seq<Value>, regs: Registers, k: nat)
    requires ip < |img.code|
    requires var op := img.code[ip]; op == 0 || 28 < op < 100 || 113 < op < 200 || op == 204 || 207 < op < 254 || op == 255
    ensures Exec(img, ip, s, regs, k + 1) == Stop(27, 0, s, k)
  {
  }
}
