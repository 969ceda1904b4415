/**
 * The instruction set of the stack machine and its byte encoding.  Instructions that refer to an
 * interned string are shown with the string; their operand is its offset in the data section.
 */
module Instructions {
  import opened Words
  import opened Wrappers
  import opened CStrings

  /** Instructions that pop two values and push one. */
  datatype Op2 =
    | Add | Sub | Mul | Div | Mod | Shl | Shr | And | Or | Xor
    | Gt | Lt | Gte | Lte
    | IntEq | StrEq | BoolEq | IntNe | StrNe | BoolNe
    | AndL | OrL
    | Contains | IContains | StartsWith | IStartsWith | EndsWith | IEndsWith | IEquals

  /** Instructions that pop one value and push one. */
  datatype Op1 = Not | NotL | Neg | StrLen

  datatype Instr =
    | Halt
    | Apply2(op2: Op2)
    | Apply1(op1: Op1)
    | Matches
    | Object
    | Call
    | Index
    | Pop
    | JFalse(target: word)
    | JTrue(target: word)
    | Jump(target: word)
    | PushInt(literal: word)
    | PushBool(literal: word)
    | PushString(text: string)
    | PushModule(text: string)
    | RunRule(text: string)
    | GetField(text: string)
    | Load(register: word)
    | Store(register: word)

  function Opcode2(o: Op2): byte {
    match o
    case Add => 1 case Sub => 2 case Mul => 3 case Div => 4 case Mod => 5
    case Shl => 6 case Shr => 7 case And => 8 case Or => 9 case Xor => 10
    case Gt => 12 case Lt => 13 case Gte => 14 case Lte => 15
    case IntEq => 16 case StrEq => 17 case BoolEq => 18
    case IntNe => 19 case StrNe => 20 case BoolNe => 21
    case AndL => 22 case OrL => 23
    case Contains => 105 case IContains => 106
    case StartsWith => 107 case IStartsWith => 108
    case EndsWith => 109 case IEndsWith => 110 case IEquals => 111
  }

  function Opcode1(o: Op1): byte {
    match o
    case Not => 11 case NotL => 24 case Neg => 25 case StrLen => 113
  }

  function Opcode(i: Instr): byte {
    match i
    case Halt => 254
    case Apply2(o) => Opcode2(o)
    case Apply1(o) => Opcode1(o)
    case Matches => 112
    case Object => 104
    case Call => 201
    case Index => 203
    case Pop => 205
    case JFalse(_) => 26
    case JTrue(_) => 27
    case Jump(_) => 28
    case PushInt(_) => 100
    case PushBool(_) => 101
    case PushString(_) => 102
    case PushModule(_) => 103
    case RunRule(_) => 200
    case GetField(_) => 202
    case Load(_) => 206
    case Store(_) => 207
  }

  type Offsets = map<string, word>

  function OffsetOf(offsets: Offsets, s: string): word {
    if s in offsets then offsets[s] else 0
  }

  predicate IsWide(i: Instr) {
    i.JFalse? || i.JTrue? || i.Jump? || i.PushInt? || i.PushBool? || Refers(i) || i.Load? || i.Store?
  }

  predicate Refers(i: Instr) {
    i.PushString? || i.PushModule? || i.RunRule? || i.GetField?
  }

  /** The 32-bit operand that follows the opcode of a wide instruction. */
  function Operand(i: Instr, offsets: Offsets): word
    requires IsWide(i)
  {
    if Refers(i) then OffsetOf(offsets, i.text)
    else if i.JFalse? || i.JTrue? || i.Jump? then i.target
    else if i.PushInt? || i.PushBool? then i.literal
    else i.register
  }

  function Width(i: Instr): nat {
    if IsWide(i) then 5 else 1
  }

  function Encode(i: Instr, offsets: Offsets): (b: seq<byte>)
    ensures |b| == Width(i)
  {
    if IsWide(i) then [Opcode(i)] + LittleEndian(Operand(i, offsets)) else [Opcode(i)]
  }

  function DecodePlain(op: byte): Option<Instr> {
    match op
    case 254 => Some(Halt)
    case 1 => Some(Apply2(Add)) case 2 => Some(Apply2(Sub)) case 3 => Some(Apply2(Mul))
    case 4 => Some(Apply2(Div)) case 5 => Some(Apply2(Mod))
    case 6 => Some(Apply2(Shl)) case 7 => Some(Apply2(Shr))
    case 8 => Some(Apply2(And)) case 9 => Some(Apply2(Or)) case 10 => Some(Apply2(Xor))
    case 11 => Some(Apply1(Not))
    case 12 => Some(Apply2(Gt)) case 13 => Some(Apply2(Lt))
    case 14 => Some(Apply2(Gte)) case 15 => Some(Apply2(Lte))
    case 16 => Some(Apply2(IntEq)) case 17 => Some(Apply2(StrEq)) case 18 => Some(Apply2(BoolEq))
    case 19 => Some(Apply2(IntNe)) case 20 => Some(Apply2(StrNe)) case 21 => Some(Apply2(BoolNe))
    case 22 => Some(Apply2(AndL)) case 23 => Some(Apply2(OrL))
    case 24 => Some(Apply1(NotL)) case 25 => Some(Apply1(Neg))
    case 104 => Some(Object)
    case 105 => Some(Apply2(Contains)) case 106 => Some(Apply2(IContains))
    case 107 => Some(Apply2(StartsWith)) case 108 => Some(Apply2(IStartsWith))
    case 109 => Some(Apply2(EndsWith)) case 110 => Some(Apply2(IEndsWith))
    case 111 => Some(Apply2(IEquals)) case 112 => Some(Matches)
    case 113 => Some(Apply1(StrLen))
    case 201 => Some(Call) case 203 => Some(Index) case 205 => Some(Pop)
    case _ => None
  }

  predicate IsWideOpcode(op: byte) {
    op == 26 || op == 27 || op == 28 || 100 <= op <= 103 || op == 200 || op == 202 || op == 206 || op == 207
  }

  /** `s` is the interned string at offset `arg`, if there is one. */
  function DecodeWide(op: byte, arg: word, s: Option<string>): Option<Instr>
    requires IsWideOpcode(op)
  {
    match op
    case 26 => Some(JFalse(arg))
    case 27 => Some(JTrue(arg))
    case 28 => Some(Jump(arg))
    case 100 => Some(PushInt(arg))
    case 101 => Some(PushBool(arg))
    case 206 => Some(Load(arg))
    case 207 => Some(Store(arg))
    case _ =>
      if s.None? then None
      else if op == 102 then Some(PushString(s.value))
      else if op == 103 then Some(PushModule(s.value))
      else if op == 200 then Some(RunRule(s.value))
      else Some(GetField(s.value))
  }

  /**
   * What the interpreter finds at `ip`: an instruction, one whose operand is not the offset of an
   * interned string, an unknown opcode, or the end of the buffer.
   */
  datatype Fetched = Found(instr: Instr) | DanglingString | Unknown | OutOfCode

  function Fetch(code: seq<byte>, strings: StringTable, ip: nat): Fetched {
    if ip >= |code| then OutOfCode
    else if IsWideOpcode(code[ip]) then
      if ip + 5 > |code| then OutOfCode
      else
        var arg := FromLittleEndian(code[ip + 1..ip + 5]);
        var i := DecodeWide(code[ip], arg, GetString(strings, arg));
        if i.Some? then Found(i.value) else DanglingString
    else if DecodePlain(code[ip]).Some? then Found(DecodePlain(code[ip]).value)
    else Unknown
  }

  /** The bytes of `fragment` sit at address `b` of `code`. */
  predicate Placed(code: seq<byte>, b: nat, fragment: seq<byte>) {
    b + |fragment| <= |code| && code[b..b + |fragment|] == fragment
  }

  lemma PlacedAppend(code: seq<byte>, b: nat, x: seq<byte>, y: seq<byte>)
    ensures Placed(code, b, x + y) <==> Placed(code, b, x) && Placed(code, b + |x|, y)
  {
    if b + |x + y| <= |code| {
      assert code[b..b + |x + y|] == code[b..b + |x|] + code[b + |x|..b + |x| + |y|];
      assert (x + y)[..|x|] == x && (x + y)[|x|..] == y;
      if Placed(code, b, x + y) {
        assert code[b..b + |x + y|][..|x|] == code[b..b + |x|];
        assert code[b..b + |x + y|][|x|..] == code[b + |x|..b + |x| + |y|];
      }
    }
  }

  lemma DecodePlainOpcode(i: Instr)
    requires !IsWide(i)
    ensures !IsWideOpcode(Opcode(i)) && DecodePlain(Opcode(i)) == Some(i)
  {
    match i
    case Apply2(o) => { match o case _ => {} }
    case Apply1(o) => { match o case _ => {} }
    case _ =>
  }

  predicate Interned(i: Instr, t: StringTable) {
    Refers(i) ==> i.text in t.offsets
  }

  lemma DecodeWideOpcode(i: Instr, t: StringTable)
    requires IsWide(i) && ValidTable(t) && Interned(i, t)
    ensures IsWideOpcode(Opcode(i))
    ensures var arg := Operand(i, t.offsets); DecodeWide(Opcode(i), arg, GetString(t, arg)) == Some(i)
  {
    if Refers(i) {
      GetInterned(t, i.text);
    }
  }

  /** Fetching inverts encoding, wherever the instruction was placed. */
  lemma FetchEncoded(code: seq<byte>, b: nat, i: Instr, t: StringTable)
    requires ValidTable(t) && Interned(i, t)
    requires Placed(code, b, Encode(i, t.offsets))
    ensures Fetch(code, t, b) == Found(i)
  {
    assert code[b] == code[b..b + Width(i)][0] == Opcode(i);
    if IsWide(i) {
      var arg := Operand(i, t.offsets);
      assert code[b + 1..b + 5] == code[b..b + 5][1..] == LittleEndian(arg);
      LittleEndianInverse(arg);
      DecodeWideOpcode(i, t);
    } else {
      DecodePlainOpcode(i);
    }
  }

  // ---------- listings ----------

  /** The number of bytes a list of instructions occupies. */
  function Size(listing: seq<Instr>): nat {
    if listing == [] then 0 else Width(listing[0]) + Size(listing[1..])
  }

  function Assemble(listing: seq<Instr>, offsets: Offsets): (b: seq<byte>)
    ensures |b| == Size(listing)
  {
    if listing == [] then [] else Encode(listing[0], offsets) + Assemble(listing[1..], offsets)
  }

  /** Decoding `code` from address `b` on yields exactly `listing`. */
  predicate Listed(code: seq<byte>, t: StringTable, b: nat, listing: seq<Instr>)
    decreases |listing|
  {
    listing == [] ||
    (Fetch(code, t, b) == Found(listing[0]) && Listed(code, t, b + Width(listing[0]), listing[1..]))
  }

  ghost predicate AllInterned(listing: seq<Instr>, t: StringTable) {
    forall i <- listing :: Interned(i, t)
  }

  lemma {:induction false} SizeAppend(x: seq<Instr>, y: seq<Instr>)
    ensures Size(x + y) == Size(x) + Size(y)
  {
    if x == [] {
      assert x + y == y;
    } else {
      assert (x + y)[1..] == x[1..] + y;
      SizeAppend(x[1..], y);
    }
  }

  lemma {:induction false} AssembleAppend(x: seq<Instr>, y: seq<Instr>, offsets: Offsets)
    ensures Assemble(x + y, offsets) == Assemble(x, offsets) + Assemble(y, offsets)
  {
    if x == [] {
      assert x + y == y;
    } else {
      assert (x + y)[1..] == x[1..] + y;
      AssembleAppend(x[1..], y, offsets);
    }
  }

  lemma {:induction false} ListedAppend(code: seq<byte>, t: StringTable, b: nat, x: seq<Instr>, y: seq<Instr>)
    ensures Listed(code, t, b, x + y) <==> Listed(code, t, b, x) && Listed(code, t, b + Size(x), y)
    decreases |x|
  {
    if x == [] {
      assert x + y == y;
    } else {
      assert (x + y)[1..] == x[1..] + y;
      ListedAppend(code, t, b + Width(x[0]), x[1..], y);
    }
  }

  /** Assembled instructions decode to themselves. */
  lemma {:induction false} AssembledListed(code: seq<byte>, t: StringTable, b: nat, listing: seq<Instr>)
    requires ValidTable(t) && AllInterned(listing, t)
    requires Placed(code, b, Assemble(listing, t.offsets))
    ensures Listed(code, t, b, listing)
    decreases |listing|
  {
    if listing == [] {
    } else {
      PlacedAppend(code, b, Encode(listing[0], t.offsets), Assemble(listing[1..], t.offsets));
      FetchEncoded(code, b, listing[0], t);
      AssembledListed(code, t, b + Width(listing[0]), listing[1..]);
    }
  }

  /** Later interning keeps existing offsets, so it does not change the bytes of earlier code. */
  lemma {:induction false} AssembleStable(listing: seq<Instr>, t: StringTable, t': StringTable)
    requires AllInterned(listing, t)
    requires t.offsets.Keys <= t'.offsets.Keys && forall s <- t.offsets :: t'.offsets[s] == t.offsets[s]
    ensures Assemble(listing, t.offsets) == Assemble(listing, t'.offsets)
  {
    if listing == [] {
    } else {
      assert Interned(listing[0], t);
      AssembleStable(listing[1..], t, t');
    }
  }
}
