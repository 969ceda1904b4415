/**
 * The stack machine: its values, the compiled image it runs and a reference semantics `Exec` of
 * `ac_vm_exec_code`.  The fuel of `Exec` counts instructions; what is left over is returned, so
 * that nested rule calls draw on the same supply.
 */
module Machine {
  import opened Words
  import opened Wrappers
  import opened CStrings
  import opened Ast
  import I = Instructions

  const STACK_MAX := 256

  type ErrorCode = e: nat | e != 0 witness 1

  const ERROR_MODULE: ErrorCode := 14
  const ERROR_STACK_OVERFLOW: ErrorCode := 24
  const ERROR_BAD_OPERAND: ErrorCode := 25
  const ERROR_INDEX: ErrorCode := 26
  const ERROR_OPERATION: ErrorCode := 27

  /** A stack slot.  Integers and Booleans share one 32-bit union member. */
  datatype Value = Num(w: word) | Str(s: string) | Obj(o: Object)

  /** A context object: a module, a field of one, or an element of an array of structs. */
  datatype Object = Object(flags: set<Flag>, fields: map<string, Object>, payload: Payload, entry: nat)

  datatype Payload = Scalar(value: Value) | Items(items: seq<Value>)

  datatype CallResult = Returned(result: Value) | Raised(error: ErrorCode)

  /** What the machine calls into: the regex engine and the functions of the modules. */
  datatype Externals = Externals(regex: (word, string, string) -> bool, call: (nat, seq<Value>) -> CallResult)

  /** An entry of the rule table; `ordinal` numbers the module whose events the rule is for, 0 being none. */
  datatype RuleEntry = RuleEntry(codeOffset: nat, nameOffset: word, ordinal: nat, isPrivate: bool, inSequence: bool)

  datatype Image = Image(
    code: seq<byte>,
    strings: StringTable,
    rules: seq<RuleEntry>,
    objects: map<string, Object>,
    externals: Externals)

  datatype Registers = Registers(r0: Value, r1: Value, r2: Value, r3: Value)

  const ZERO := Registers(Num(0), Num(0), Num(0), Num(0))

  /**
   * What the C program does not survive: failed assertions, misread unions, undefined arithmetic.  The last
   * two are no faults of the machine, and only the evaluator knows them: an identifier that left no code, and
   * a loop on which it gave up.
   */
  datatype Reason = Underflow | WrongKind | FailedAssertion | UndefinedArithmetic | RunawayCode | NoCode | Endless

  datatype Outcome =
    | Stop(error: nat, result: word, stack: seq<Value>, fuel: nat)
    | Fault(reason: Reason)
    | OutOfFuel

  // ---------- single values ----------

  datatype Computed = Ok(value: Value) | Bad(error: ErrorCode) | Crash(reason: Reason)

  function NumericOp(o: I.Op2, left: word, right: word): Computed {
    match o
    case Add => Ok(Num(Wrap(left + right)))
    case Sub => Ok(Num(Wrap(left - right)))
    case Mul => Ok(Num(Wrap(left * right)))
    case Div => if right == 0 then Crash(UndefinedArithmetic) else Ok(Num(left / right))
    case Mod => if right == 0 then Crash(UndefinedArithmetic) else Ok(Num(left % right))
    case Shl =>
      if right > 32 then Bad(ERROR_BAD_OPERAND)
      else if right == 32 then Crash(UndefinedArithmetic) else Ok(Num(ShiftLeft(left, right)))
    case Shr =>
      if right > 32 then Bad(ERROR_BAD_OPERAND)
      else if right == 32 then Crash(UndefinedArithmetic) else Ok(Num(ShiftRight(left, right)))
    case And => Ok(Num(Words.BitAnd(left, right)))
    case Or => Ok(Num(Words.BitOr(left, right)))
    case Xor => Ok(Num(Words.BitXor(left, right)))
    case Gt => Ok(Num(AsWord(left > right)))
    case Lt => Ok(Num(AsWord(left < right)))
    case Gte => Ok(Num(AsWord(left >= right)))
    case Lte => Ok(Num(AsWord(left <= right)))
    case IntEq => Ok(Num(AsWord(left == right)))
    case BoolEq => Ok(Num(AsWord(left == right)))
    case IntNe => Ok(Num(AsWord(left != right)))
    case BoolNe => Ok(Num(AsWord(left != right)))
    case AndL => Ok(Num(AsWord(left != 0 && right != 0)))
    case OrL => Ok(Num(AsWord(left != 0 || right != 0)))
    case _ => Crash(WrongKind)
  }

  function StringOp(o: I.Op2, left: string, right: string): Computed {
    match o
    case StrEq => Ok(Num(AsWord(left == right)))
    case StrNe => Ok(Num(AsWord(left != right)))
    case Contains => Ok(Num(AsWord(Occurs(right, left))))
    case IContains => Ok(Num(AsWord(Occurs(Lower(right), Lower(left)))))
    case StartsWith => Ok(Num(AsWord(HasPrefix(left, right))))
    case IStartsWith => Ok(Num(AsWord(HasPrefix(Lower(left), Lower(right)))))
    case EndsWith => Ok(Num(AsWord(HasSuffix(left, right))))
    case IEndsWith => Ok(Num(AsWord(HasSuffix(Lower(left), Lower(right)))))
    case IEquals => Ok(Num(AsWord(Lower(left) == Lower(right))))
    case _ => Crash(WrongKind)
  }

  /** `left` is the value below `right` on the stack. */
  function Apply2(o: I.Op2, left: Value, right: Value): Computed {
    if left.Num? && right.Num? then NumericOp(o, left.w, right.w)
    else if left.Str? && right.Str? then StringOp(o, left.s, right.s)
    else Crash(WrongKind)
  }

  function Apply1(o: I.Op1, v: Value): Computed {
    match o
    case Not => if v.Num? then Ok(Num(Words.BitNot(v.w))) else Crash(WrongKind)
    case NotL => if v.Num? then Ok(Num(AsWord(v.w == 0))) else Crash(WrongKind)
    case Neg => if v.Num? then Ok(Num(Wrap(-(v.w as int)))) else Crash(WrongKind)
    case StrLen => if v.Str? then Ok(Num(Wrap(|v.s|))) else Crash(WrongKind)
  }

  function ApplyMatches(x: Externals, subject: Value, pattern: Value, flags: Value): Computed {
    if subject.Str? && pattern.Str? && flags.Num?
    then Ok(Num(AsWord(x.regex(flags.w, pattern.s, subject.s)))) else Crash(WrongKind)
  }

  function Unwrap(v: Value): Computed {
    if v.Obj? && v.o.payload.Scalar? then Ok(v.o.payload.value) else Crash(WrongKind)
  }

  function FieldOf(v: Value, name: string): Computed {
    if !v.Obj? then Crash(WrongKind)
    else if name in v.o.fields then Ok(Obj(v.o.fields[name])) else Crash(FailedAssertion)
  }

  function ItemOf(v: Value, i: Value): Computed {
    if !v.Obj? || !i.Num? then Crash(WrongKind)
    else if OfArray !in v.o.flags then Bad(ERROR_INDEX)
    else if !v.o.payload.Items? then Crash(WrongKind)
    else if i.w >= |v.o.payload.items| then Bad(ERROR_INDEX)
    else Ok(v.o.payload.items[i.w])
  }

  function Invoke(x: Externals, callee: Value, arguments: seq<Value>): Computed {
    if !callee.Obj? then Crash(WrongKind)
    else if OfFunction !in callee.o.flags then Crash(FailedAssertion)
    else match x.call(callee.o.entry, arguments)
      case Returned(v) => Ok(v)
      case Raised(e) => Bad(e)
  }

  function ModuleOf(objects: map<string, Object>, name: string): Computed {
    if name in objects then Ok(Obj(objects[name])) else Bad(ERROR_MODULE)
  }

  function GetRegister(regs: Registers, k: word): Computed {
    match k
    case 0 => Ok(regs.r0) case 1 => Ok(regs.r1) case 2 => Ok(regs.r2) case 3 => Ok(regs.r3)
    case _ => Crash(FailedAssertion)
  }

  function SetRegister(regs: Registers, k: word, v: Value): Registers
    requires k < 4
  {
    match k
    case 0 => regs.(r0 := v) case 1 => regs.(r1 := v) case 2 => regs.(r2 := v) case _ => regs.(r3 := v)
  }

  /** `__ac_compiler_find_rule_idx_by_name`: the first entry with this name. */
  function FindRule(img: Image, name: string): Option<nat> {
    FindRuleFrom(img.strings, img.rules, name, 0)
  }

  function FindRuleFrom(strings: StringTable, rules: seq<RuleEntry>, name: string, i: nat): (r: Option<nat>)
    ensures r.Some? ==> i <= r.value < |rules|
    decreases |rules| - i
  {
    if i >= |rules| then None
    else if GetString(strings, rules[i].nameOffset) == Some(name) then Some(i)
    else FindRuleFrom(strings, rules, name, i + 1)
  }

  // ---------- one instruction ----------

  /** What an instruction does: continue, run another rule first, end the activation, or not survive. */
  datatype Effect =
    | Next(ip: nat, stack: seq<Value>, regs: Registers)
    | Run(rule: nat)
    | End(error: nat, result: word, left: seq<Value>)
    | Dies(reason: Reason)

  /** `push`, with its overflow exit: the activation ends without an error but with a non-zero result. */
  function Push(ip: nat, stack: seq<Value>, v: Value, regs: Registers): Effect {
    if |stack| >= STACK_MAX then End(0, ERROR_STACK_OVERFLOW, stack) else Next(ip, stack + [v], regs)
  }

  function PushComputed(ip: nat, stack: seq<Value>, c: Computed, regs: Registers): Effect {
    match c
    case Ok(v) => Push(ip, stack, v, regs)
    case Bad(e) => End(e, 0, stack)
    case Crash(r) => Dies(r)
  }

  /** `below + [top]` */
  function Top(s: seq<Value>): Value
    requires s != []
  {
    s[|s| - 1]
  }

  function Drop(s: seq<Value>, n: nat): seq<Value>
    requires n <= |s|
  {
    s[..|s| - n]
  }

  function Branch(next: nat, target: nat, taken: bool, stack: seq<Value>, regs: Registers): Effect {
    Next(if taken then target else next, stack, regs)
  }

  /** The top `n` values, topmost first. */
  function Popped(s: seq<Value>, n: nat): (r: seq<Value>)
    requires n <= |s|
    ensures |r| == n
  {
    seq(n, i requires 0 <= i < n => s[|s| - 1 - i])
  }

  function StepCall(img: Image, next: nat, s: seq<Value>, regs: Registers): Effect {
    if |s| < 2 then Dies(Underflow)
    else if !s[|s| - 2].Num? then Dies(WrongKind)
    else
      var n := s[|s| - 2].w;
      if |s| - 2 < n then Dies(Underflow)
      else PushComputed(next, Drop(s, 2 + n), Invoke(img.externals, Top(s), Popped(Drop(s, 2), n)), regs)
  }

  function Step(img: Image, i: I.Instr, next: nat, s: seq<Value>, regs: Registers): Effect {
    match i
    case Halt =>
      if s == [] then Dies(Underflow) else if !Top(s).Num? then Dies(WrongKind)
      else End(0, Top(s).w, Drop(s, 1))
    case Apply2(o) =>
      if |s| < 2 then Dies(Underflow)
      else PushComputed(next, Drop(s, 2), Apply2(o, s[|s| - 2], Top(s)), regs)
    case Apply1(o) =>
      if s == [] then Dies(Underflow) else PushComputed(next, Drop(s, 1), Apply1(o, Top(s)), regs)
    case Matches =>
      if |s| < 3 then Dies(Underflow)
      else PushComputed(next, Drop(s, 3), ApplyMatches(img.externals, s[|s| - 3], s[|s| - 2], Top(s)), regs)
    case Object =>
      if s == [] then Dies(Underflow) else PushComputed(next, Drop(s, 1), Unwrap(Top(s)), regs)
    case Call => StepCall(img, next, s, regs)
    case Index =>
      if |s| < 2 then Dies(Underflow)
      else PushComputed(next, Drop(s, 2), ItemOf(s[|s| - 2], Top(s)), regs)
    case Pop => if s == [] then Dies(Underflow) else Next(next, Drop(s, 1), regs)
    case JFalse(t) =>
      if s == [] then Dies(Underflow) else if !Top(s).Num? then Dies(WrongKind)
      else Branch(next, t, Top(s).w == 0, s, regs)
    case JTrue(t) =>
      if s == [] then Dies(Underflow) else if !Top(s).Num? then Dies(WrongKind)
      else Branch(next, t, Top(s).w != 0, s, regs)
    case Jump(t) => Next(t, s, regs)
    case PushInt(w) => Push(next, s, Num(w), regs)
    case PushBool(w) => Push(next, s, Num(w), regs)
    case PushString(t) => Push(next, s, Str(t), regs)
    case PushModule(t) => PushComputed(next, s, ModuleOf(img.objects, t), regs)
    case RunRule(t) =>
      if FindRule(img, t).None? then Dies(FailedAssertion) else Run(FindRule(img, t).value)
    case GetField(t) =>
      if s == [] then Dies(Underflow)
      else PushComputed(next, Drop(s, 1), FieldOf(Top(s), t), regs)
    case Load(k) => PushComputed(next, s, GetRegister(regs, k), regs)
    case Store(k) =>
      if s == [] then Dies(Underflow)
      else if k >= 4 then Dies(FailedAssertion)
      else Next(next, Drop(s, 1), SetRegister(regs, k, Top(s)))
  }

  // ---------- running ----------

  function Exec(img: Image, ip: nat, s: seq<Value>, regs: Registers, fuel: nat): (r: Outcome)
    ensures r.Stop? ==> r.fuel < fuel
    decreases fuel
  {
    if fuel == 0 then OutOfFuel
    else match I.Fetch(img.code, img.strings, ip)
      case OutOfCode => Fault(RunawayCode)
      case DanglingString => Fault(FailedAssertion)
      case Unknown => Stop(ERROR_OPERATION, 0, s, fuel - 1)
      case Found(i) =>
        match Step(img, i, ip + I.Width(i), s, regs)
        case Next(ip', s', regs') => Exec(img, ip', s', regs', fuel - 1)
        case End(e, w, s') => Stop(e, w, s', fuel - 1)
        case Dies(reason) => Fault(reason)
        case Run(j) => if j < |img.rules| then
            match Exec(img, img.rules[j].codeOffset, s, ZERO, fuel - 1)
            case Stop(e, w, s', fuel') =>
              if e != 0 then Stop(e, 0, s', fuel')
              else if |s'| >= STACK_MAX then Stop(0, ERROR_STACK_OVERFLOW, s', fuel')
              else Exec(img, ip + I.Width(i), s' + [Num(w)], regs, fuel')
            case other => other
          else Fault(FailedAssertion)
  }
}
