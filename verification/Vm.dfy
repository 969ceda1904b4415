/** The interpreter as the program writes it: a loop over a fixed stack, updated in place. */
module Vm {
  import opened Words
  import opened Machine
  import I = Instructions

  /** Whether the interpreter loop goes on after an instruction, or leaves with an error code and a result. */
  datatype Status = Continue | Leave(error: nat, result: word)

  class Interpreter {
    const image: Image
    const stack: array<Value>
    var sp: nat
    var ip: nat

    ghost predicate Valid()
      reads this
    {
      stack.Length == STACK_MAX && sp <= STACK_MAX
    }

    ghost function Contents(): seq<Value>
      reads this, stack
      requires Valid()
    {
      stack[..sp]
    }

    constructor (image: Image)
      ensures Valid() && this.image == image && fresh(stack) && Contents() == []
    {
      this.image := image;
      stack := new Value[STACK_MAX](_ => Num(0));
      sp, ip := 0, 0;
    }

    /** The `push` macro: fails without touching the stack when it is full. */
    method Push(v: Value) returns (ok: bool)
      requires Valid()
      modifies this`sp, stack
      ensures Valid() && ok == (old(sp) < STACK_MAX)
      ensures Contents() == if ok then old(Contents()) + [v] else old(Contents())
    {
      ok := sp < STACK_MAX;
      if ok {
        stack[sp] := v;
        sp := sp + 1;
      }
    }

    /** The `pop` macro, whose assertion is the precondition. */
    method Pop() returns (v: Value)
      requires Valid() && Contents() != []
      modifies this`sp
      ensures Valid() && v == Top(old(Contents())) && Contents() == Drop(old(Contents()), 1)
    {
      sp := sp - 1;
      v := stack[sp];
    }

    /** Pops `n` arguments; the first one is on top. */
    method PopArguments(n: nat) returns (args: seq<Value>)
      requires Valid() && n <= |Contents()|
      modifies this`sp
      ensures Valid() && args == Popped(old(Contents()), n) && Contents() == Drop(old(Contents()), n)
    {
      args := [];
      for i := 0 to n
        invariant Valid() && args == Popped(old(Contents()), i) && Contents() == Drop(old(Contents()), i)
      {
        var v := Pop();
        args := args + [v];
      }
    }

    /** The loop status and the machine state are what the effect of an instruction says. */
    static ghost predicate Reflects(status: Status, ip: nat, s: seq<Value>, regs: Registers, e: Effect) {
      match e
      case Next(ip', s', regs') => status == Continue && ip == ip' && s == s' && regs == regs'
      case End(e, w, s') => status == Leave(e, w) && s == s'
      case _ => false
    }

    /** Pushes the result of a computation, or leaves with its error. */
    method Finish(c: Computed, ghost regs: Registers) returns (status: Status)
      requires Valid() && !c.Crash?
      modifies this`sp, stack
      ensures Valid() && Reflects(status, ip, Contents(), regs, PushComputed(ip, old(Contents()), c, regs))
    {
      match c
      case Ok(v) =>
        var ok := Push(v);
        status := if ok then Continue else Leave(0, ERROR_STACK_OVERFLOW);
      case Bad(e) => status := Leave(e, 0);
    }

    /** Instructions that replace the topmost value by a computed one. */
    method ComputeOne(i: I.Instr, ghost regs: Registers) returns (status: Status)
      requires Valid() && (i.Apply1? || i.Object? || i.GetField?) && !Step(image, i, ip, Contents(), regs).Dies?
      modifies this`sp, stack
      ensures Valid() && Reflects(status, ip, Contents(), regs, old(Step(image, i, ip, Contents(), regs)))
    {
      hide Apply1, Unwrap, FieldOf;
      var r1 := Pop();
      var c;
      if i.Apply1? {
        c := Apply1(i.op1, r1);
      } else if i.Object? {
        c := Unwrap(r1);
      } else {
        c := FieldOf(r1, i.text);
      }
      status := Finish(c, regs);
    }

    /** Instructions that replace two values by a computed one. */
    method ComputeTwo(i: I.Instr, ghost regs: Registers) returns (status: Status)
      requires Valid() && (i.Apply2? || i.Index?) && !Step(image, i, ip, Contents(), regs).Dies?
      modifies this`sp, stack
      ensures Valid() && Reflects(status, ip, Contents(), regs, old(Step(image, i, ip, Contents(), regs)))
    {
      hide Apply2, ItemOf;
      var r1 := Pop();
      var r2 := Pop();
      status := Finish(if i.Index? then ItemOf(r2, r1) else Apply2(i.op2, r2, r1), regs);
    }

    /** The regex match: flags, pattern and subject. */
    method ComputeMatch(ghost regs: Registers) returns (status: Status)
      requires Valid() && !Step(image, I.Matches, ip, Contents(), regs).Dies?
      modifies this`sp, stack
      ensures Valid() && Reflects(status, ip, Contents(), regs, old(Step(image, I.Matches, ip, Contents(), regs)))
    {
      hide ApplyMatches;
      var r1 := Pop();
      var r2 := Pop();
      var subject := Pop();
      status := Finish(ApplyMatches(image.externals, subject, r2, r1), regs);
    }

    /** The call instruction: callee, count, then the arguments. */
    method CallFunction(ghost regs: Registers) returns (status: Status)
      requires Valid() && !Step(image, I.Call, ip, Contents(), regs).Dies?
      modifies this`sp, stack
      ensures Valid() && Reflects(status, ip, Contents(), regs, old(Step(image, I.Call, ip, Contents(), regs)))
    {
      hide Invoke;
      var callee := Pop();
      var count := Pop();
      assert Contents() == Drop(old(Contents()), 2);
      var args := PopArguments(count.w);
      assert Contents() == Drop(old(Contents()), 2 + count.w);
      status := Finish(Invoke(image.externals, callee, args), regs);
    }

    /** Jumps and the halt instruction. */
    method Transfer(i: I.Instr, ghost regs: Registers) returns (status: Status)
      requires Valid() && (i.JFalse? || i.JTrue? || i.Jump? || i.Halt?)
      requires !Step(image, i, ip, Contents(), regs).Dies?
      modifies this`sp, this`ip, stack
      ensures Valid() && Reflects(status, ip, Contents(), regs, old(Step(image, i, ip, Contents(), regs)))
    {
      status := Continue;
      if i.Jump? {
        ip := i.target;
      } else {
        var r1 := Pop();
        if i.Halt? {
          status := Leave(0, r1.w);
        } else {
          var _ := Push(r1);
          if (r1.w != 0) == i.JTrue? {
            ip := i.target;
          }
        }
      }
    }

    /** Constants, and the traffic between the stack and the registers. */
    method Move(i: I.Instr, regs: Registers) returns (status: Status, regs': Registers)
      requires Valid() && (i.PushInt? || i.PushBool? || i.PushString? || i.PushModule? || i.Load? || i.Store? || i.Pop?)
      requires !Step(image, i, ip, Contents(), regs).Dies?
      modifies this`sp, stack
      ensures Valid() && Reflects(status, ip, Contents(), regs', old(Step(image, i, ip, Contents(), regs)))
    {
      hide ModuleOf;
      regs', status := regs, Continue;
      match i
      case PushInt(w) => status := Finish(Ok(Num(w)), regs);
      case PushBool(w) => status := Finish(Ok(Num(w)), regs);
      case PushString(t) => status := Finish(Ok(Str(t)), regs);
      case PushModule(t) => status := Finish(ModuleOf(image.objects, t), regs);
      case Load(k) => status := Finish(GetRegister(regs, k), regs);
      case Store(k) =>
        var r1 := Pop();
        regs' := SetRegister(regs, k, r1);
      case Pop =>
        var _ := Pop();
    }

    /** One turn of the interpreter's switch, for every instruction but the rule call. */
    method Perform(i: I.Instr, regs: Registers) returns (status: Status, regs': Registers)
      requires Valid() && !i.RunRule? && !Step(image, i, ip, Contents(), regs).Dies?
      modifies this`sp, this`ip, stack
      ensures Valid() && Reflects(status, ip, Contents(), regs', old(Step(image, i, ip, Contents(), regs)))
    {
      hide Step;
      regs' := regs;
      if i.Apply1? || i.Object? || i.GetField? {
        status := ComputeOne(i, regs);
      } else if i.Apply2? || i.Index? {
        status := ComputeTwo(i, regs);
      } else if i.Matches? {
        status := ComputeMatch(regs);
      } else if i.Call? {
        status := CallFunction(regs);
      } else if i.JFalse? || i.JTrue? || i.Jump? || i.Halt? {
        status := Transfer(i, regs);
      } else {
        status, regs' := Move(i, regs);
      }
    }

    /**
     * `ac_vm_exec_code`: runs the code at `code` until the loop is left.  It is called only where the
     * reference semantics ends within some fuel without a fault; that is its precondition, and its
     * results and the stack it leaves are those of the reference semantics.
     */
    method ExecCode(code: nat, ghost fuel: nat) returns (error: nat, result: word, ghost left: nat)
      requires Valid() && Exec(image, code, Contents(), ZERO, fuel).Stop?
      modifies this`sp, this`ip, stack
      ensures Valid()
      ensures old(Exec(image, code, Contents(), ZERO, fuel)) == Stop(error, result, Contents(), left)
      decreases fuel, 2
    {
      ghost var final := Exec(image, code, Contents(), ZERO, fuel);
      var regs, stop := ZERO, false;
      error, result, left, ip := 0, 0, fuel, code;
      while !stop
        invariant Valid()
        invariant !stop ==> left <= fuel && Exec(image, ip, Contents(), regs, left) == final
        invariant stop ==> final == Stop(error, result, Contents(), left)
        decreases if stop then 0 else left + 1
      {
        stop, error, result, regs, left := Turn(regs, left);
      }
    }

    /** One iteration of the interpreter loop. */
    method Turn(regs: Registers, ghost fuel: nat)
      returns (stop: bool, error: nat, result: word, regs': Registers, ghost left: nat)
      requires Valid() && Exec(image, ip, Contents(), regs, fuel).Stop?
      modifies this`sp, this`ip, stack
      ensures Valid()
      ensures left < fuel
      ensures !stop ==> Exec(image, ip, Contents(), regs', left) == old(Exec(image, ip, Contents(), regs, fuel))
      ensures stop ==> old(Exec(image, ip, Contents(), regs, fuel)) == Stop(error, result, Contents(), left)
      decreases fuel, 1
    {
      hide Step, NestedOutcome, Exec;
      TurnUnfolds(image, ip, Contents(), regs, fuel);
      stop, error, result, regs', left := false, 0, 0, regs, fuel - 1;
      match I.Fetch(image.code, image.strings, ip)
      case Unknown =>
        stop, error := true, ERROR_OPERATION;
      case Found(i) =>
        ip := ip + I.Width(i);
        if i.RunRule? {
          NestedUnfolds(image, old(ip), i.text, Contents(), regs, fuel);
          stop, error, result, left := RunNested(i.text, regs, fuel - 1);
        } else {
          var status;
          StepUnfolds(image, old(ip), i, Contents(), regs, fuel);
          status, regs' := Perform(i, regs);
          if status.Leave? {
            stop, error, result := true, status.error, status.result;
          }
        }
    }

    /** The rule call: a nested activation with registers of its own, then its verdict is pushed. */
    method RunNested(name: string, regs: Registers, ghost fuel: nat)
      returns (stop: bool, error: nat, result: word, ghost left: nat)
      requires Valid() && FindRule(image, name).Some?
      requires NestedOutcome(image, ip, FindRule(image, name).value, Contents(), regs, fuel).Stop?
      modifies this`sp, this`ip, stack
      ensures Valid()
      ensures left <= fuel
      ensures var o := old(NestedOutcome(image, ip, FindRule(image, name).value, Contents(), regs, fuel));
              if stop then o == Stop(error, result, Contents(), left) else o == Exec(image, ip, Contents(), regs, left)
      decreases fuel, 3
    {
      var j := FindRule(image, name).value;
      var ret := ip;
      error, result, left := ExecCode(image.rules[j].codeOffset, fuel);
      ip := ret;
      stop := error != 0;
      if stop {
        result := 0;
      } else {
        var ok := Push(Num(result));
        if !ok {
          stop, result := true, ERROR_STACK_OVERFLOW;
        }
      }
    }
  }

  /** What `Exec` does once it has met a call of rule `j` whose return address is `next`. */
  function NestedOutcome(img: Image, next: nat, j: nat, s: seq<Value>, regs: Registers, fuel: nat): Outcome
    requires j < |img.rules|
  {
    match Exec(img, img.rules[j].codeOffset, s, ZERO, fuel)
    case Stop(e, w, s', fuel') =>
      if e != 0 then Stop(e, 0, s', fuel')
      else if |s'| >= STACK_MAX then Stop(0, ERROR_STACK_OVERFLOW, s', fuel')
      else Exec(img, next, s' + [Num(w)], regs, fuel')
    case other => other
  }

  lemma TurnUnfolds(img: Image, ip: nat, s: seq<Value>, regs: Registers, fuel: nat)
    requires Exec(img, ip, s, regs, fuel).Stop?
    ensures fuel > 0
    ensures match I.Fetch(img.code, img.strings, ip)
            case Unknown => Exec(img, ip, s, regs, fuel) == Stop(ERROR_OPERATION, 0, s, fuel - 1)
            case Found(_) => true
            case _ => false
  {
  }

  lemma StepUnfolds(img: Image, ip: nat, i: I.Instr, s: seq<Value>, regs: Registers, fuel: nat)
    requires I.Fetch(img.code, img.strings, ip) == I.Found(i) && !i.RunRule? && Exec(img, ip, s, regs, fuel).Stop?
    ensures fuel > 0
    ensures match Step(img, i, ip + I.Width(i), s, regs)
            case Next(ip', s', regs') => Exec(img, ip, s, regs, fuel) == Exec(img, ip', s', regs', fuel - 1)
            case End(e, w, s') => Exec(img, ip, s, regs, fuel) == Stop(e, w, s', fuel - 1)
            case _ => false
  {
  }

  lemma NestedUnfolds(img: Image, ip: nat, name: string, s: seq<Value>, regs: Registers, fuel: nat)
    requires I.Fetch(img.code, img.strings, ip) == I.Found(I.RunRule(name)) && Exec(img, ip, s, regs, fuel).Stop?
    ensures fuel > 0 && FindRule(img, name).Some?
    ensures Exec(img, ip, s, regs, fuel) == NestedOutcome(img, ip + 5, FindRule(img, name).value, s, regs, fuel - 1)
  {
  }
}
