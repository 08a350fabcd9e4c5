/** The stack machine (dlvm/src/lib.rs): one instruction as a function, and the object that runs them. */
module VirtualMachine {
  import opened Prelude
  import opened Bytecode

  /** The mutable state of a `Vm`, and everything it has printed. */
  datatype Machine = Machine(ip: nat, fn: nat, stack: seq<Value>, calls: seq<(nat, nat)>, running: bool, out: seq<Output>)

  datatype Outcome = Go(m: Machine) | Fail(err: VmError, out: seq<Output>)

  /** What `run` gives back; `OutOfFuel` stands for a run the step budget cut off. */
  datatype RunResult = Finished(value: Value, out: seq<Output>) | Failed(err: VmError, out: seq<Output>) | OutOfFuel

  function Push(m: Machine, v: Value): Machine {
    m.(stack := m.stack + [v])
  }

  function Drop(m: Machine, n: nat): Machine
    requires n <= |m.stack|
  {
    m.(stack := m.stack[..|m.stack| - n])
  }

  function Top(m: Machine, depth: nat): Value
    requires depth < |m.stack|
  {
    m.stack[|m.stack| - 1 - depth]
  }

  /** Pops `n` operands and pushes a result, or fails. */
  function Replace(m: Machine, n: nat, r: Result<Value, VmError>): Outcome
    requires n <= |m.stack|
  {
    match r
    case Ok(v) => Go(Push(Drop(m, n), v))
    case Err(e) => Fail(e, m.out)
  }

  /** A backward jump negates its i16 offset first, and -(-32768) is out of range: a debug build panics,
      a release build takes the huge distance and saturates at 0. */
  function Jumped(m: Machine, offset: i16, p: Profile): Outcome {
    if offset >= 0 then Go(m.(ip := m.ip + offset))
    else if offset == -TWO_15 then (if p.Debug? then Fail(Panic, m.out) else Go(m.(ip := 0)))
    else Go(m.(ip := if m.ip + offset >= 0 then m.ip + offset else 0))
  }

  /** `find_fn_by_ip(..).unwrap_or(0)`: the function a position falls in when all code is laid end to end. */
  function FunctionAt(fs: seq<BytecodeFunction>, ip: nat): nat {
    Locate(fs, ip, 0, 0)
  }

  function Locate(fs: seq<BytecodeFunction>, ip: nat, i: nat, offset: nat): (f: nat)
    requires i <= |fs|
    ensures f < |fs| || f == 0
    decreases |fs| - i
  {
    if i == |fs| then 0
    else if offset <= ip < offset + |fs[i].code| then i
    else Locate(fs, ip, i + 1, offset + |fs[i].code|)
  }

  /** One instruction, fetched already: `m.ip` is past it. */
  function Exec(op: Opcode, fs: seq<BytecodeFunction>, p: Profile, m: Machine): Outcome
    requires m.fn < |fs|
  {
    match op
    case LoadInt(n) => Go(Push(m, VInt(n)))
    case LoadStr(idx) =>
      Go(Push(m, VStr(if idx < |fs[m.fn].constants| then fs[m.fn].constants[idx] else "")))
    case LoadBool(b) => Go(Push(m, VBool(b)))
    case LoadNone => Go(Push(m, VNone))
    case OpNeg => if |m.stack| < 1 then Fail(StackUnderflow, m.out) else Replace(m, 1, Negated(Top(m, 0), p))
    case Jmp(offset) => Jumped(m, offset, p)
    case JmpIf(offset) =>
      if |m.stack| < 1 then Fail(StackUnderflow, m.out)
      else if Truthy(Top(m, 0)) then Jumped(Drop(m, 1), offset, p) else Go(Drop(m, 1))
    case JmpIfNot(offset) =>
      if |m.stack| < 1 then Fail(StackUnderflow, m.out)
      else if Truthy(Top(m, 0)) then Go(Drop(m, 1)) else Jumped(Drop(m, 1), offset, p)
    case Halt => Go(m.(running := false))
    case CallFn(argc) =>
      Go(m.(calls := m.calls + [(m.ip, if argc <= |m.stack| then |m.stack| - argc else 0)]))
    case OpReturn => Returned(fs, m)
    case MakeArray(len) =>
      if |m.stack| < len then Fail(StackUnderflow, m.out)
      else Go(Push(Drop(m, len), VArray(m.stack[|m.stack| - len..])))
    case Builtin(which) => ExecBuiltin(which, m)
    case _ => ExecBinary(op, p, m)
  }

  predicate IsBinary(op: Opcode) {
    op in {OpAdd, OpSub, OpMul, OpDiv, OpEq, OpNe, OpLt, OpGt, OpLe, OpGe}
  }

  function ExecBinary(op: Opcode, p: Profile, m: Machine): Outcome
    requires IsBinary(op)
  {
    if |m.stack| < 2 then Fail(StackUnderflow, m.out)
    else Replace(m, 2, BinaryResult(op, Top(m, 1), Top(m, 0), p))
  }

  function BinaryResult(op: Opcode, a: Value, b: Value, p: Profile): Result<Value, VmError>
    requires IsBinary(op)
  {
    if op in {OpAdd, OpSub, OpMul, OpDiv} then Arith(op, a, b, p) else Ok(VBool(Compare(op, a, b)))
  }

  function Returned(fs: seq<BytecodeFunction>, m: Machine): Outcome {
    if |m.stack| < 1 then Fail(StackUnderflow, m.out)
    else if m.calls == [] then Go(m.(running := false))
    else
      var (ip, base) := m.calls[|m.calls| - 1];
      var rest := m.stack[..|m.stack| - 1];
      Go(m.(stack := (if base < |rest| then rest[..base] else rest) + [Top(m, 0)],
            calls := m.calls[..|m.calls| - 1], ip := ip, fn := FunctionAt(fs, ip)))
  }

  function ExecBuiltin(which: u16, m: Machine): Outcome {
    if which > 3 then Fail(InvalidOpcode, m.out)
    else if |m.stack| < 1 then Fail(StackUnderflow, m.out)
    else
      var (r, printed) := BuiltinResult(which, Top(m, 0));
      Replace(m.(out := m.out + printed), 1, r)
  }

  /** What a builtin makes of its one operand, and what it prints. */
  function BuiltinResult(which: u16, v: Value): (Result<Value, VmError>, seq<Output>)
    requires which <= 3
  {
    if which == 0 then (Ok(VNone), [Printed(v, false)])
    else if which == 1 then (Ok(VNone), [Printed(v, true)])
    else if which == 2 then
      (if v.VArray? then Ok(LengthValue(|v.items|))
       else if v.VStr? then Ok(LengthValue(Utf8Len(v.s)))
       else Err(TypeError), [])
    else (if Truthy(v) then Ok(VNone) else Err(TypeError), [])
  }

  // ----- runs -----

  predicate Stopped(fs: seq<BytecodeFunction>, o: Outcome) {
    o.Fail? || !o.m.running || o.m.fn >= |fs| || o.m.ip >= |fs[o.m.fn].code|
  }

  function Step(fs: seq<BytecodeFunction>, p: Profile, o: Outcome): Outcome {
    if Stopped(fs, o) then o else Exec(fs[o.m.fn].code[o.m.ip], fs, p, o.m.(ip := o.m.ip + 1))
  }

  function Steps(fs: seq<BytecodeFunction>, p: Profile, n: nat, o: Outcome): Outcome {
    if n == 0 then o else Steps(fs, p, n - 1, Step(fs, p, o))
  }

  function Final(fs: seq<BytecodeFunction>, o: Outcome): RunResult {
    if o.Fail? then Failed(o.err, o.out)
    else if !Stopped(fs, o) then OutOfFuel
    else Finished(if o.m.stack == [] then VNone else Top(o.m, 0), o.m.out)
  }

  /** What `run` on a new machine gives within `fuel` instructions. */
  function RunOf(fs: seq<BytecodeFunction>, p: Profile, fuel: nat): RunResult {
    Final(fs, Steps(fs, p, fuel, Go(Started(Machine(0, 0, [], [], false, [])))))
  }

  /** `run` starts the first function over; it keeps whatever is on the stacks. */
  function Started(m: Machine): Machine {
    m.(ip := 0, fn := 0, running := true)
  }

  lemma {:induction false} StepsAdd(fs: seq<BytecodeFunction>, p: Profile, a: nat, b: nat, o: Outcome)
    ensures Steps(fs, p, a + b, o) == Steps(fs, p, b, Steps(fs, p, a, o))
  {
    if a > 0 {
      StepsAdd(fs, p, a - 1, b, Step(fs, p, o));
    }
  }

  lemma {:induction false} StoppedSteps(fs: seq<BytecodeFunction>, p: Profile, n: nat, o: Outcome)
    requires Stopped(fs, o)
    ensures Steps(fs, p, n, o) == o
  {
    if n > 0 {
      StoppedSteps(fs, p, n - 1, o);
    }
  }

  class Vm {
    var stack: seq<Value>
    var callStack: seq<(nat, nat)>
    var functions: seq<BytecodeFunction>
    var ip: nat
    var currentFn: nat
    var running: bool
    var printed: seq<Output>
    const profile: Profile

    constructor (functions: seq<BytecodeFunction>, profile: Profile)
      ensures this.functions == functions && this.profile == profile
      ensures State() == Machine(0, 0, [], [], false, [])
    {
      this.functions, this.profile := functions, profile;
      stack, callStack, ip, currentFn, running, printed := [], [], 0, 0, false, [];
    }

    function State(): Machine
      reads this
    {
      Machine(ip, currentFn, stack, callStack, running, printed)
    }

    /** A machine without functions has nothing to index, so `run` panics on it. */
    method Run(fuel: nat) returns (r: RunResult)
      requires functions != []
      modifies this
      ensures r == Final(functions, Steps(functions, profile, fuel, Go(Started(old(State())))))
      ensures functions == old(functions)
    {
      hide Exec;
      running, ip, currentFn := true, 0, 0;
      var left: nat := fuel;
      ghost var target := Steps(functions, profile, fuel, Go(State()));
      while running && left > 0
        invariant functions == old(functions) && currentFn < |functions|
        invariant left <= fuel
        invariant Steps(functions, profile, left, Go(State())) == target
      {
        var func := functions[currentFn];
        if ip >= |func.code| {
          break;
        }
        var op := func.code[ip];
        ip := ip + 1;
        left := left - 1;
        var err := ExecuteOp(op);
        if err.Some? {
          StoppedSteps(functions, profile, left, Fail(err.value, printed));
          return Failed(err.value, printed);
        }
      }
      if running && left == 0 && ip < |functions[currentFn].code| {
        return OutOfFuel;
      }
      StoppedSteps(functions, profile, left, Go(State()));
      r := Finished(if stack == [] then VNone else stack[|stack| - 1], printed);
      stack := if stack == [] then [] else stack[..|stack| - 1];
    }

    method Pop() returns (v: Option<Value>)
      modifies this`stack
      ensures old(|stack|) == 0 ==> v.None? && stack == []
      ensures old(|stack|) > 0 ==> v == Some(old(stack[|stack| - 1])) && stack == old(stack[..|stack| - 1])
    {
      if stack == [] {
        return None;
      }
      v := Some(stack[|stack| - 1]);
      stack := stack[..|stack| - 1];
    }

    /** One instruction does to the object what `Exec` does to its state. */
    method ExecuteOp(op: Opcode) returns (err: Option<VmError>)
      requires currentFn < |functions|
      modifies this
      ensures functions == old(functions) && (err.None? ==> currentFn < |functions|)
      ensures Exec(op, functions, profile, old(State())) ==
              if err.None? then Go(State()) else Fail(err.value, printed)
    {
      hide Negated, ExecBinary, Returned, ExecBuiltin, Jumped, Truthy, IsBinary;
      err := None;
      match op {
        case LoadInt(n) => stack := stack + [VInt(n)];
        case LoadStr(idx) =>
          var func := functions[currentFn];
          stack := stack + [VStr(if idx < |func.constants| then func.constants[idx] else "")];
        case LoadBool(b) => stack := stack + [VBool(b)];
        case LoadNone => stack := stack + [VNone];
        case OpNeg =>
          var v := Pop();
          if v.None? {
            return Some(StackUnderflow);
          }
          err := PushResult(Negated(v.value, profile));
        case Jmp(offset) => err := Jump(offset);
        case JmpIf(offset) =>
          var c := PopBool();
          if c.None? {
            return Some(StackUnderflow);
          }
          if c.value {
            err := Jump(offset);
          }
        case JmpIfNot(offset) =>
          var c := PopBool();
          if c.None? {
            return Some(StackUnderflow);
          }
          if !c.value {
            err := Jump(offset);
          }
        case Halt => running := false;
        case CallFn(argc) =>
          var base: nat := if argc <= |stack| then |stack| - argc else 0;
          callStack := callStack + [(ip, base)];
        case OpReturn => err := ExecuteReturn();
        case MakeArray(len) => err := ExecuteMakeArray(len);
        case Builtin(which) => err := ExecuteBuiltin(which);
        case _ => err := ExecuteBinary(op);
      }
    }

    method PushResult(r: Result<Value, VmError>) returns (err: Option<VmError>)
      modifies this`stack
      ensures r.Ok? ==> err == None && stack == old(stack) + [r.value]
      ensures r.Err? ==> err == Some(r.error) && stack == old(stack)
    {
      if r.Err? {
        return Some(r.error);
      }
      stack := stack + [r.value];
      err := None;
    }

    method Jump(offset: i16) returns (err: Option<VmError>)
      modifies this`ip
      ensures Jumped(old(State()), offset, profile) ==
              if err.None? then Go(State()) else Fail(err.value, printed)
    {
      if offset >= 0 {
        ip := ip + offset;
      } else if offset == -TWO_15 {
        if profile.Debug? {
          return Some(Panic);
        }
        ip := 0;
      } else {
        var back := 0 - offset;
        ip := if back <= ip then ip - back else 0;
      }
      err := None;
    }

    method PopBool() returns (c: Option<bool>)
      modifies this`stack
      ensures old(|stack|) == 0 ==> c.None? && stack == []
      ensures old(|stack|) > 0 ==> c == Some(Truthy(old(stack[|stack| - 1]))) && stack == old(stack[..|stack| - 1])
    {
      var v := Pop();
      if v.None? {
        return None;
      }
      c := Some(Truthy(v.value));
    }

    /** The right operand is on top, the left one below it. */
    method ExecuteBinary(op: Opcode) returns (err: Option<VmError>)
      requires IsBinary(op)
      modifies this`stack
      ensures ExecBinary(op, profile, old(State())) ==
              if err.None? then Go(State()) else Fail(err.value, printed)
    {
      var b := Pop();
      if b.None? {
        return Some(StackUnderflow);
      }
      var a := Pop();
      if a.None? {
        return Some(StackUnderflow);
      }
      assert stack == old(stack)[..|old(stack)| - 2];
      err := PushResult(BinaryResult(op, a.value, b.value, profile));
    }

    method ExecuteReturn() returns (err: Option<VmError>)
      requires currentFn < |functions|
      modifies this
      ensures functions == old(functions) && currentFn < |functions|
      ensures Returned(functions, old(State())) ==
              if err.None? then Go(State()) else Fail(err.value, printed)
    {
      var result := Pop();
      if result.None? {
        return Some(StackUnderflow);
      }
      err := None;
      if callStack == [] {
        stack := stack + [result.value];
        running := false;
        assert stack == old(stack);
      } else {
        var (retIp, base) := callStack[|callStack| - 1];
        callStack := callStack[..|callStack| - 1];
        if base < |stack| {
          stack := stack[..base];
        }
        stack := stack + [result.value];
        ip := retIp;
        currentFn := FunctionAt(functions, retIp);
      }
    }

    /** Pops one element at a time and reverses them. */
    method ExecuteMakeArray(len: u16) returns (err: Option<VmError>)
      modifies this`stack
      ensures |old(stack)| < len ==> err == Some(StackUnderflow)
      ensures |old(stack)| >= len ==>
                err == None &&
                State() == Push(Drop(old(State()), len), VArray(old(stack)[|old(stack)| - len..]))
    {
      var items := [];
      var i := 0;
      while i < len
        invariant 0 <= i <= len && i <= |old(stack)|
        invariant stack == old(stack)[..|old(stack)| - i]
        invariant |items| == i && forall j :: 0 <= j < i ==> items[j] == old(stack)[|old(stack)| - 1 - j]
      {
        var v := Pop();
        if v.None? {
          return Some(StackUnderflow);
        }
        items := items + [v.value];
        i := i + 1;
      }
      var reversed := seq(len, j requires 0 <= j < len => items[len - 1 - j]);
      assert reversed == old(stack)[|old(stack)| - len..];
      stack := stack + [VArray(reversed)];
      err := None;
    }

    method ExecuteBuiltin(which: u16) returns (err: Option<VmError>)
      modifies this`stack, this`printed
      ensures ExecBuiltin(which, old(State())) ==
              if err.None? then Go(State()) else Fail(err.value, printed)
    {
      if which > 3 {
        return Some(InvalidOpcode);
      }
      var v := Pop();
      if v.None? {
        return Some(StackUnderflow);
      }
      if which == 0 {
        printed := printed + [Printed(v.value, false)];
        err := PushResult(Ok(VNone));
      } else if which == 1 {
        printed := printed + [Printed(v.value, true)];
        err := PushResult(Ok(VNone));
      } else if which == 2 {
        assert printed + [] == printed;
        match v.value {
          case VArray(items) => err := PushResult(Ok(LengthValue(|items|)));
          case VStr(s) => err := PushResult(Ok(LengthValue(Utf8Len(s))));
          case _ => err := Some(TypeError);
        }
      } else {
        assert printed + [] == printed;
        if Truthy(v.value) {
          err := PushResult(Ok(VNone));
        } else {
          err := Some(TypeError);
        }
      }
    }
  }
}
