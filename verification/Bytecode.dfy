/** The instruction set and the values of the DLVM (dlvm/src/lib.rs). */
module Bytecode {
  import opened Prelude

  /** The instructions the compiler can emit, and the two control instructions beside them. */
  datatype Opcode =
    | LoadInt(n: i64) | LoadStr(idx: u16) | LoadBool(b: bool) | LoadNone
    | OpAdd | OpSub | OpMul | OpDiv | OpNeg
    | OpEq | OpNe | OpLt | OpGt | OpLe | OpGe
    | Jmp(offset: i16) | JmpIf(offset: i16) | JmpIfNot(offset: i16) | Halt
    | CallFn(argc: u16) | OpReturn
    | MakeArray(len: u16)
    | Builtin(which: u16)

  datatype BytecodeFunction = BytecodeFunction(name: string, code: seq<Opcode>, constants: seq<string>)

  datatype Value =
    | VInt(n: i64)
    | VBool(b: bool)
    | VStr(s: string)
    | VNone
    | VArray(items: seq<Value>)

  datatype VmError = StackUnderflow | InvalidOpcode | TypeError | DivisionByZero | Panic

  /** One `print!` (newline false) or `println!` (newline true) of a value. */
  datatype Output = Printed(value: Value, newline: bool)

  /** `Value::eq` of the machine: arrays are never equal, not even to themselves. */
  predicate SameValue(a: Value, b: Value) {
    match (a, b)
    case (VInt(x), VInt(y)) => x == y
    case (VBool(x), VBool(y)) => x == y
    case (VStr(x), VStr(y)) => x == y
    case (VNone, VNone) => true
    case _ => false
  }

  /** The arithmetic instructions on their two popped operands. */
  function Arith(op: Opcode, a: Value, b: Value, p: Profile): Result<Value, VmError>
    requires op in {OpAdd, OpSub, OpMul, OpDiv}
  {
    if op == OpDiv && b == VInt(0) then Err(DivisionByZero)
    else if op == OpAdd && a.VStr? && b.VStr? then Ok(VStr(a.s + b.s))
    else if a.VInt? && b.VInt? then
      Checked(if op == OpAdd then Fit(a.n + b.n, p)
              else if op == OpSub then Fit(a.n - b.n, p)
              else if op == OpMul then Fit(a.n * b.n, p)
              // the one quotient outside i64 panics in every profile
              else Fit(Quot(a.n, b.n), Debug))
    else Err(TypeError)
  }

  function Checked(n: Option<i64>): Result<Value, VmError> {
    if n.Some? then Ok(VInt(n.value)) else Err(Panic)
  }

  function Negated(v: Value, p: Profile): Result<Value, VmError> {
    if v.VInt? then Checked(Fit(0 - v.n, p)) else Err(TypeError)
  }

  /** The comparison instructions: any pair of operands has an answer. */
  predicate Compare(op: Opcode, a: Value, b: Value)
    requires op in {OpEq, OpNe, OpLt, OpGt, OpLe, OpGe}
  {
    if op == OpEq then SameValue(a, b)
    else if op == OpNe then !SameValue(a, b)
    else if op == OpLt then Below(a, b)
    else if op == OpGt then Below(b, a)
    else if op == OpLe then Comparable(a, b) && !Below(b, a)
    else Comparable(a, b) && !Below(a, b)
  }

  predicate Comparable(a: Value, b: Value) {
    (a.VInt? && b.VInt?) || (a.VStr? && b.VStr?)
  }

  predicate Below(a: Value, b: Value) {
    match (a, b)
    case (VInt(x), VInt(y)) => x < y
    case (VStr(x), VStr(y)) => TextLess(x, y)
    case _ => false
  }

  /** `pop_bool` on the popped value. */
  predicate Truthy(v: Value) {
    match v
    case VBool(b) => b
    case VNone => false
    case VInt(n) => n != 0
    case _ => true
  }

  /** `String::len` counts UTF-8 bytes. */
  function Utf8Len(s: string): nat {
    if s == [] then 0
    else
      (if s[0] as int < 0x80 then 1 else if s[0] as int < 0x800 then 2 else if s[0] as int < 0x1_0000 then 3 else 4)
      + Utf8Len(s[1..])
  }

  /** `n as i64` for a length. */
  function LengthValue(n: nat): Value {
    VInt(WrapI64(n))
  }
}
