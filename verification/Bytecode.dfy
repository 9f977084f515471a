/** Lama bytecode: its instructions, what the runtime's operators make of their operands, and the
    stack machine that compiled code has to follow. */
module Bytecode {
  import opened Rv64

  datatype Option<T> = None | Some(value: T)

  datatype BinopKind =
    | Plus | Minus | Times | Divide | Modulo
    | LessThan | LessEqual | GreaterThan | GreaterEqual | Equal | NotEqual
    | Both | Either

  datatype Place = Global | Local | Argument | Captured

  /** A public function carries its name, any other one its own offset. */
  datatype Entry = Public(name: string) | Private(offset: nat)

  datatype Inst =
    | Const(value: int)
    | Text(index: nat)
    | Sexp(tagHash: int, size: nat)
    | StoreStack
    | StoreArray
    | Jump(target: nat)
    | CondJump(target: nat, zero: bool)
    | Return
    | Drop
    | Dup
    | Swap
    | Elem
    | Closure
    | Begin(entry: Entry, argc: nat, locc: nat)
    | ClosureBegin(argc: nat, locc: nat)
    | End
    | CallClosure
    | Call(callee: nat, argc: nat)
    | Tag(tagHash: int, size: nat)
    | Array
    | Fail(line: nat, col: nat)
    | Line(line: nat)
    | Binop(op: BinopKind)
    | Load(place: Place, index: nat)
    | LoadArray
    | Store(place: Place, index: nat)
    | Pattern
    | BuiltinRead
    | BuiltinWrite
    | BuiltinLength
    | BuiltinString
    | BuiltinArray(len: nat)

  datatype Item = Item(offset: nat, inst: Inst)

  type Program = seq<Item>

  /** The reader moves forward through the file, so offsets ascend. */
  ghost predicate Sorted(p: Program) {
    forall i, j :: 0 <= i < j < |p| ==> p[i].offset < p[j].offset
  }

  ghost predicate IsAddress(p: Program, offset: nat) {
    exists i :: 0 <= i < |p| && p[i].offset == offset
  }

  /** The map lookup of the driver. */
  function Find(p: Program, offset: nat): (r: Option<nat>)
    ensures r.Some? ==> r.value < |p| && p[r.value].offset == offset
    ensures r.None? ==> !IsAddress(p, offset)
  {
    FindFrom(p, offset, 0)
  }

  function FindFrom(p: Program, offset: nat, from: nat): (r: Option<nat>)
    requires from <= |p|
    ensures r.Some? ==> from <= r.value < |p| && p[r.value].offset == offset
    ensures r.None? ==> forall i :: from <= i < |p| ==> p[i].offset != offset
    decreases |p| - from
  {
    if from == |p| then None
    else if p[from].offset == offset then Some(from)
    else FindFrom(p, offset, from + 1)
  }

  lemma FindAt(p: Program, i: nat)
    requires Sorted(p) && i < |p|
    ensures Find(p, p[i].offset) == Some(i)
  {
    assert IsAddress(p, p[i].offset);
  }

  predicate Terminator(inst: Inst) {
    inst.Jump? || inst.End? || inst.Fail?
  }

  // -------------------------------------------------------------------- operators

  /** UNBOXED */
  predicate IsUnboxed(x: Int64) {
    x % 2 == 1
  }

  /** UNBOX */
  function Unbox(x: Int64): (n: Int64)
    ensures -HALF / 2 <= n < HALF / 2
  {
    x / 2
  }

  /** BOX */
  function Box(n: int): Int64 {
    Wrap(2 * n + 1)
  }

  function Truth(b: bool): int {
    if b then 1 else 0
  }

  /** The operators on numbers, as C defines them. */
  function Meaning(op: BinopKind, a: int, b: int): int
    requires op.Divide? || op.Modulo? ==> b != 0
  {
    match op
    case Plus => a + b
    case Minus => a - b
    case Times => a * b
    case Divide => TruncatedQuotient(a, b)
    case Modulo => TruncatedRemainder(a, b)
    case LessThan => Truth(a < b)
    case LessEqual => Truth(a <= b)
    case GreaterThan => Truth(a > b)
    case GreaterEqual => Truth(a >= b)
    case Equal => Truth(a == b)
    case NotEqual => Truth(a != b)
    case Both => Truth(a != 0 && b != 0)
    case Either => Truth(a != 0 || b != 0)
  }

  /** The Ls__Infix functions: None where their assertions fail or C leaves the result undefined. */
  function Infix(op: BinopKind, x: Int64, y: Int64): Option<Int64> {
    if op.Equal? then Some(Box(Truth(x == y)))
    else if op.Minus? && !IsUnboxed(x) then (if IsUnboxed(y) then None else Some(Box(Wrap(x - y))))
    else if !IsUnboxed(x) || !IsUnboxed(y) then None
    else
      var a, b := Unbox(x), Unbox(y);
      if (op.Divide? || op.Modulo?) && b == 0 then None else Some(Box(Meaning(op, a, b)))
  }

  // ---------------------------------------------------------------- stack machine

  /** A running or suspended function: what it is called, the index of its instruction, and its variables; a local
      that was never stored to holds None. A suspended one stays at its call, with the arguments already taken. */
  datatype Activation =
    Activation(entry: Entry, ip: nat, args: seq<Int64>, locals: seq<Option<Int64>>, operands: seq<Int64>)

  /** A function just after its Begin. */
  function Begun(begin: Inst, ip: nat, args: seq<Int64>): Activation
    requires begin.Begin?
  {
    Activation(begin.entry, ip, args, seq(begin.locc, i => None), [])
  }

  datatype Config = Config(globals: seq<Int64>, callers: seq<Activation>, active: Activation)

  datatype Outcome = Running(config: Config) | Finished(result: Int64, globals: seq<Int64>) | Stuck

  function Goto(p: Program, c: Config, ip: nat, operands: seq<Int64>): Outcome {
    if ip < |p| then Running(c.(active := c.active.(ip := ip, operands := operands))) else Stuck
  }

  function Enter(p: Program, c: Config, callee: nat, argc: nat): Outcome {
    var act := c.active;
    var n := |act.operands|;
    if n < argc then Stuck
    else
      match Find(p, callee)
      case None => Stuck
      case Some(j) =>
        if !p[j].inst.Begin? || j + 1 >= |p| then Stuck
        else
          Running(Config(c.globals,
                         c.callers + [act.(operands := act.operands[..n - argc])],
                         Begun(p[j].inst, j + 1, act.operands[n - argc..])))
  }

  function Leave(p: Program, c: Config): Outcome {
    var n, k := |c.active.operands|, |c.callers|;
    if n == 0 then Stuck
    else
      var v := c.active.operands[n - 1];
      if k == 0 then Finished(v, c.globals)
      else
        var caller := c.callers[k - 1];
        Goto(p, Config(c.globals, c.callers[..k - 1], caller), caller.ip + 1, caller.operands + [v])
  }

  function Fetch(c: Config, place: Place, index: nat): Option<Int64> {
    match place
    case Global => if index < |c.globals| then Some(c.globals[index]) else None
    case Local => if index < |c.active.locals| then c.active.locals[index] else None
    case Argument => if index < |c.active.args| then Some(c.active.args[index]) else None
    case Captured => None
  }

  function Assign(c: Config, place: Place, index: nat, v: Int64): Option<Config> {
    match place
    case Global => if index < |c.globals| then Some(c.(globals := c.globals[index := v])) else None
    case Local =>
      if index < |c.active.locals| then Some(c.(active := c.active.(locals := c.active.locals[index := Some(v)])))
          else None
    case _ => None
  }

  /** One step on the part of the bytecode that compiled code can follow. */
  function Next(p: Program, c: Config): Outcome {
    var act := c.active;
    var ops, n := act.operands, |act.operands|;
    if act.ip >= |p| then Stuck
    else
      match p[act.ip].inst
      case Const(v) => Goto(p, c, act.ip + 1, ops + [Box(v)])
      case Line(_) => Goto(p, c, act.ip + 1, ops)
      case Drop => if n < 1 then Stuck else Goto(p, c, act.ip + 1, ops[..n - 1])
      case Dup => if n < 1 then Stuck else Goto(p, c, act.ip + 1, ops + [ops[n - 1]])
      case Swap => if n < 2 then Stuck else Goto(p, c, act.ip + 1, ops[..n - 2] + [ops[n - 1], ops[n - 2]])
      case Binop(op) =>
        if n < 2 then Stuck
        else
          var r := Infix(op, ops[n - 2], ops[n - 1]);
          if r.None? then Stuck else Goto(p, c, act.ip + 1, ops[..n - 2] + [r.value])
      case Load(place, index) =>
        var r := Fetch(c, place, index);
        if r.None? then Stuck else Goto(p, c, act.ip + 1, ops + [r.value])
      case Store(place, index) =>
        if n < 1 then Stuck
        else
          var r := Assign(c, place, index, ops[n - 1]);
          if r.None? then Stuck else Goto(p, r.value, act.ip + 1, ops)
      case Jump(target) =>
        var r := Find(p, target);
        if r.None? then Stuck else Goto(p, c, r.value, ops)
      case CondJump(target, zero) =>
        if n < 1 then Stuck
        else
          var r := Find(p, target);
          if (Unbox(ops[n - 1]) == 0) != zero then Goto(p, c, act.ip + 1, ops[..n - 1])
          else if r.None? then Stuck
          else Goto(p, c, r.value, ops[..n - 1])
      case Call(callee, argc) => Enter(p, c, callee, argc)
      case End => Leave(p, c)
      case _ => Stuck
  }
}
