/**
 * One iteration of the interpreter's `execute` loop as a function of the machine state, and the
 * loop itself as a fuel-bounded run. The machine is the interpreter's instruction pointer,
 * operand stack and call stack, the code stream it reads from and the module's linear memory;
 * the module's functions are a parameter that execution never changes.
 */
module Interpreter {
  import opened Wrappers
  import opened Exceptions
  import opened JavaInt
  import C = Constants
  import opened ByteStreams
  import Leb128
  import opened Functions
  import opened LinearMemories
  import opened ExecEnvFrames
  import opened I32
  import opened I32Instructions

  /** The state the loop works on; the top of each stack is its last element. */
  datatype Machine = Machine(
    ip: int,
    operands: seq<int32>,
    frames: seq<Frame>,
    code: Stream,
    memory: Option<Memory>)

  /** While the loop runs there is always a frame to `peek` at. */
  type State = m: Machine | |m.frames| >= 1
    witness Machine(0, [], [NewFrame(NewFunction(0, 0), [])], Open([]), None)

  /** What one iteration does: go round again, or leave `execute` by one of its `return`s. */
  datatype Status = Running(state: State) | Halted(state: State)

  function Top(m: State): Frame {
    m.frames[|m.frames| - 1]
  }

  /** The state with its top frame replaced. */
  function WithTop(m: State, f: Frame): (r: State)
    ensures r.frames == m.frames[..|m.frames| - 1] + [f] && Top(r) == f
    ensures r.ip == m.ip && r.operands == m.operands && r.code == m.code && r.memory == m.memory
  {
    m.(frames := m.frames[..|m.frames| - 1] + [f])
  }

  /** Putting back the top frame changes nothing. */
  lemma WithTopUnchanged(m: State)
    ensures WithTop(m, Top(m)) == m
  {
    assert m.frames[..|m.frames| - 1] + [Top(m)] == m.frames;
  }

  /** Replacing the top frame twice keeps the second replacement. */
  lemma WithTopTwice(m: State, f: Frame, g: Frame)
    ensures WithTop(WithTop(m, f), g) == WithTop(m, g)
  {
    assert WithTop(m, f).frames[..|m.frames| - 1] == m.frames[..|m.frames| - 1];
  }

  /** The shared `instructionPointer++` at the end of an iteration. */
  function Next(m: State): (r: Outcome<Status>)
    ensures r == Ok(Running(m.(ip := m.ip + 1)))
  {
    Ok(Running(m.(ip := m.ip + 1)))
  }

  /** `operandStack.pop()`. */
  function Pop(ops: seq<int32>): (r: Outcome<(int32, seq<int32>)>)
    ensures r.Err? <==> ops == []
    ensures r.Err? ==> r.error == EmptyStack
    ensures r.Ok? ==> ops == r.value.1 + [r.value.0]
  {
    if ops == [] then Err(EmptyStack) else Ok((ops[|ops| - 1], ops[..|ops| - 1]))
  }

  /** `operandStack.peek()`. */
  function Peek(ops: seq<int32>): (r: Outcome<int32>)
    ensures r.Err? <==> ops == []
    ensures r.Err? ==> r.error == EmptyStack
    ensures r.Ok? ==> r.value == ops[|ops| - 1]
  {
    if ops == [] then Err(EmptyStack) else Ok(ops[|ops| - 1])
  }

  /** Dereferencing a reference that may be null. */
  function Deref<T>(o: Option<T>): (r: Outcome<T>)
    ensures r.Err? <==> o.None?
    ensures r.Err? ==> r.error == NullPointer
    ensures r.Ok? ==> o == Some(r.value)
  {
    if o.None? then Err(NullPointer) else Ok(o.value)
  }

  /** `unsignedLeb128Size` of an `int`. */
  function LebSize(v: int32): Outcome<nat> {
    Leb128.Size(Bits(v))
  }

  /** `(byte) read()`: the next byte, or 0xFF (the byte -1) at the end of the code. */
  function ReadOpcode(s: Stream): (r: (bv8, Stream))
    ensures r == Leb128.ReadMasked(s)
    ensures s.pos < s.count ==> r == (s.buf[s.pos], s.(pos := s.pos + 1))
  {
    Leb128.ReadMasked(s)
  }

  // ---------------------------------------------------------------------------------------------
  // Immediates.

  /**
   * `readLoopSave`: an immediate is read from the code and recorded while a loop runs for the
   * first time, taken from the recorded queue (and put back at its end) while the loop is
   * replayed, and read from the code otherwise.
   */
  function ReadLoopSave(f: Frame, code: Stream): (r: Outcome<(int32, Frame, Stream)>)
    ensures r.Ok? && !f.firstLoopExec && f.savedLoopExec ==> r.value.2 == code
    ensures r.Ok? ==> r.value.1.func == f.func && r.value.1.locals == f.locals
  {
    if f.firstLoopExec then
      var d :- Leb128.DecodeUnsigned(code);
      Ok((Signed(d.0), EnqueueInt(f, Signed(d.0)), d.1))
    else if f.savedLoopExec then
      var p :- PollInt(f);
      Ok((p.0, EnqueueInt(p.1, p.0), code))
    else
      var d :- Leb128.DecodeUnsigned(code);
      Ok((Signed(d.0), f, d.1))
  }

  // ---------------------------------------------------------------------------------------------
  // Variable and constant access.

  predicate IsVariable(op: bv8) {
    op == C.I32_CONST || op == C.GET_LOCAL || op == C.SET_LOCAL || op == C.TEE_LOCAL
  }

  /** `i32.const`, `get_local`, `set_local` and `tee_local`: one immediate, then the instruction pointer moves past it. */
  function Variable(m: State, op: bv8): Outcome<Status>
    requires IsVariable(op)
  {
    var r :- ReadLoopSave(Top(m), m.code);
    var (p, f, code) := r;
    var m1 := WithTop(m, f).(code := code);
    if op == C.I32_CONST then
      var n :- LebSize(p);
      Next(m1.(operands := m1.operands + [p], ip := m1.ip + n))
    else if op == C.GET_LOCAL then
      var v :- GetLocal(f, p);
      var n :- LebSize(p);
      Next(m1.(operands := m1.operands + [v], ip := m1.ip + n))
    else if op == C.SET_LOCAL then
      var v :- Pop(m1.operands);
      var f1 :- SetLocal(f, v.0, p);
      var n :- LebSize(p);
      Next(WithTop(m1, f1).(operands := v.1, ip := m1.ip + n))
    else
      var v :- Peek(m1.operands);
      var f1 :- SetLocal(f, v, p);
      var n :- LebSize(p);
      Next(WithTop(m1, f1).(ip := m1.ip + n))
  }

  // ---------------------------------------------------------------------------------------------
  // Memory.

  predicate IsLoad(op: bv8) {
    op == C.I32_LOAD || C.I32_LOAD8_S <= op <= C.I32_LOAD16_U
  }

  predicate IsStore(op: bv8) {
    op == C.I32_STORE || op == C.I32_STORE8 || op == C.I32_STORE16
  }

  /** The number of bytes a load or store moves. */
  function Width(op: bv8): (n: int)
    ensures 1 <= n <= 4
  {
    if op == C.I32_LOAD || op == C.I32_STORE then 4
    else if op == C.I32_LOAD16_S || op == C.I32_LOAD16_U || op == C.I32_STORE16 then 2
    else 1
  }

  /** Whether a load sign-extends the bytes it reads. */
  predicate SignExtends(op: bv8) {
    op == C.I32_LOAD8_S || op == C.I32_LOAD16_S
  }

  /** `i32.load*` and `i32.store*`: the alignment and offset immediates come straight from the code. */
  function MemoryAccess(m: State, op: bv8): Outcome<Status>
    requires IsLoad(op) || IsStore(op)
  {
    var a :- Leb128.DecodeUnsigned(m.code);
    var o :- Leb128.DecodeUnsigned(a.1);
    Access(m.(code := o.1), op, Signed(o.0), Leb128.Size(a.0), Leb128.Size(o.0))
  }

  /**
   * A load or store once its immediates are read: the address (and the value) come from the
   * stack; the sizes of the two immediates are added to the instruction pointer last.
   */
  function Access(m: State, op: bv8, offset: int32, alignmentSize: Outcome<nat>, offsetSize: Outcome<nat>): Outcome<Status>
    requires IsLoad(op) || IsStore(op)
  {
    if IsLoad(op) then
      var address :- Pop(m.operands);
      var mem :- Deref(m.memory);
      var v :- LoadResult(mem, address.0, offset, Width(op), SignExtends(op));
      var n1 :- alignmentSize;
      var n2 :- offsetSize;
      Next(m.(operands := address.1 + [v], ip := m.ip + n1 + n2))
    else
      var value :- Pop(m.operands);
      var address :- Pop(value.1);
      var mem :- Deref(m.memory);
      var mem' :- StoreResult(mem, address.0, offset, Width(op), value.0);
      var n1 :- alignmentSize;
      var n2 :- offsetSize;
      Next(m.(operands := address.1, memory := Some(mem'), ip := m.ip + n1 + n2))
  }

  /** `current_memory` and `grow_memory`: the reserved zero byte is skipped. */
  function MemorySize(m: State, op: bv8): Outcome<Status>
    requires op == C.CURRENT_MEMORY || op == C.GROW_MEMORY
  {
    var code := Skip(m.code, 1);
    if op == C.CURRENT_MEMORY then
      var mem :- Deref(m.memory);
      Next(m.(code := code, operands := m.operands + [|mem.pages|], ip := m.ip + 1))
    else
      var delta :- Pop(m.operands);
      var mem :- Deref(m.memory);
      var g :- GrowAsWritten(mem, delta.0);
      Next(m.(code := code, operands := delta.1 + [g.1], memory := Some(g.0), ip := m.ip + 1))
  }

  // ---------------------------------------------------------------------------------------------
  // Numeric instructions.

  /** `i32.eqz`, the tests, the bit counts and the binary operators: operands popped, one result pushed. */
  function Numeric(m: State, op: bv8): Outcome<Status>
    requires op == C.I32_EQZ || IsTest(op) || IsUnary(op) || IsBinary(op)
  {
    var second :- Pop(m.operands);
    if op == C.I32_EQZ then
      Next(m.(operands := second.1 + [Eqz(second.0)]))
    else if IsUnary(op) then
      Next(m.(operands := second.1 + [Unary(op, second.0)]))
    else
      var first :- Pop(second.1);
      var v :- if IsTest(op) then Ok(Test(op, first.0, second.0)) else BinaryAsWritten(op, first.0, second.0);
      Next(m.(operands := first.1 + [v]))
  }

  // ---------------------------------------------------------------------------------------------
  // Control instructions.

  /** The end-stack marker of a block-opening instruction. */
  function Marker(op: bv8): EndValue {
    if op == C.IF then IF else if op == C.BLOCK then BLOCK else LOOP
  }

  predicate OpensBlock(op: bv8) {
    op == C.IF || op == C.BLOCK || op == C.LOOP
  }

  /** `br_if`: its depth byte comes from the code on a loop's first run and from the recorded queue otherwise; a non-zero condition leaves the loop, skipping to its end. */
  function BrIf(m: State): Outcome<Status> {
    var f := Top(m);
    var d :- if f.firstLoopExec then
        var (b, code) := ReadOpcode(m.code);
        Ok((b, EnqueueOpcode(f, b), code))
      else
        var p :- PollOpcode(f);
        Ok((p.0, EnqueueOpcode(p.1, p.0), m.code));
    var (_, f1, code) := d;
    var condition :- Peek(m.operands);
    if condition != 0 then
      Next(WithTop(m, LoopCleared(f1).(skipLoopCode := true)).(code := code, operands := m.operands[..|m.operands| - 1]))
    else
      Next(WithTop(m, f1).(code := code))
  }

  /** `if`: a new end marker and if-depth; a zero condition skips to the `else`. The block-type byte is read and ignored. */
  function If(m: State): Outcome<Status> {
    var f := PushEnd(Top(m), IF).(ifDepth := Wrap(Top(m).ifDepth + 1));
    var condition :- Pop(m.operands);
    var f1 := f.(ifBranch := condition.0 != 0, skipCode := if condition.0 != 0 then f.skipCode else true);
    Next(WithTop(m, f1).(operands := condition.1, code := Read(m.code).1))
  }

  /** The callee's parameters, popped from the stack into slots `i`, `i - 1`, ..., 0. */
  function PassParameters(f: Frame, ops: seq<int32>, i: int32): (r: Outcome<(Frame, seq<int32>)>)
    ensures r.Ok? ==> r.value.0.func == f.func && |r.value.0.locals| == |f.locals|
    decreases if i < 0 then 0 else i + 1
  {
    if i < 0 then Ok((f, ops))
    else
      var p :- Pop(ops);
      var f1 :- SetLocal(f, p.0, i);
      PassParameters(f1, p.1, i - 1)
  }

  /** The code of a function; a function without code is a null array. */
  function CodeOf(func: FunctionData): (r: Outcome<seq<bv8>>)
    ensures r.Err? <==> func.instructions.None?
    ensures r.Err? ==> r.error == NullPointer
  {
    Deref(func.instructions)
  }

  /** The number of local slots a frame gets: `getLocalVariableCount() + getParameterCount()`. */
  function SlotCount(func: FunctionData): int32 {
    Wrap(LocalVariableCount(func) + func.parameterCount)
  }

  /**
   * `call`: the caller keeps the instruction pointer past the index and the operand-stack height;
   * the callee gets a frame whose first slots receive the arguments, and execution continues at
   * the start of its code.
   */
  function Call(fs: seq<FunctionData>, m: State): Outcome<Status> {
    var d :- Leb128.DecodeUnsigned(m.code);
    var n :- Leb128.Size(d.0);
    Enter(fs, m, Signed(d.0), n)
  }

  /** The part of `call` after its index (of `n` bytes) is read. */
  function Enter(fs: seq<FunctionData>, m: State, index: int32, n: nat): Outcome<Status> {
    if !(0 <= index < |fs|) then Err(IndexOutOfBounds)
    else
      var callee := fs[index];
      var ip := m.ip + n;
      var caller := Top(m).(instructionPointer := ip, operandStackBase := Wrap(|m.operands|));
      var locals :- NewLocals(SlotCount(callee));
      var p :- PassParameters(NewFrame(callee, locals), m.operands, Wrap(callee.parameterCount - 1));
      var code :- CodeOf(callee);
      Next(Machine(p.0.instructionPointer, p.1, m.frames[..|m.frames| - 1] + [caller, p.0], Open(code), m.memory))
  }

  /**
   * `return`: from the last frame, execution ends if the stack holds as many values above the
   * frame's base as the function returns; otherwise the frame is dropped and the caller's code
   * is reopened one byte past its saved instruction pointer.
   */
  function Return(m: State): Outcome<Status> {
    var f := Top(m);
    if |m.frames| == 1 then
      var expected := f.func.returnValueCount;
      var actual := Wrap(|m.operands| - f.operandStackBase);
      if expected != actual then Err(ParserException(WrongReturnValueCount(expected, actual)))
      else Ok(Halted(m))
    else
      var frames := m.frames[..|m.frames| - 1];
      var caller := frames[|frames| - 1];
      var code :- CodeOf(caller.func);
      // The saved pointer is cast to `int` before the `int` addition, so both wrap.
      var offset := Wrap(Wrap(caller.instructionPointer) + 1);
      // A stream opened at a negative position throws `IndexOutOfBoundsException` on its first
      // read; the model raises it at the `return` itself, whether or not that read comes.
      if offset < 0 then Err(IndexOutOfBounds)
      else Next(m.(frames := frames, ip := caller.instructionPointer, code := OpenAt(code, offset, |code|)))
  }

  /** The control instructions and the opcodes the dispatch tolerates or rejects. */
  function Control(fs: seq<FunctionData>, m: State, op: bv8): Outcome<Status> {
    var f := Top(m);
    if op == C.UNREACHABLE then Err(ParserException(ReachedUnreachable))
    else if op == C.NOP || op == C.DROP || op == 0x7F then Next(m)
    else if op == C.BLOCK then Next(WithTop(m, PushEnd(f, BLOCK)))
    else if op == C.LOOP then
      Next(WithTop(m, PushEnd(f, LOOP).(firstLoopExec := true, savedLoopExec := false, loopBeginInstructionPointer := m.ip)))
    else if op == C.BR_IF then BrIf(m)
    else if op == C.ELSE then Next(WithTop(m, f.(skipCode := true)))
    else if op == C.IF then If(m)
    else if op == C.CALL then Call(fs, m)
    else if op == C.RETURN then Return(m)
    else if op == C.END then
      var v :- Pop(m.operands);
      Next(m.(operands := v.1))
    else if op == C.END_OF_STREAM then Err(ParserException(UnexpectedEndOfFile))
    else Err(ParserException(InvalidInstruction))
  }

  /** The `switch` on the opcode. */
  function Dispatch(fs: seq<FunctionData>, m: State, op: bv8): Outcome<Status> {
    if IsVariable(op) then Variable(m, op)
    else if IsLoad(op) || IsStore(op) then MemoryAccess(m, op)
    else if op == C.CURRENT_MEMORY || op == C.GROW_MEMORY then MemorySize(m, op)
    else if op == C.I32_EQZ || IsTest(op) || IsUnary(op) || IsBinary(op) then Numeric(m, op)
    else Control(fs, m, op)
  }

  // ---------------------------------------------------------------------------------------------
  // The skip modes.

  /** Skipping to the end of a loop left by `br_if`: markers are tracked; the `end` of a loop forgets the recorded loop. */
  function SkipLoop(m: State, f: Frame, op: bv8): Outcome<Status> {
    if OpensBlock(op) then Next(WithTop(m, PushEnd(f, Marker(op))))
    else if op == C.END then
      var p :- PopEnd(f);
      Ok(Running(WithTop(m, if p.0 == LOOP then LoopCleared(p.1) else p.1)))
    else Next(WithTop(m, f))
  }

  /**
   * Skipping the branch of an `if` not taken: markers are tracked; the `else` at the `if`'s own
   * depth resumes execution of a false condition's branch, its `end` closes a true condition's
   * branch; an `end` with no marker left ends execution, and a loop's `end` jumps back.
   */
  function SkipCode(m: State, f: Frame, op: bv8): Outcome<Status> {
    if OpensBlock(op) then Next(WithTop(m, PushEnd(f, Marker(op))))
    else if !f.ifBranch && |f.endStack| == f.ifDepth && op == C.ELSE then
      Next(WithTop(m, f.(skipCode := false)))
    else if f.ifBranch && f.ifDepth == |f.endStack| && op == C.END then
      var p :- PopEnd(f.(skipCode := false));
      Next(WithTop(m, p.1.(ifDepth := Wrap(f.ifDepth - 1))))
    else if op == C.END then
      if |f.endStack| == 0 then Ok(Halted(WithTop(m, f)))
      else
        var p := PopEnd(f).value;
        if p.0 == LOOP then
          var f1 := if p.1.firstLoopExec then p.1.(firstLoopExec := false, savedLoopExec := true) else p.1;
          Next(WithTop(m, f1).(ip := f.loopBeginInstructionPointer))
        else Next(WithTop(m, p.1))
    else Next(WithTop(m, f))
  }

  /** After the opcode is fetched: the if/else skip mode, or the dispatch. */
  function Execute(fs: seq<FunctionData>, m: State, f: Frame, op: bv8): Outcome<Status> {
    if f.skipCode then SkipCode(m, f, op) else Dispatch(fs, WithTop(m, f), op)
  }

  /** The opcode of an iteration, the frame it is executed with, the code after it, and whether it came from the recorded queue. */
  datatype Fetched = Fetched(op: bv8, frame: Frame, code: Stream, replayed: bool)

  /**
   * While a loop is replayed the opcode comes from the recorded queue (and goes back to its
   * end); otherwise it is read from the code, and recorded while a loop runs for the first time.
   */
  function Fetch(m: State): (r: Outcome<Fetched>)
    ensures r.Ok? && r.value.replayed ==> r.value.code == m.code
  {
    var f := Top(m);
    if f.savedLoopExec && !f.skipLoopCode then
      var p :- PollOpcode(f);
      Ok(Fetched(p.0, EnqueueOpcode(p.1, p.0), m.code, true))
    else
      var (op, code) := ReadOpcode(m.code);
      Ok(Fetched(op, if !f.skipLoopCode && f.firstLoopExec then EnqueueOpcode(f, op) else f, code, false))
  }

  /**
   * One iteration of the loop: the fetched opcode goes to the skip mode of a loop being left;
   * the `end` of a loop's first run is recorded a second time and switches to replay;
   * everything else is executed.
   */
  function Step(fs: seq<FunctionData>, m: State): Outcome<Status> {
    var x :- Fetch(m);
    var m1 := m.(code := x.code);
    if !x.replayed && x.frame.skipLoopCode then SkipLoop(m1, x.frame, x.op)
    else if !x.replayed && x.frame.firstLoopExec && x.op == C.END then
      Next(WithTop(m1, EnqueueOpcode(x.frame, x.op).(firstLoopExec := false, savedLoopExec := true)))
    else Execute(fs, m1, x.frame, x.op)
  }

  // ---------------------------------------------------------------------------------------------
  // The loop.

  datatype RunResult = Finished(state: State) | OutOfFuel(state: State)

  /**
   * `while (executingCodeStream.available() != 0)` with `step` as the body, for at most `fuel`
   * iterations.
   */
  function Loop(step: State -> Outcome<Status>, m: State, fuel: nat): Outcome<RunResult>
    decreases fuel
  {
    if Available(m.code) == 0 then Ok(Finished(m))
    else if fuel == 0 then Ok(OutOfFuel(m))
    else
      var s :- step(m);
      match s
      case Halted(m') => Ok(Finished(m'))
      case Running(m') => Loop(step, m', fuel - 1)
  }

  /** The body of the loop for a module's functions. */
  function Iteration(fs: seq<FunctionData>): State -> Outcome<Status> {
    (m: State) => Step(fs, m)
  }

  /** The interpreter's loop. */
  function Run(fs: seq<FunctionData>, m: State, fuel: nat): Outcome<RunResult> {
    Loop(Iteration(fs), m, fuel)
  }

  /** One turn of the loop: a failed iteration fails the run, a `return` from the last frame finishes it. */
  lemma LoopTurn(step: State -> Outcome<Status>, m: State, fuel: nat)
    requires Available(m.code) != 0 && fuel > 0
    ensures step(m).Err? ==> Loop(step, m, fuel) == Err(step(m).error)
    ensures step(m).Ok? && step(m).value.Halted? ==> Loop(step, m, fuel) == Ok(Finished(step(m).value.state))
    ensures step(m).Ok? && step(m).value.Running? ==> Loop(step, m, fuel) == Loop(step, step(m).value.state, fuel - 1)
  {
  }

  /** The loop stops when the code is exhausted, or when the fuel is. */
  lemma LoopStops(step: State -> Outcome<Status>, m: State, fuel: nat)
    ensures Available(m.code) == 0 ==> Loop(step, m, fuel) == Ok(Finished(m))
    ensures Available(m.code) != 0 && fuel == 0 ==> Loop(step, m, fuel) == Ok(OutOfFuel(m))
  {
  }

  /** A run that ended (or failed) within `fuel` iterations ends the same way with more fuel. */
  lemma {:induction false} LoopMoreFuel(step: State -> Outcome<Status>, m: State, fuel: nat, extra: nat)
    requires Loop(step, m, fuel).Err? || Loop(step, m, fuel).value.Finished?
    ensures Loop(step, m, fuel + extra) == Loop(step, m, fuel)
    decreases fuel
  {
    if Available(m.code) != 0 && fuel > 0 {
      var s := step(m);
      if s.Ok? && s.value.Running? {
        LoopMoreFuel(step, s.value.state, fuel - 1, extra);
      }
    }
  }

  /** Running out of fuel after `fuel` iterations and going on for `more` is running for `fuel + more`. */
  lemma {:induction false} LoopResume(step: State -> Outcome<Status>, m: State, fuel: nat, more: nat)
    requires Loop(step, m, fuel).Ok? && Loop(step, m, fuel).value.OutOfFuel?
    ensures Loop(step, m, fuel + more) == Loop(step, Loop(step, m, fuel).value.state, more)
    decreases fuel
  {
    if fuel > 0 {
      LoopResume(step, step(m).value.state, fuel - 1, more);
    }
  }

  /** The arguments of `execute`, stored into slots `i`, `i + 1`, ... of the start function's frame. */
  function StoreParameters(f: Frame, parameters: seq<int32>, i: nat): (r: Outcome<Frame>)
    requires i <= |parameters| <= MAX_INT
    ensures r.Ok? <==> i == |parameters| || |parameters| <= |f.locals|
    ensures r.Err? ==> r.error == IndexOutOfBounds
    ensures r.Ok? ==> r.value == f.(locals := r.value.locals) && |r.value.locals| == |f.locals|
    ensures r.Ok? ==> forall k :: i <= k < |parameters| ==> r.value.locals[k] == Some(parameters[k])
    ensures r.Ok? ==> forall k :: 0 <= k < |f.locals| && !(i <= k < |parameters|) ==> r.value.locals[k] == f.locals[k]
    decreases |parameters| - i
  {
    if i == |parameters| then Ok(f)
    else
      var f1 :- SetLocal(f, parameters[i], i);
      StoreParameters(f1, parameters, i + 1)
  }

  /** The set-up before the loop: the start function's frame on top of the call stack, its code opened. */
  function Start(fs: seq<FunctionData>, startIndex: int32, parameters: seq<int32>,
                 ip: int, operands: seq<int32>, frames: seq<Frame>, memory: Option<Memory>): (r: Outcome<State>)
    requires |parameters| <= MAX_INT
    ensures !(0 <= startIndex < |fs|) ==> r == Err(IndexOutOfBounds)
    ensures r.Ok? <==> 0 <= startIndex < |fs| && |parameters| <= SlotCount(fs[startIndex]) && fs[startIndex].instructions.Some?
    ensures 0 <= startIndex < |fs| && SlotCount(fs[startIndex]) < 0 ==> r == Err(NegativeArraySize)
    ensures 0 <= startIndex < |fs| && 0 <= SlotCount(fs[startIndex]) < |parameters| ==> r == Err(IndexOutOfBounds)
    ensures r.Ok? ==> var top := r.value.frames[|r.value.frames| - 1];
      r.value.frames == frames + [top] && top == NewFrame(fs[startIndex], top.locals)
      && |top.locals| == SlotCount(fs[startIndex])
      && (forall k :: 0 <= k < |parameters| ==> top.locals[k] == Some(parameters[k]))
      && (forall k :: |parameters| <= k < |top.locals| ==> top.locals[k].None?)
      && r.value.ip == ip && r.value.operands == operands && r.value.memory == memory
      && r.value.code == Open(fs[startIndex].instructions.value)
  {
    if !(0 <= startIndex < |fs|) then Err(IndexOutOfBounds)
    else
      var func := fs[startIndex];
      var locals :- NewLocals(SlotCount(func));
      var frame :- StoreParameters(NewFrame(func, locals), parameters, 0);
      var code :- CodeOf(func);
      Ok(Machine(ip, operands, frames + [frame], Open(code), memory))
  }
}
