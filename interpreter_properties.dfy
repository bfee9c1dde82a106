/** What one iteration of the interpreter does for the instructions it implements, and how runs compose. */
module InterpreterProperties {
  import opened Wrappers
  import opened Exceptions
  import opened JavaInt
  import C = Constants
  import opened ByteStreams
  import Leb128
  import opened Functions
  import opened LinearMemories
  import opened ExecEnvFrames
  import I32
  import opened I32Instructions
  import opened Interpreter

  /** A frame that executes what it reads: no skip mode and no loop recorded or replayed. */
  predicate Plain(f: Frame) {
    !f.savedLoopExec && !f.skipLoopCode && !f.firstLoopExec && !f.skipCode
  }

  /** The code stream's next bytes are `bytes`. */
  predicate CodeStartsWith(s: Stream, bytes: seq<bv8>) {
    s.pos + |bytes| <= s.count && s.buf[s.pos..s.pos + |bytes|] == bytes
  }

  /** The stream moved `n` bytes on. */
  function Moved(s: Stream, n: nat): Stream
    requires s.pos + n <= s.count
  {
    s.(pos := s.pos + n)
  }

  /** In plain mode an iteration fetches the next byte of the code and dispatches on it. */
  lemma StepPlain(fs: seq<FunctionData>, m: State)
    requires Plain(Top(m)) && m.code.pos < m.code.count
    ensures Step(fs, m) == Dispatch(fs, m.(code := Moved(m.code, 1)), m.code.buf[m.code.pos])
  {
    var m1 := m.(code := Moved(m.code, 1));
    var op := m.code.buf[m.code.pos];
    assert Fetch(m) == Ok(Fetched(op, Top(m), m1.code, false));
    WithTopUnchanged(m1);
  }

  /** The numeric opcodes reach the numeric instructions. */
  lemma DispatchNumeric(fs: seq<FunctionData>, m: State, op: bv8)
    requires op == C.I32_EQZ || IsTest(op) || IsUnary(op) || IsBinary(op)
    ensures Dispatch(fs, m, op) == Numeric(m, op)
  {
    assert !IsVariable(op);
    assert !(IsLoad(op) || IsStore(op));
    assert !(op == C.CURRENT_MEMORY || op == C.GROW_MEMORY);
  }

  /** The opcodes the interpreter's `switch` has a case for. */
  predicate Implemented(op: bv8) {
    IsVariable(op) || IsLoad(op) || IsStore(op) || op == C.CURRENT_MEMORY || op == C.GROW_MEMORY
    || op == C.I32_EQZ || IsTest(op) || IsUnary(op) || IsBinary(op)
    || op in {C.UNREACHABLE, C.NOP, C.DROP, 0x7F, C.BLOCK, C.LOOP, C.BR_IF, C.ELSE, C.IF, C.CALL, C.RETURN, C.END, C.END_OF_STREAM}
  }

  /** In plain mode, an opcode without a case in the `switch` stops execution with an invalid-instruction parser exception. */
  lemma InvalidOpcodeTraps(fs: seq<FunctionData>, m: State)
    requires Plain(Top(m)) && m.code.pos < m.code.count && !Implemented(m.code.buf[m.code.pos])
    ensures Step(fs, m) == Err(ParserException(InvalidInstruction))
  {
    StepPlain(fs, m);
  }

  /** Popping twice from a stack that ends with `first, second`. */
  lemma PopTwo(rest: seq<int32>, first: int32, second: int32)
    ensures Pop(rest + [first, second]) == Ok((second, rest + [first]))
    ensures Pop(rest + [first]) == Ok((first, rest))
  {
    assert (rest + [first, second])[..|rest| + 1] == rest + [first];
    assert (rest + [first])[..|rest|] == rest;
  }

  /** A binary operator, once dispatched, pops its two operands and pushes its result. */
  lemma NumericBinary(m: State, op: bv8, rest: seq<int32>, first: int32, second: int32)
    requires IsBinary(op) && m.operands == rest + [first, second] && BinaryAsWritten(op, first, second).Ok?
    ensures Numeric(m, op) == Ok(Running(m.(operands := rest + [BinaryAsWritten(op, first, second).value], ip := m.ip + 1)))
  {
    PopTwo(rest, first, second);
  }

  /** A binary operator, once dispatched, fails as its operator does. */
  lemma NumericBinaryFails(m: State, op: bv8, rest: seq<int32>, first: int32, second: int32)
    requires IsBinary(op) && m.operands == rest + [first, second] && BinaryAsWritten(op, first, second).Err?
    ensures Numeric(m, op) == Err(DivisionByZero)
  {
    PopTwo(rest, first, second);
  }

  /** A binary operator pops its two operands and pushes its result as the dispatch computes it, or fails on a zero divisor. */
  lemma BinaryStep(fs: seq<FunctionData>, m: State, op: bv8, rest: seq<int32>, first: int32, second: int32)
    requires Plain(Top(m)) && IsBinary(op) && CodeStartsWith(m.code, [op])
    requires m.operands == rest + [first, second]
    ensures BinaryAsWritten(op, first, second).Err? ==> Step(fs, m) == Err(DivisionByZero)
    ensures BinaryAsWritten(op, first, second).Ok? ==>
      Step(fs, m) == Ok(Running(m.(operands := rest + [BinaryAsWritten(op, first, second).value], ip := m.ip + 1, code := Moved(m.code, 1))))
  {
    assert m.code.buf[m.code.pos] == op by {
      assert m.code.buf[m.code.pos..m.code.pos + 1][0] == op;
    }
    StepPlain(fs, m);
    var m1 := m.(code := Moved(m.code, 1));
    DispatchNumeric(fs, m1, op);
    if BinaryAsWritten(op, first, second).Ok? {
      NumericBinary(m1, op, rest, first, second);
    } else {
      NumericBinaryFails(m1, op, rest, first, second);
    }
  }

  /**
   * A shift or rotate executed by the interpreter shifts the top operand by the one below it:
   * with `first` pushed before `second`, the result is `second` shifted by `first`.
   */
  lemma ShiftStepSwapped(fs: seq<FunctionData>, m: State, op: bv8, rest: seq<int32>, first: int32, second: int32)
    requires Plain(Top(m)) && IsShift(op) && CodeStartsWith(m.code, [op])
    requires m.operands == rest + [first, second]
    ensures Step(fs, m) == Ok(Running(m.(operands := rest + [Shift(op, second, first)], ip := m.ip + 1, code := Moved(m.code, 1))))
  {
    BinaryStep(fs, m, op, rest, first, second);
  }

  /** A test pops its two operands and pushes 1 when its relation holds between them in push order, 0 otherwise. */
  lemma TestStep(fs: seq<FunctionData>, m: State, op: bv8, rest: seq<int32>, first: int32, second: int32)
    requires Plain(Top(m)) && IsTest(op) && CodeStartsWith(m.code, [op])
    requires m.operands == rest + [first, second]
    ensures Step(fs, m) == Ok(Running(m.(operands := rest + [if Relation(op, first, second) then 1 else 0],
                                        ip := m.ip + 1, code := Moved(m.code, 1))))
  {
    assert m.code.buf[m.code.pos] == op by {
      assert m.code.buf[m.code.pos..m.code.pos + 1][0] == op;
    }
    StepPlain(fs, m);
    var m1 := m.(code := Moved(m.code, 1));
    DispatchNumeric(fs, m1, op);
    NumericTest(m1, op, rest, first, second);
    TestDecidesRelation(op, first, second);
  }

  /**
   * `i32.eqz` and the bit counts pop one operand and push one result, one byte further on;
   * on an empty operand stack they fail.
   */
  lemma OneOperandStep(fs: seq<FunctionData>, m: State, op: bv8)
    requires Plain(Top(m)) && (op == C.I32_EQZ || IsUnary(op)) && CodeStartsWith(m.code, [op])
    ensures m.operands == [] ==> Step(fs, m) == Err(EmptyStack)
    ensures m.operands != [] ==>
      var x := m.operands[|m.operands| - 1];
      var v: int32 := if op == C.I32_EQZ then Eqz(x) else Unary(op, x);
      Step(fs, m) == Ok(Running(m.(operands := m.operands[..|m.operands| - 1] + [v],
                                   ip := m.ip + 1, code := Moved(m.code, 1))))
  {
    assert m.code.buf[m.code.pos] == op by {
      assert m.code.buf[m.code.pos..m.code.pos + 1][0] == op;
    }
    var m1 := m.(code := Moved(m.code, 1));
    StepPlain(fs, m);
    DispatchNumeric(fs, m1, op);
    if m.operands != [] {
      var rest := m.operands[..|m.operands| - 1];
      assert m.operands == rest + [m.operands[|m.operands| - 1]];
      NumericOneOperand(m1, op, rest, m.operands[|m.operands| - 1]);
    }
  }

  /** `i32.eqz` or a bit count, once dispatched, pops its operand and pushes its result. */
  lemma NumericOneOperand(m: State, op: bv8, rest: seq<int32>, x: int32)
    requires (op == C.I32_EQZ || IsUnary(op)) && m.operands == rest + [x]
    ensures var v: int32 := if op == C.I32_EQZ then Eqz(x) else Unary(op, x);
      Numeric(m, op) == Ok(Running(m.(operands := rest + [v], ip := m.ip + 1)))
  {
    assert Pop(m.operands) == Ok((x, rest));
  }

  /** `i32.eqz` pushes 1 when the popped operand is zero and 0 otherwise; on an empty operand stack it fails. */
  lemma EqzStep(fs: seq<FunctionData>, m: State)
    requires Plain(Top(m)) && CodeStartsWith(m.code, [C.I32_EQZ])
    ensures m.operands == [] ==> Step(fs, m) == Err(EmptyStack)
    ensures m.operands != [] ==>
      var x := m.operands[|m.operands| - 1];
      Step(fs, m) == Ok(Running(m.(operands := m.operands[..|m.operands| - 1] + [if x == 0 then 1 else 0],
                                   ip := m.ip + 1, code := Moved(m.code, 1))))
  {
    OneOperandStep(fs, m, C.I32_EQZ);
  }

  /** `i32.clz` pushes the popped operand's number of leading zero bits; on an empty operand stack it fails. */
  lemma ClzStep(fs: seq<FunctionData>, m: State)
    requires Plain(Top(m)) && CodeStartsWith(m.code, [C.I32_CLZ])
    ensures m.operands == [] ==> Step(fs, m) == Err(EmptyStack)
    ensures m.operands != [] ==>
      var x := m.operands[|m.operands| - 1];
      Step(fs, m) == Ok(Running(m.(operands := m.operands[..|m.operands| - 1] + [I32.Clz(x)],
                                   ip := m.ip + 1, code := Moved(m.code, 1))))
  {
    OneOperandStep(fs, m, C.I32_CLZ);
  }

  /** `i32.ctz` pushes the popped operand's number of trailing zero bits; on an empty operand stack it fails. */
  lemma CtzStep(fs: seq<FunctionData>, m: State)
    requires Plain(Top(m)) && CodeStartsWith(m.code, [C.I32_CTZ])
    ensures m.operands == [] ==> Step(fs, m) == Err(EmptyStack)
    ensures m.operands != [] ==>
      var x := m.operands[|m.operands| - 1];
      Step(fs, m) == Ok(Running(m.(operands := m.operands[..|m.operands| - 1] + [I32.Ctz(x)],
                                   ip := m.ip + 1, code := Moved(m.code, 1))))
  {
    OneOperandStep(fs, m, C.I32_CTZ);
  }

  /** `i32.popcnt` pushes the popped operand's number of one bits; on an empty operand stack it fails. */
  lemma PopcntStep(fs: seq<FunctionData>, m: State)
    requires Plain(Top(m)) && CodeStartsWith(m.code, [C.I32_POPCNT])
    ensures m.operands == [] ==> Step(fs, m) == Err(EmptyStack)
    ensures m.operands != [] ==>
      var x := m.operands[|m.operands| - 1];
      Step(fs, m) == Ok(Running(m.(operands := m.operands[..|m.operands| - 1] + [I32.Popcnt(x)],
                                   ip := m.ip + 1, code := Moved(m.code, 1))))
  {
    OneOperandStep(fs, m, C.I32_POPCNT);
  }

  /** A test or a binary operator with fewer than two operands on the stack fails on the missing pop. */
  lemma TwoOperandsMissing(fs: seq<FunctionData>, m: State, op: bv8)
    requires Plain(Top(m)) && (IsTest(op) || IsBinary(op)) && CodeStartsWith(m.code, [op])
    requires |m.operands| < 2
    ensures Step(fs, m) == Err(EmptyStack)
  {
    assert m.code.buf[m.code.pos] == op by {
      assert m.code.buf[m.code.pos..m.code.pos + 1][0] == op;
    }
    StepPlain(fs, m);
    DispatchNumeric(fs, m.(code := Moved(m.code, 1)), op);
    assert op != C.I32_EQZ && !IsUnary(op);
  }

  /** A test, once dispatched, pops its two operands and pushes its outcome. */
  lemma NumericTest(m: State, op: bv8, rest: seq<int32>, first: int32, second: int32)
    requires IsTest(op) && m.operands == rest + [first, second]
    ensures Numeric(m, op) == Ok(Running(m.(operands := rest + [Test(op, first, second)], ip := m.ip + 1)))
  {
    PopTwo(rest, first, second);
    assert op != C.I32_EQZ && !IsUnary(op);
  }

  /** `unreachable` traps. */
  lemma UnreachableTraps(fs: seq<FunctionData>, m: State)
    requires Plain(Top(m)) && CodeStartsWith(m.code, [C.UNREACHABLE])
    ensures Step(fs, m) == Err(ParserException(ReachedUnreachable))
  {
    assert m.code.buf[m.code.pos] == C.UNREACHABLE;
  }

  /** Reading past the end of the code gives the byte -1, which the dispatch rejects. */
  lemma EndOfCodeTraps(fs: seq<FunctionData>, m: State)
    requires Plain(Top(m)) && m.code.pos >= m.code.count
    ensures Step(fs, m) == Err(ParserException(UnexpectedEndOfFile))
  {
  }

  /** `return` from the only frame ends execution exactly when the values above the frame's base are as many as the function returns. */
  lemma ReturnFromLastFrame(fs: seq<FunctionData>, m: State)
    requires Plain(Top(m)) && |m.frames| == 1 && CodeStartsWith(m.code, [C.RETURN])
    ensures var expected := Top(m).func.returnValueCount;
      var actual := Wrap(|m.operands| - Top(m).operandStackBase);
      && (expected == actual ==> Step(fs, m) == Ok(Halted(m.(code := Moved(m.code, 1)))))
      && (expected != actual ==> Step(fs, m) == Err(ParserException(WrongReturnValueCount(expected, actual))))
  {
    assert m.code.buf[m.code.pos] == C.RETURN;
    WithTopUnchanged(m.(code := Moved(m.code, 1)));
  }

  /** A stream that starts with `op` and then `rest`: its next byte is `op`, and one byte on it starts with `rest`. */
  lemma Behead(s: Stream, op: bv8, rest: seq<bv8>)
    requires CodeStartsWith(s, [op] + rest)
    ensures s.pos < s.count && s.buf[s.pos] == op
    ensures CodeStartsWith(Moved(s, 1), rest)
  {
    assert s.buf[s.pos..s.pos + 1 + |rest|][0] == op;
    assert s.buf[s.pos + 1..s.pos + 1 + |rest|] == s.buf[s.pos..s.pos + 1 + |rest|][1..];
  }

  /** An instruction followed by the LEB128 encoding of `b`: its immediate decodes back to `b`, and is as long as `unsignedLeb128Size` says. */
  lemma ImmediateDecodes(s: Stream, op: bv8, b: bv32)
    requires b < 0x8000_0000
    requires CodeStartsWith(s, [op] + Leb128.Encode(b))
    ensures s.pos < s.count && s.buf[s.pos] == op
    ensures Leb128.Size(b).Ok? && s.pos + 1 + Leb128.Size(b).value <= s.count
    ensures Leb128.DecodeUnsigned(Moved(s, 1)).Ok?
    ensures Leb128.DecodeUnsigned(Moved(s, 1)).value.0 == b
    ensures Leb128.DecodeUnsigned(Moved(s, 1)).value.1 == Moved(s, 1 + Leb128.Size(b).value)
  {
    var e := Leb128.Encode(b);
    Behead(s, op, e);
    Leb128.DecodeEncode(b, Moved(s, 1));
    Leb128.EncodedLength(b);
  }

  /** In plain mode an immediate comes from the code: the value of the encoded `b` read as an `int`, and its size. */
  lemma PlainImmediate(f: Frame, s: Stream, b: bv32, rest: Stream)
    requires Plain(f) && b < 0x8000_0000
    requires Leb128.DecodeUnsigned(s).Ok?
    requires Leb128.DecodeUnsigned(s).value.0 == b && Leb128.DecodeUnsigned(s).value.1 == rest
    ensures ReadLoopSave(f, s).Ok?
    ensures ReadLoopSave(f, s).value.0 == Signed(b) && ReadLoopSave(f, s).value.1 == f && ReadLoopSave(f, s).value.2 == rest
    ensures LebSize(Signed(b)).Ok? && Leb128.Size(b).Ok? && LebSize(Signed(b)).value == Leb128.Size(b).value
  {
    SignedBits(b);
  }

  /** The immediate an instruction reads in plain mode: `p`, taking `n` bytes, with `rest` of the code after it. */
  predicate ImmediateIs(m: State, p: int32, n: nat, rest: Stream) {
    && ReadLoopSave(Top(m), m.code).Ok?
    && ReadLoopSave(Top(m), m.code).value.0 == p
    && ReadLoopSave(Top(m), m.code).value.1 == Top(m)
    && ReadLoopSave(Top(m), m.code).value.2 == rest
    && LebSize(p).Ok? && LebSize(p).value == n
  }

  /** `m` with its top frame, operand stack, instruction pointer and code replaced; the rest of the call stack and the memory are kept. */
  function Updated(m: State, f: Frame, operands: seq<int32>, ip: int, code: Stream): (r: State)
    ensures Top(r) == f && r.frames[..|r.frames| - 1] == m.frames[..|m.frames| - 1]
  {
    Machine(ip, operands, m.frames[..|m.frames| - 1] + [f], code, m.memory)
  }

  /** `i32.const` once its immediate is read. */
  lemma ConstDecoded(m: State, p: int32, n: nat, rest: Stream)
    requires ImmediateIs(m, p, n, rest)
    ensures Variable(m, C.I32_CONST).Ok? && Variable(m, C.I32_CONST).value.Running?
    ensures Variable(m, C.I32_CONST).value.state == m.(operands := m.operands + [p], ip := m.ip + n + 1, code := rest)
  {
    WithTopUnchanged(m.(code := rest));
  }

  /** `i32.const` pushes the value its LEB128 immediate encodes and moves past the immediate. */
  lemma ConstStep(fs: seq<FunctionData>, m: State, b: bv32)
    requires Plain(Top(m)) && b < 0x8000_0000
    requires CodeStartsWith(m.code, [C.I32_CONST] + Leb128.Encode(b))
    ensures Leb128.Size(b).Ok? && m.code.pos + 1 + Leb128.Size(b).value <= m.code.count
    ensures Step(fs, m).Ok? && Step(fs, m).value.Running?
    ensures var n := Leb128.Size(b).value;
      Step(fs, m).value.state == m.(operands := m.operands + [Signed(b)], ip := m.ip + n + 1, code := Moved(m.code, n + 1))
  {
    ImmediateDecodes(m.code, C.I32_CONST, b);
    var m1 := m.(code := Moved(m.code, 1));
    var rest := Moved(m.code, 1 + Leb128.Size(b).value);
    PlainImmediate(Top(m1), m1.code, b, rest);
    ConstDecoded(m1, Signed(b), Leb128.Size(b).value, rest);
    StepPlain(fs, m);
    assert Dispatch(fs, m1, C.I32_CONST) == Variable(m1, C.I32_CONST);
  }

  /** `get_local` once its immediate is read. */
  lemma GetLocalDecoded(m: State, p: int32, n: nat, rest: Stream)
    requires ImmediateIs(m, p, n, rest)
    ensures var v := GetLocal(Top(m), p);
      && (Variable(m, C.GET_LOCAL).Err? <==> v.Err?)
      && (v.Err? ==> Variable(m, C.GET_LOCAL).error == v.error)
      && (v.Ok? ==> (Variable(m, C.GET_LOCAL).value.Running?
            && Variable(m, C.GET_LOCAL).value.state == m.(operands := m.operands + [v.value], ip := m.ip + n + 1, code := rest)))
  {
    WithTopUnchanged(m.(code := rest));
  }

  /** `get_local` pushes the value of the slot its immediate names; an unset slot is a null pointer and a slot out of range an index error. */
  lemma GetLocalStep(fs: seq<FunctionData>, m: State, b: bv32)
    requires Plain(Top(m)) && b < 0x8000_0000
    requires CodeStartsWith(m.code, [C.GET_LOCAL] + Leb128.Encode(b))
    ensures Leb128.Size(b).Ok? && m.code.pos + 1 + Leb128.Size(b).value <= m.code.count
    ensures var v := GetLocal(Top(m), Signed(b));
      && (Step(fs, m).Err? <==> v.Err?)
      && (v.Err? ==> Step(fs, m).error == v.error)
      && (v.Ok? ==> (Step(fs, m).value.Running?
            && var n := Leb128.Size(b).value;
               Step(fs, m).value.state == m.(operands := m.operands + [v.value], ip := m.ip + n + 1, code := Moved(m.code, n + 1))))
  {
    ImmediateDecodes(m.code, C.GET_LOCAL, b);
    var m1 := m.(code := Moved(m.code, 1));
    var rest := Moved(m.code, 1 + Leb128.Size(b).value);
    PlainImmediate(Top(m1), m1.code, b, rest);
    GetLocalDecoded(m1, Signed(b), Leb128.Size(b).value, rest);
    StepPlain(fs, m);
    assert Dispatch(fs, m1, C.GET_LOCAL) == Variable(m1, C.GET_LOCAL);
  }

  /** `set_local` once its immediate is read. */
  lemma SetLocalDecoded(m: State, p: int32, n: nat, rest: Stream, below: seq<int32>, v: int32)
    requires ImmediateIs(m, p, n, rest) && m.operands == below + [v]
    ensures var f := SetLocal(Top(m), v, p);
      && (Variable(m, C.SET_LOCAL).Err? <==> f.Err?)
      && (f.Err? ==> Variable(m, C.SET_LOCAL).error == IndexOutOfBounds)
      && (f.Ok? ==> (Variable(m, C.SET_LOCAL).value.Running?
            && Variable(m, C.SET_LOCAL).value.state == Updated(m, f.value, below, m.ip + n + 1, rest)))
  {
    var m1 := WithTop(m, Top(m)).(code := rest);
    assert m1.operands[..|m1.operands| - 1] == below;
    var f := SetLocal(Top(m), v, p);
    if f.Ok? {
      WithTopTwice(m, Top(m), f.value);
    }
  }

  /** `set_local` pops the top of the stack into the slot its immediate names. */
  lemma SetLocalStep(fs: seq<FunctionData>, m: State, b: bv32, below: seq<int32>, v: int32)
    requires Plain(Top(m)) && b < 0x8000_0000 && m.operands == below + [v]
    requires CodeStartsWith(m.code, [C.SET_LOCAL] + Leb128.Encode(b))
    ensures Leb128.Size(b).Ok? && m.code.pos + 1 + Leb128.Size(b).value <= m.code.count
    ensures var f := SetLocal(Top(m), v, Signed(b));
      && (Step(fs, m).Err? <==> f.Err?)
      && (f.Err? ==> Step(fs, m).error == IndexOutOfBounds)
      && (f.Ok? ==> (Step(fs, m).value.Running?
            && var n := Leb128.Size(b).value;
               Step(fs, m).value.state == Updated(m, f.value, below, m.ip + n + 1, Moved(m.code, n + 1))))
  {
    ImmediateDecodes(m.code, C.SET_LOCAL, b);
    var m1 := m.(code := Moved(m.code, 1));
    var rest := Moved(m.code, 1 + Leb128.Size(b).value);
    PlainImmediate(Top(m1), m1.code, b, rest);
    SetLocalDecoded(m1, Signed(b), Leb128.Size(b).value, rest, below, v);
    StepPlain(fs, m);
    assert Dispatch(fs, m1, C.SET_LOCAL) == Variable(m1, C.SET_LOCAL);
  }

  /** `tee_local` once its immediate is read. */
  lemma TeeLocalDecoded(m: State, p: int32, n: nat, rest: Stream, v: int32)
    requires ImmediateIs(m, p, n, rest) && m.operands != [] && m.operands[|m.operands| - 1] == v
    ensures Variable(m, C.TEE_LOCAL).Err? <==> SetLocal(Top(m), v, p).Err?
    ensures Variable(m, C.TEE_LOCAL).Err? ==> Variable(m, C.TEE_LOCAL).error == IndexOutOfBounds
    ensures SetLocal(Top(m), v, p).Ok? ==>
      && Variable(m, C.TEE_LOCAL).value.Running?
      && Variable(m, C.TEE_LOCAL).value.state == Updated(m, SetLocal(Top(m), v, p).value, m.operands, m.ip + n + 1, rest)
  {
    assert ReadLoopSave(Top(m), m.code) == Ok((p, Top(m), rest));
    assert LebSize(p) == Ok(n);
    var m1 := WithTop(m, Top(m)).(code := rest);
    assert Peek(m1.operands) == Ok(v);
    var f := SetLocal(Top(m), v, p);
    if f.Ok? {
      WithTopTwice(m, Top(m), f.value);
      assert Variable(m, C.TEE_LOCAL) == Next(WithTop(m1, f.value).(ip := m1.ip + n));
    } else {
      assert Variable(m, C.TEE_LOCAL) == Err(IndexOutOfBounds);
    }
  }

  /** `tee_local` copies the top of the stack into the slot its immediate names and leaves the stack as it was. */
  lemma TeeLocalStep(fs: seq<FunctionData>, m: State, b: bv32, v: int32)
    requires Plain(Top(m)) && b < 0x8000_0000 && m.operands != [] && m.operands[|m.operands| - 1] == v
    requires CodeStartsWith(m.code, [C.TEE_LOCAL] + Leb128.Encode(b))
    ensures Leb128.Size(b).Ok? && m.code.pos + 1 + Leb128.Size(b).value <= m.code.count
    ensures Step(fs, m).Err? <==> SetLocal(Top(m), v, Signed(b)).Err?
    ensures Step(fs, m).Err? ==> Step(fs, m).error == IndexOutOfBounds
    ensures SetLocal(Top(m), v, Signed(b)).Ok? ==>
      var n := Leb128.Size(b).value;
      && Step(fs, m).value.Running?
      && Step(fs, m).value.state == Updated(m, SetLocal(Top(m), v, Signed(b)).value, m.operands, m.ip + n + 1, Moved(m.code, n + 1))
  {
    ImmediateDecodes(m.code, C.TEE_LOCAL, b);
    var m1 := m.(code := Moved(m.code, 1));
    var rest := Moved(m.code, 1 + Leb128.Size(b).value);
    PlainImmediate(Top(m1), m1.code, b, rest);
    TeeLocalDecoded(m1, Signed(b), Leb128.Size(b).value, rest, v);
    StepPlain(fs, m);
    assert Dispatch(fs, m1, C.TEE_LOCAL) == Variable(m1, C.TEE_LOCAL);
  }

  // ---------------------------------------------------------------------------------------------
  // Blocks and the `if`/`else` skip mode.

  /** The control opcodes, `unreachable` to `drop`, reach the control instructions. */
  lemma DispatchControl(fs: seq<FunctionData>, m: State, op: bv8)
    requires op <= C.DROP
    ensures Dispatch(fs, m, op) == Control(fs, m, op)
  {
    assert !IsVariable(op) && !IsLoad(op) && !IsStore(op);
    assert !IsTest(op) && !IsUnary(op) && !IsBinary(op);
  }

  /** `if` in plain mode, once its opcode is read. */
  lemma IfFetched(m: State, below: seq<int32>, c: int32)
    requires Plain(Top(m)) && m.operands == below + [c] && m.code.pos < m.code.count
    ensures If(m).Ok? && If(m).value.Running?
    ensures var f := Top(m);
      If(m).value.state == WithTop(m, f.(endStack := f.endStack + [IF], ifDepth := Wrap(f.ifDepth + 1), ifBranch := c != 0, skipCode := c == 0))
                             .(operands := below, ip := m.ip + 1, code := Moved(m.code, 1))
  {
    assert m.operands[..|m.operands| - 1] == below;
  }

  /**
   * `if` pops its condition and opens a block: a non-zero condition runs the `then` branch, a zero
   * one skips to the `else`. The block-type byte after the opcode is read and ignored. When the
   * if-depth counted the open blocks before, it still does.
   */
  lemma IfStep(fs: seq<FunctionData>, m: State, blockType: bv8, below: seq<int32>, c: int32)
    requires Plain(Top(m)) && CodeStartsWith(m.code, [C.IF, blockType]) && m.operands == below + [c]
    ensures Step(fs, m).Ok? && Step(fs, m).value.Running?
    ensures var f := Top(m);
      Step(fs, m).value.state == WithTop(m, f.(endStack := f.endStack + [IF], ifDepth := Wrap(f.ifDepth + 1), ifBranch := c != 0, skipCode := c == 0))
                                   .(operands := below, ip := m.ip + 1, code := Moved(m.code, 2))
    ensures var f := Top(m); var g := Top(Step(fs, m).value.state);
      f.ifDepth == |f.endStack| < MAX_INT ==> g.ifDepth == |g.endStack|
  {
    Behead(m.code, C.IF, [blockType]);
    var m1 := m.(code := Moved(m.code, 1));
    IfFetched(m1, below, c);
    StepPlain(fs, m);
    DispatchControl(fs, m1, C.IF);
  }

  /** `else` reached while running the `then` branch: the rest of the `if` is skipped. */
  lemma ElseStep(fs: seq<FunctionData>, m: State)
    requires Plain(Top(m)) && CodeStartsWith(m.code, [C.ELSE])
    ensures Step(fs, m).Ok? && Step(fs, m).value.Running?
    ensures Step(fs, m).value.state == WithTop(m, Top(m).(skipCode := true)).(ip := m.ip + 1, code := Moved(m.code, 1))
  {
    Behead(m.code, C.ELSE, []);
    StepPlain(fs, m);
    DispatchControl(fs, m.(code := Moved(m.code, 1)), C.ELSE);
  }

  /** `block` pushes its end marker; nothing else changes. */
  lemma BlockStep(fs: seq<FunctionData>, m: State)
    requires Plain(Top(m)) && CodeStartsWith(m.code, [C.BLOCK])
    ensures Step(fs, m).Ok? && Step(fs, m).value.Running?
    ensures Step(fs, m).value.state == WithTop(m, PushEnd(Top(m), BLOCK)).(ip := m.ip + 1, code := Moved(m.code, 1))
  {
    Behead(m.code, C.BLOCK, []);
    StepPlain(fs, m);
    DispatchControl(fs, m.(code := Moved(m.code, 1)), C.BLOCK);
  }

  /** `loop` pushes its end marker and starts recording the loop's first run at the current instruction pointer. */
  lemma LoopStep(fs: seq<FunctionData>, m: State)
    requires Plain(Top(m)) && CodeStartsWith(m.code, [C.LOOP])
    ensures Step(fs, m).Ok? && Step(fs, m).value.Running?
    ensures Step(fs, m).value.state ==
      WithTop(m, PushEnd(Top(m), LOOP).(firstLoopExec := true, savedLoopExec := false, loopBeginInstructionPointer := m.ip))
        .(ip := m.ip + 1, code := Moved(m.code, 1))
  {
    Behead(m.code, C.LOOP, []);
    StepPlain(fs, m);
    DispatchControl(fs, m.(code := Moved(m.code, 1)), C.LOOP);
  }

  /** `nop` and `drop` (whose pop is commented out) change nothing but the position. */
  lemma NoOperationStep(fs: seq<FunctionData>, m: State, op: bv8)
    requires op == C.NOP || op == C.DROP
    requires Plain(Top(m)) && CodeStartsWith(m.code, [op])
    ensures Step(fs, m).Ok? && Step(fs, m).value.Running?
    ensures Step(fs, m).value.state == m.(ip := m.ip + 1, code := Moved(m.code, 1))
  {
    Behead(m.code, op, []);
    StepPlain(fs, m);
    DispatchControl(fs, m.(code := Moved(m.code, 1)), op);
  }

  /** The frame skips the branch of an `if` not taken, outside any loop bookkeeping. */
  predicate Skipping(f: Frame) {
    f.skipCode && !f.savedLoopExec && !f.skipLoopCode && !f.firstLoopExec
  }

  /** In skip mode an iteration reads the next byte of the code and hands it to the skip mode. */
  lemma StepSkipping(fs: seq<FunctionData>, m: State)
    requires Skipping(Top(m)) && m.code.pos < m.code.count
    ensures Step(fs, m) == SkipCode(m.(code := Moved(m.code, 1)), Top(m), m.code.buf[m.code.pos])
  {
    var m1 := m.(code := Moved(m.code, 1));
    assert Fetch(m) == Ok(Fetched(m.code.buf[m.code.pos], Top(m), m1.code, false));
  }

  /** While skipping, a block-opening instruction only pushes its marker, so that its `end` is not taken for the `if`'s. */
  lemma SkipTracksBlocks(fs: seq<FunctionData>, m: State, op: bv8)
    requires Skipping(Top(m)) && OpensBlock(op) && CodeStartsWith(m.code, [op])
    ensures Step(fs, m).Ok? && Step(fs, m).value.Running?
    ensures Step(fs, m).value.state == WithTop(m, PushEnd(Top(m), Marker(op))).(ip := m.ip + 1, code := Moved(m.code, 1))
  {
    Behead(m.code, op, []);
    StepSkipping(fs, m);
  }

  /** While skipping, an instruction that neither opens nor closes a block is passed over. */
  lemma SkipPassesOver(fs: seq<FunctionData>, m: State, op: bv8)
    requires Skipping(Top(m)) && !OpensBlock(op) && op != C.ELSE && op != C.END && CodeStartsWith(m.code, [op])
    ensures Step(fs, m).Ok? && Step(fs, m).value.Running?
    ensures Step(fs, m).value.state == m.(ip := m.ip + 1, code := Moved(m.code, 1))
  {
    Behead(m.code, op, []);
    StepSkipping(fs, m);
    WithTopUnchanged(m.(code := Moved(m.code, 1)));
  }

  /** The `else` of the `if` whose condition was zero, at that `if`'s depth, resumes execution. */
  lemma ElseResumes(fs: seq<FunctionData>, m: State)
    requires Skipping(Top(m)) && !Top(m).ifBranch && |Top(m).endStack| == Top(m).ifDepth
    requires CodeStartsWith(m.code, [C.ELSE])
    ensures Step(fs, m).Ok? && Step(fs, m).value.Running?
    ensures Step(fs, m).value.state == WithTop(m, Top(m).(skipCode := false)).(ip := m.ip + 1, code := Moved(m.code, 1))
  {
    Behead(m.code, C.ELSE, []);
    StepSkipping(fs, m);
  }

  /** The `end` of the `if` whose `then` branch ran closes it: execution resumes and the if-depth drops. */
  lemma TakenBranchEnds(fs: seq<FunctionData>, m: State)
    requires Skipping(Top(m)) && Top(m).ifBranch && |Top(m).endStack| == Top(m).ifDepth > 0
    requires CodeStartsWith(m.code, [C.END])
    ensures Step(fs, m).Ok? && Step(fs, m).value.Running?
    ensures var f := Top(m);
      Step(fs, m).value.state == WithTop(m, f.(skipCode := false, endStack := f.endStack[..|f.endStack| - 1], ifDepth := f.ifDepth - 1))
                                   .(ip := m.ip + 1, code := Moved(m.code, 1))
  {
    Behead(m.code, C.END, []);
    StepSkipping(fs, m);
    WithTopTwice(m.(code := Moved(m.code, 1)), Top(m), Top(m));
  }

  /** While skipping, an `end` with no open block left ends execution. */
  lemma SkippedEndOfCodeHalts(fs: seq<FunctionData>, m: State)
    requires Skipping(Top(m)) && Top(m).endStack == [] && !(Top(m).ifBranch && Top(m).ifDepth == 0)
    requires CodeStartsWith(m.code, [C.END])
    ensures Step(fs, m) == Ok(Halted(m.(code := Moved(m.code, 1))))
  {
    Behead(m.code, C.END, []);
    StepSkipping(fs, m);
    WithTopUnchanged(m.(code := Moved(m.code, 1)));
  }

  // ---------------------------------------------------------------------------------------------
  // Leaving a loop with `br_if`.

  /** A loop running for the first time, outside any skip mode. */
  predicate FirstRun(f: Frame) {
    f.firstLoopExec && !f.savedLoopExec && !f.skipLoopCode && !f.skipCode
  }

  /**
   * `br_if` in a loop's first run records itself and its depth byte; a non-zero condition is
   * popped, the recorded loop is forgotten and the loop is skipped, while a zero condition is
   * left on the stack and the loop goes on.
   */
  lemma BrIfFirstRun(fs: seq<FunctionData>, m: State, depth: bv8, below: seq<int32>, condition: int32)
    requires FirstRun(Top(m)) && CodeStartsWith(m.code, [C.BR_IF, depth]) && m.operands == below + [condition]
    ensures Step(fs, m).Ok? && Step(fs, m).value.Running?
    ensures var f := Top(m).(loopQueue := Top(m).loopQueue + [C.BR_IF, depth]);
      condition != 0 ==>
        Step(fs, m).value.state == WithTop(m, LoopCleared(f).(skipLoopCode := true)).(operands := below, ip := m.ip + 1, code := Moved(m.code, 2))
    ensures var f := Top(m).(loopQueue := Top(m).loopQueue + [C.BR_IF, depth]);
      condition == 0 ==> Step(fs, m).value.state == WithTop(m, f).(ip := m.ip + 1, code := Moved(m.code, 2))
  {
    Behead(m.code, C.BR_IF, [depth]);
    Behead(Moved(m.code, 1), depth, []);
    var m1 := m.(code := Moved(m.code, 1));
    var f1 := EnqueueOpcode(Top(m), C.BR_IF);
    StepFirstRun(fs, m);
    DispatchControl(fs, WithTop(m1, f1), C.BR_IF);
    assert ReadOpcode(m1.code) == (depth, Moved(m.code, 2));
    assert EnqueueOpcode(f1, depth) == Top(m).(loopQueue := Top(m).loopQueue + [C.BR_IF, depth]);
    assert (below + [condition])[..|below|] == below;
    WithTopTwice(m1, f1, EnqueueOpcode(f1, depth));
    WithTopTwice(m1, f1, LoopCleared(EnqueueOpcode(f1, depth)).(skipLoopCode := true));
  }

  /** In a loop's first run, an opcode other than `end` is read, recorded and dispatched. */
  lemma StepFirstRun(fs: seq<FunctionData>, m: State)
    requires FirstRun(Top(m)) && m.code.pos < m.code.count && m.code.buf[m.code.pos] != C.END
    ensures var op := m.code.buf[m.code.pos];
      Step(fs, m) == Dispatch(fs, WithTop(m.(code := Moved(m.code, 1)), EnqueueOpcode(Top(m), op)), op)
  {
    var op := m.code.buf[m.code.pos];
    assert Fetch(m) == Ok(Fetched(op, EnqueueOpcode(Top(m), op), Moved(m.code, 1), false));
  }

  /** While a loop left by `br_if` is skipped, a block-opening instruction pushes its marker. */
  lemma SkipLoopTracksBlocks(fs: seq<FunctionData>, m: State, op: bv8)
    requires Top(m).skipLoopCode && OpensBlock(op) && CodeStartsWith(m.code, [op])
    ensures Step(fs, m) == Ok(Running(WithTop(m, PushEnd(Top(m), Marker(op))).(ip := m.ip + 1, code := Moved(m.code, 1))))
  {
    Behead(m.code, op, []);
    assert Fetch(m) == Ok(Fetched(op, Top(m), Moved(m.code, 1), false));
  }

  /** While a loop is skipped, an instruction that neither opens nor closes a block is passed over. */
  lemma SkipLoopPassesOver(fs: seq<FunctionData>, m: State, op: bv8)
    requires Top(m).skipLoopCode && !OpensBlock(op) && op != C.END && CodeStartsWith(m.code, [op])
    ensures Step(fs, m) == Ok(Running(m.(ip := m.ip + 1, code := Moved(m.code, 1))))
  {
    Behead(m.code, op, []);
    assert Fetch(m) == Ok(Fetched(op, Top(m), Moved(m.code, 1), false));
    WithTopUnchanged(m.(code := Moved(m.code, 1)));
  }

  /**
   * The `end` of the skipped loop pops its marker and forgets the loop, which ends the skipping;
   * as in `execute`, this `end` does not move the instruction pointer.
   */
  lemma SkipLoopEnds(fs: seq<FunctionData>, m: State, outer: seq<EndValue>)
    requires Top(m).skipLoopCode && Top(m).endStack == outer + [LOOP] && CodeStartsWith(m.code, [C.END])
    ensures Step(fs, m) == Ok(Running(WithTop(m, LoopCleared(Top(m).(endStack := outer))).(code := Moved(m.code, 1))))
    ensures !Top(Step(fs, m).value.state).skipLoopCode
  {
    Behead(m.code, C.END, []);
    assert Fetch(m) == Ok(Fetched(C.END, Top(m), Moved(m.code, 1), false));
  }

  // ---------------------------------------------------------------------------------------------
  // Calls and returns.

  /** The first slots of `locals` hold `args`, in order. */
  predicate SlotsHold(locals: seq<Option<int32>>, args: seq<int32>) {
    |args| <= |locals| && forall j :: 0 <= j < |args| ==> locals[j] == Some(args[j])
  }

  /**
   * Passing parameters from slot `i` down to slot 0 takes the top `i + 1` values off the stack,
   * the topmost into slot `i`, so that the slots hold them in the order they were pushed; no other
   * slot and nothing else in the frame changes. It fails on a stack too short, or on a slot
   * outside the frame.
   */
  lemma {:induction false} PassParametersPlaces(f: Frame, ops: seq<int32>, i: int32)
    requires -1 <= i
    ensures PassParameters(f, ops, i).Ok? <==> i < |f.locals| && i + 1 <= |ops|
    ensures PassParameters(f, ops, i).Err? ==>
      PassParameters(f, ops, i).error == (if i >= |f.locals| && ops != [] then IndexOutOfBounds else EmptyStack)
    ensures var r := PassParameters(f, ops, i);
      r.Ok? ==> (r.value.1 == ops[..|ops| - (i + 1)] && r.value.0 == f.(locals := r.value.0.locals)
        && SlotsHold(r.value.0.locals, ops[|ops| - (i + 1)..])
        && (forall j :: i < j < |f.locals| ==> r.value.0.locals[j] == f.locals[j]))
    decreases i + 1
  {
    if i >= 0 && ops != [] && i < |f.locals| {
      var p := Pop(ops).value;
      var f1 := SetLocal(f, p.0, i).value;
      PassParametersPlaces(f1, p.1, i - 1);
      var r := PassParameters(f1, p.1, i - 1);
      if r.Ok? {
        ArgumentsSplit(ops, i);
        SlotsExtend(r.value.0.locals, p.1[|p.1| - i..], p.0);
      }
    }
  }

  /** The top `i + 1` values of a stack are the top `i` values below its top, then its top. */
  lemma ArgumentsSplit(ops: seq<int32>, i: int)
    requires 0 <= i < |ops|
    ensures var below := ops[..|ops| - 1];
      below[..|below| - i] == ops[..|ops| - (i + 1)] && ops[|ops| - (i + 1)..] == below[|below| - i..] + [ops[|ops| - 1]]
  {
  }

  /** Slots holding `args` and then `x` hold `args + [x]`. */
  lemma SlotsExtend(locals: seq<Option<int32>>, args: seq<int32>, x: int32)
    requires SlotsHold(locals, args) && |args| < |locals| && locals[|args|] == Some(x)
    ensures SlotsHold(locals, args + [x])
  {
  }

  /** The frame a call gives its callee: fresh, sized for the callee, the arguments in its first slots in order, the other slots unset. */
  predicate CalleeFrame(g: Frame, callee: FunctionData, args: seq<int32>) {
    g == NewFrame(callee, g.locals) && |g.locals| == SlotCount(callee)
    && SlotsHold(g.locals, args)
    && (forall j :: |args| <= j < |g.locals| ==> g.locals[j].None?)
  }

  /** A call to `callee` can go through: its slots hold its arguments, the stack holds them, and it has code. */
  predicate Enterable(callee: FunctionData, operands: seq<int32>) {
    0 <= callee.parameterCount <= SlotCount(callee) && callee.parameterCount <= |operands| && callee.instructions.Some?
  }

  /**
   * `s` is `m` after calling `callee` through an index of `n` bytes: the caller's frame keeps the
   * instruction pointer at the index's last byte and the stack height; the arguments move from
   * the stack to the callee's new frame; the callee's code is opened at its start, while the
   * instruction pointer, set to the new frame's 0 and then incremented, is 1.
   */
  predicate Entered(m: State, s: State, callee: FunctionData, n: int) {
    var k := callee.parameterCount;
    0 <= k <= |m.operands| && callee.instructions.Some?
    && s.ip == 1 && s.memory == m.memory && s.operands == m.operands[..|m.operands| - k]
    && s.code == Open(callee.instructions.value)
    && |s.frames| == |m.frames| + 1
    && s.frames[..|m.frames|] == m.frames[..|m.frames| - 1] + [Saved(m, n)]
    && CalleeFrame(Top(s), callee, m.operands[|m.operands| - k..])
  }

  /** Passing `k` arguments into a fresh frame whose slots are all unset gives the callee's frame. */
  lemma PassIntoFresh(callee: FunctionData, locals: seq<Option<int32>>, ops: seq<int32>, k: int32, last: int32)
    requires 0 <= k <= |locals| && k <= |ops| && |locals| == SlotCount(callee) && last == k - 1
    requires forall j :: 0 <= j < |locals| ==> locals[j].None?
    ensures var r := PassParameters(NewFrame(callee, locals), ops, last);
      r.Ok? && r.value.1 == ops[..|ops| - k] && CalleeFrame(r.value.0, callee, ops[|ops| - k..])
  {
    var f := NewFrame(callee, locals);
    PassParametersPlaces(f, ops, k - 1);
    var g := PassParameters(f, ops, k - 1).value.0;
    assert g == NewFrame(callee, g.locals);
    forall j | k <= j < |g.locals|
      ensures g.locals[j].None?
    {
      assert g.locals[j] == locals[j];
    }
  }

  /** The caller's frame as a call saves it: the instruction pointer at the index's last byte, and the stack height. */
  function Saved(m: State, n: int): Frame {
    Top(m).(instructionPointer := m.ip + n, operandStackBase := Wrap(|m.operands|))
  }

  /** The state a call enters, given the callee's frame `g`. */
  function EnteredState(m: State, callee: FunctionData, n: int, g: Frame): State
    requires 0 <= callee.parameterCount <= |m.operands| && callee.instructions.Some?
  {
    Machine(1, m.operands[..|m.operands| - callee.parameterCount], m.frames[..|m.frames| - 1] + [Saved(m, n), g],
            Open(callee.instructions.value), m.memory)
  }

  /** `Enter`, for a callee that can be entered, moves to the state `EnteredState` describes. */
  lemma EnterUnfolds(fs: seq<FunctionData>, m: State, index: int32, n: nat)
    requires 0 <= index < |fs| && Enterable(fs[index], m.operands)
    ensures var callee := fs[index];
      var r := PassParameters(NewFrame(callee, NewLocals(SlotCount(callee)).value), m.operands, Wrap(callee.parameterCount - 1));
      r.Ok? && CalleeFrame(r.value.0, callee, m.operands[|m.operands| - callee.parameterCount..])
      && Enter(fs, m, index, n) == Ok(Running(EnteredState(m, callee, n, r.value.0)))
  {
    var callee := fs[index];
    var locals := NewLocals(SlotCount(callee)).value;
    WrapInRange(callee.parameterCount - 1);
    PassIntoFresh(callee, locals, m.operands, callee.parameterCount, Wrap(callee.parameterCount - 1));
    var p := PassParameters(NewFrame(callee, locals), m.operands, Wrap(callee.parameterCount - 1)).value;
    assert CodeOf(callee) == Ok(callee.instructions.value);
    assert Enter(fs, m, index, n)
        == Next(Machine(p.0.instructionPointer, p.1, m.frames[..|m.frames| - 1] + [Saved(m, n), p.0], Open(callee.instructions.value), m.memory));
  }

  /** The state a call enters satisfies `Entered`. */
  lemma EnteredStateEntered(m: State, callee: FunctionData, n: int, g: Frame)
    requires 0 <= callee.parameterCount <= |m.operands| && callee.instructions.Some?
    requires CalleeFrame(g, callee, m.operands[|m.operands| - callee.parameterCount..])
    ensures Entered(m, EnteredState(m, callee, n, g), callee, n)
  {
    var s := EnteredState(m, callee, n, g);
    assert s.frames[..|m.frames|] == m.frames[..|m.frames| - 1] + [Saved(m, n)];
  }

  /** A call whose index lies outside the module's functions fails; one that can go through enters the callee. */
  lemma EnterCallee(fs: seq<FunctionData>, m: State, index: int32, n: nat)
    ensures !(0 <= index < |fs|) ==> Enter(fs, m, index, n) == Err(IndexOutOfBounds)
    ensures 0 <= index < |fs| && Enterable(fs[index], m.operands) ==>
      (Enter(fs, m, index, n).Ok? && Enter(fs, m, index, n).value.Running? && Entered(m, Enter(fs, m, index, n).value.state, fs[index], n))
  {
    if 0 <= index < |fs| && Enterable(fs[index], m.operands) {
      var callee := fs[index];
      EnterUnfolds(fs, m, index, n);
      var g := PassParameters(NewFrame(callee, NewLocals(SlotCount(callee)).value), m.operands, Wrap(callee.parameterCount - 1)).value.0;
      EnteredStateEntered(m, callee, n, g);
    }
  }

  /** `call` reads its index and enters. */
  lemma CallDecoded(fs: seq<FunctionData>, m: State, b: bv32, n: nat, rest: Stream)
    requires Leb128.DecodeUnsigned(m.code).Ok? && Leb128.DecodeUnsigned(m.code).value.0 == b && Leb128.DecodeUnsigned(m.code).value.1 == rest
    requires Leb128.Size(b).Ok? && Leb128.Size(b).value == n
    ensures Call(fs, m) == Enter(fs, m, Signed(b), n)
  {
  }

  /** `call` with an index below 2^31, at the level of one iteration. */
  lemma CallStep(fs: seq<FunctionData>, m: State, b: bv32)
    requires Plain(Top(m)) && b < 0x8000_0000 && CodeStartsWith(m.code, [C.CALL] + Leb128.Encode(b))
    ensures Leb128.Size(b).Ok?
    ensures Step(fs, m) == Enter(fs, m.(code := Moved(m.code, 1)), Signed(b), Leb128.Size(b).value)
  {
    ImmediateDecodes(m.code, C.CALL, b);
    var m1 := m.(code := Moved(m.code, 1));
    CallDecoded(fs, m1, b, Leb128.Size(b).value, Moved(m.code, 1 + Leb128.Size(b).value));
    StepPlain(fs, m);
    DispatchControl(fs, m1, C.CALL);
  }

  /**
   * `return` from a called function drops its frame and resumes the caller's code one byte past
   * the caller's saved instruction pointer; the operand stack is left as it is.
   */
  lemma ReturnToCaller(fs: seq<FunctionData>, m: State)
    requires Plain(Top(m)) && |m.frames| >= 2 && CodeStartsWith(m.code, [C.RETURN])
    ensures var caller := m.frames[|m.frames| - 2];
      caller.func.instructions.None? ==> Step(fs, m) == Err(NullPointer)
    ensures var caller := m.frames[|m.frames| - 2];
      caller.func.instructions.Some? && Wrap(Wrap(caller.instructionPointer) + 1) < 0 ==> Step(fs, m) == Err(IndexOutOfBounds)
    ensures var caller := m.frames[|m.frames| - 2]; var offset := Wrap(Wrap(caller.instructionPointer) + 1);
      caller.func.instructions.Some? && offset >= 0 ==>
        Step(fs, m) == Ok(Running(m.(frames := m.frames[..|m.frames| - 1], ip := caller.instructionPointer + 1,
                                     code := OpenAt(caller.func.instructions.value, offset, |caller.func.instructions.value|))))
  {
    Behead(m.code, C.RETURN, []);
    StepPlain(fs, m);
    DispatchControl(fs, m.(code := Moved(m.code, 1)), C.RETURN);
  }

  /** A call that can go through enters the callee in one iteration. */
  lemma CallEnters(fs: seq<FunctionData>, m: State, b: bv32)
    requires Plain(Top(m)) && b < 0x8000_0000 && CodeStartsWith(m.code, [C.CALL] + Leb128.Encode(b))
    requires 0 <= Signed(b) < |fs| && Enterable(fs[Signed(b)], m.operands)
    ensures Leb128.Size(b).Ok? && m.code.pos + 1 + Leb128.Size(b).value <= m.code.count
    ensures Step(fs, m).Ok? && Step(fs, m).value.Running? && Entered(m, Step(fs, m).value.state, fs[Signed(b)], Leb128.Size(b).value)
  {
    ImmediateDecodes(m.code, C.CALL, b);
    CallStep(fs, m, b);
    var m1 := m.(code := Moved(m.code, 1));
    EnterCallee(fs, m1, Signed(b), Leb128.Size(b).value);
    EnteredIgnoresCode(m, Step(fs, m).value.state, fs[Signed(b)], Leb128.Size(b).value, m1.code);
  }

  /** Where the caller's code stood plays no part in entering a callee. */
  lemma EnteredIgnoresCode(m: State, s: State, callee: FunctionData, n: int, code: Stream)
    ensures Entered(m.(code := code), s, callee, n) == Entered(m, s, callee, n)
  {
    assert Top(m.(code := code)) == Top(m);
  }

  /** The state a call comes back to: the arguments consumed, the caller's frame remembering the call site, its code reopened past the index. */
  function Returned(m: State, callee: FunctionData, n: int): (r: State)
    requires Top(m).func.instructions.Some? && 0 <= callee.parameterCount <= |m.operands| && 0 <= m.ip + n + 1 <= MAX_INT
    ensures |r.frames| == |m.frames|
  {
    var code := Top(m).func.instructions.value;
    Machine(m.ip + n + 1, m.operands[..|m.operands| - callee.parameterCount],
            m.frames[..|m.frames| - 1] + [Saved(m, n)],
            OpenAt(code, m.ip + n + 1, |code|), m.memory)
  }

  /** A callee whose code starts with `return` goes straight back to its caller. */
  lemma EnteredThenReturn(fs: seq<FunctionData>, m: State, s: State, callee: FunctionData, n: int)
    requires Entered(m, s, callee, n) && Top(m).func.instructions.Some? && 0 <= m.ip + n + 1 <= MAX_INT
    requires |callee.instructions.value| > 0 && callee.instructions.value[0] == C.RETURN
    ensures Step(fs, s) == Ok(Running(Returned(m, callee, n)))
  {
    assert s.code.buf[s.code.pos..s.code.pos + 1] == [C.RETURN];
    WrapInRange(m.ip + n);
    WrapInRange(m.ip + n + 1);
    ReturnToCaller(fs, s);
    assert s.frames[..|s.frames| - 1] == s.frames[..|m.frames|];
  }

  /**
   * Calling a function whose code starts with `return` comes back to the byte after the call's
   * index, with the arguments consumed and the call site saved in the caller's frame, provided
   * the caller's instruction pointer is its position in its own code, as in the start function,
   * and that code fits a Java array, so the `int` cast of the saved pointer changes nothing.
   */
  lemma CallThenReturn(fs: seq<FunctionData>, m: State, b: bv32)
    requires Plain(Top(m)) && b < 0x8000_0000 && CodeStartsWith(m.code, [C.CALL] + Leb128.Encode(b))
    requires 0 <= Signed(b) < |fs| && Enterable(fs[Signed(b)], m.operands)
    requires |fs[Signed(b)].instructions.value| > 0 && fs[Signed(b)].instructions.value[0] == C.RETURN
    requires Top(m).func.instructions == Some(m.code.buf) && m.code.count == |m.code.buf| && m.code.pos == m.ip
    requires |m.code.buf| <= MAX_INT
    ensures Leb128.Size(b).Ok? && m.code.pos + 1 + Leb128.Size(b).value <= m.code.count
    ensures Step(fs, m).Ok? && Step(fs, m).value.Running?
    ensures Step(fs, Step(fs, m).value.state) == Ok(Running(Returned(m, fs[Signed(b)], Leb128.Size(b).value)))
    ensures Returned(m, fs[Signed(b)], Leb128.Size(b).value).code == Moved(m.code, Leb128.Size(b).value + 1)
  {
    CallEnters(fs, m, b);
    var n := Leb128.Size(b).value;
    EnteredThenReturn(fs, m, Step(fs, m).value.state, fs[Signed(b)], n);
  }

  // ---------------------------------------------------------------------------------------------
  // Memory instructions.

  /** The memory opcodes reach the memory instructions. */
  lemma DispatchMemory(fs: seq<FunctionData>, m: State, op: bv8)
    requires IsLoad(op) || IsStore(op) || op == C.CURRENT_MEMORY || op == C.GROW_MEMORY
    ensures IsLoad(op) || IsStore(op) ==> Dispatch(fs, m, op) == MemoryAccess(m, op)
    ensures op == C.CURRENT_MEMORY || op == C.GROW_MEMORY ==> Dispatch(fs, m, op) == MemorySize(m, op)
  {
    assert !IsVariable(op);
  }

  /** `current_memory` skips its reserved byte, counted in the instruction pointer, and pushes the page count; without a memory it fails. */
  lemma CurrentMemoryStep(fs: seq<FunctionData>, m: State, reserved: bv8)
    requires Plain(Top(m)) && CodeStartsWith(m.code, [C.CURRENT_MEMORY, reserved])
    ensures m.memory.None? ==> Step(fs, m) == Err(NullPointer)
    ensures m.memory.Some? ==>
      Step(fs, m) == Ok(Running(m.(code := Moved(m.code, 2), operands := m.operands + [|m.memory.value.pages|], ip := m.ip + 2)))
  {
    Behead(m.code, C.CURRENT_MEMORY, [reserved]);
    var m1 := m.(code := Moved(m.code, 1));
    StepPlain(fs, m);
    DispatchMemory(fs, m1, C.CURRENT_MEMORY);
    assert Skip(m1.code, 1) == Moved(m.code, 2);
  }

  /**
   * `grow_memory` skips its reserved byte, counted in the instruction pointer, pops the number of pages to add and pushes what
   * `growMemory` returns: the old page count, or -1 with the memory unchanged; an allocation past what a Java list can hold fails.
   */
  lemma GrowMemoryStep(fs: seq<FunctionData>, m: State, reserved: bv8, below: seq<int32>, delta: int32)
    requires Plain(Top(m)) && CodeStartsWith(m.code, [C.GROW_MEMORY, reserved]) && m.operands == below + [delta]
    ensures m.memory.None? ==> Step(fs, m) == Err(NullPointer)
    ensures m.memory.Some? ==> var g := GrowAsWritten(m.memory.value, delta);
      (g.Err? ==> Step(fs, m) == Err(OutOfMemory))
      && (g.Ok? ==> Step(fs, m) == Ok(Running(m.(code := Moved(m.code, 2), operands := below + [g.value.1], memory := Some(g.value.0), ip := m.ip + 2))))
  {
    Behead(m.code, C.GROW_MEMORY, [reserved]);
    var m1 := m.(code := Moved(m.code, 1));
    StepPlain(fs, m);
    DispatchMemory(fs, m1, C.GROW_MEMORY);
    assert Skip(m1.code, 1) == Moved(m.code, 2);
    assert m.operands[..|m.operands| - 1] == below;
  }

  /**
   * `block` leaves its block-type byte in the code, where the next iteration executes it: the
   * empty block type 0x40 is the opcode of `grow_memory`, which then pops a page count and skips
   * the byte after it.
   */
  lemma EmptyBlockTypeGrows(fs: seq<FunctionData>, m: State, reserved: bv8, below: seq<int32>, delta: int32)
    requires Plain(Top(m)) && CodeStartsWith(m.code, [C.BLOCK, C.RESULT_TYPE_EMPTY, reserved])
    requires m.operands == below + [delta] && m.memory.Some?
    ensures Step(fs, m).Ok? && Step(fs, m).value.Running?
    ensures var s := Step(fs, m).value.state; var g := GrowAsWritten(m.memory.value, delta);
      (g.Err? ==> Step(fs, s) == Err(OutOfMemory))
      && (g.Ok? ==> Step(fs, s) == Ok(Running(s.(code := Moved(m.code, 3), operands := below + [g.value.1], memory := Some(g.value.0), ip := m.ip + 3))))
  {
    Prefix(m.code, [C.BLOCK], [C.RESULT_TYPE_EMPTY, reserved]);
    BlockStep(fs, m);
    var s := Step(fs, m).value.state;
    GrowMemoryStep(fs, s, reserved, below, delta);
  }

  /** The value-type byte 0x7F that follows `block`, `loop` and `if` for a typed block is executed as an instruction that does nothing. */
  lemma ValueTypeByteStep(fs: seq<FunctionData>, m: State)
    requires Plain(Top(m)) && CodeStartsWith(m.code, [C.TYPE_I32])
    ensures Step(fs, m).Ok? && Step(fs, m).value.Running?
    ensures Step(fs, m).value.state == m.(ip := m.ip + 1, code := Moved(m.code, 1))
  {
    Behead(m.code, C.TYPE_I32, []);
    StepPlain(fs, m);
    var m1 := m.(code := Moved(m.code, 1));
    assert !IsVariable(C.TYPE_I32) && !IsLoad(C.TYPE_I32) && !IsStore(C.TYPE_I32);
    assert !IsTest(C.TYPE_I32) && !IsUnary(C.TYPE_I32) && !IsBinary(C.TYPE_I32);
    assert Dispatch(fs, m1, C.TYPE_I32) == Control(fs, m1, C.TYPE_I32);
  }

  /** A stream that starts with `x + y` starts with `x`, and with `y` once `x` is passed. */
  lemma Prefix(s: Stream, x: seq<bv8>, y: seq<bv8>)
    requires CodeStartsWith(s, x + y)
    ensures CodeStartsWith(s, x) && CodeStartsWith(Moved(s, |x|), y)
  {
    assert s.buf[s.pos..s.pos + |x|] == s.buf[s.pos..s.pos + |x + y|][..|x|];
    assert s.buf[s.pos + |x|..s.pos + |x| + |y|] == s.buf[s.pos..s.pos + |x + y|][|x|..];
  }

  /** The stream `s` decodes to `v`, leaving `rest`. */
  predicate DecodesTo(s: Stream, v: bv32, rest: Stream) {
    Leb128.DecodeUnsigned(s).Ok? && Leb128.DecodeUnsigned(s).value.0 == v && Leb128.DecodeUnsigned(s).value.1 == rest
  }

  /** A stream that starts with the encoding of `v` decodes to `v`, passing as many bytes as `unsignedLeb128Size(v)` counts. */
  lemma EncodingDecodes(t: Stream, v: bv32)
    requires v < 0x8000_0000 && CodeStartsWith(t, Leb128.Encode(v))
    ensures Leb128.Size(v).Ok? && |Leb128.Encode(v)| == Leb128.Size(v).value && t.pos + Leb128.Size(v).value <= t.count
    ensures DecodesTo(t, v, Moved(t, Leb128.Size(v).value))
  {
    Leb128.DecodeEncode(v, t);
    Leb128.EncodedLength(v);
  }

  /** A memory instruction followed by the encodings of its alignment `a` and its offset `o`: both decode back, each as long as its size says. */
  lemma MemoryImmediatesDecode(s: Stream, op: bv8, a: bv32, o: bv32)
    requires a < 0x8000_0000 && o < 0x8000_0000
    requires CodeStartsWith(s, [op] + Leb128.Encode(a) + Leb128.Encode(o))
    ensures s.pos < s.count && s.buf[s.pos] == op
    ensures Leb128.Size(a).Ok? && Leb128.Size(o).Ok? && s.pos + 1 + Leb128.Size(a).value + Leb128.Size(o).value <= s.count
    ensures DecodesTo(Moved(s, 1), a, Moved(s, 1 + Leb128.Size(a).value))
    ensures DecodesTo(Moved(s, 1 + Leb128.Size(a).value), o, Moved(s, 1 + Leb128.Size(a).value + Leb128.Size(o).value))
  {
    FirstImmediateDecodes(s, op, a, o);
    SecondImmediateDecodes(s, op, a, o);
  }

  /** The alignment right after the opcode decodes back. */
  lemma FirstImmediateDecodes(s: Stream, op: bv8, a: bv32, o: bv32)
    requires a < 0x8000_0000 && o < 0x8000_0000
    requires CodeStartsWith(s, [op] + Leb128.Encode(a) + Leb128.Encode(o))
    ensures s.pos < s.count && s.buf[s.pos] == op
    ensures Leb128.Size(a).Ok? && s.pos + 1 + Leb128.Size(a).value <= s.count
    ensures DecodesTo(Moved(s, 1), a, Moved(s, 1 + Leb128.Size(a).value))
  {
    ThreeParts(s, op, Leb128.Encode(a), Leb128.Encode(o));
    EncodingDecodesAt(s, 1, a);
  }

  /** The offset, as many bytes after the opcode as the alignment's size, decodes back. */
  lemma SecondImmediateDecodes(s: Stream, op: bv8, a: bv32, o: bv32)
    requires a < 0x8000_0000 && o < 0x8000_0000
    requires CodeStartsWith(s, [op] + Leb128.Encode(a) + Leb128.Encode(o))
    ensures Leb128.Size(a).Ok? && Leb128.Size(o).Ok? && s.pos + 1 + Leb128.Size(a).value + Leb128.Size(o).value <= s.count
    ensures DecodesTo(Moved(s, 1 + Leb128.Size(a).value), o, Moved(s, 1 + Leb128.Size(a).value + Leb128.Size(o).value))
  {
    ThreeParts(s, op, Leb128.Encode(a), Leb128.Encode(o));
    EncodedSize(a);
    EncodingDecodesAt(s, 1 + Leb128.Size(a).value, o);
  }

  /** A stream that starts with `op`, then `x`, then `y`. */
  lemma ThreeParts(s: Stream, op: bv8, x: seq<bv8>, y: seq<bv8>)
    requires CodeStartsWith(s, [op] + x + y)
    ensures s.pos < s.count && s.buf[s.pos] == op
    ensures CodeStartsWith(Moved(s, 1), x) && CodeStartsWith(Moved(s, 1 + |x|), y)
  {
    Prefix(s, [op] + x, y);
    Behead(s, op, x);
  }

  /** An encoding below 2^31 is as long as `unsignedLeb128Size` says. */
  lemma EncodedSize(v: bv32)
    requires v < 0x8000_0000
    ensures Leb128.Size(v).Ok? && |Leb128.Encode(v)| == Leb128.Size(v).value
  {
    Leb128.EncodedLength(v);
  }

  /** `EncodingDecodes` for the stream moved `k` bytes on. */
  lemma EncodingDecodesAt(s: Stream, k: nat, v: bv32)
    requires v < 0x8000_0000 && s.pos + k <= s.count && CodeStartsWith(Moved(s, k), Leb128.Encode(v))
    ensures Leb128.Size(v).Ok? && |Leb128.Encode(v)| == Leb128.Size(v).value && s.pos + k + Leb128.Size(v).value <= s.count
    ensures DecodesTo(Moved(s, k), v, Moved(s, k + Leb128.Size(v).value))
  {
    EncodingDecodes(Moved(s, k), v);
    assert Moved(Moved(s, k), Leb128.Size(v).value) == Moved(s, k + Leb128.Size(v).value);
  }

  /** A load or store reads its alignment and then its offset straight from the code. */
  lemma MemoryAccessDecoded(m: State, op: bv8, a: bv32, o: bv32, mid: Stream, rest: Stream)
    requires (IsLoad(op) || IsStore(op)) && DecodesTo(m.code, a, mid) && DecodesTo(mid, o, rest)
    ensures MemoryAccess(m, op) == Access(m.(code := rest), op, Signed(o), Leb128.Size(a), Leb128.Size(o))
  {
  }

  /** A load pops the address and pushes what the memory loads at the wrapped sum of address and offset, failing where `load` throws; without a memory it fails. */
  lemma LoadAccess(m: State, op: bv8, offset: int32, na: nat, no: nat, below: seq<int32>, address: int32)
    requires IsLoad(op) && m.operands == below + [address]
    ensures m.memory.None? ==> Access(m, op, offset, Ok(na), Ok(no)) == Err(NullPointer)
    ensures m.memory.Some? ==> var v := LoadResult(m.memory.value, address, offset, Width(op), SignExtends(op));
      (v.Err? ==> Access(m, op, offset, Ok(na), Ok(no)) == Err(IndexOutOfBounds))
      && (v.Ok? ==> Access(m, op, offset, Ok(na), Ok(no)) == Ok(Running(m.(operands := below + [v.value], ip := m.ip + na + no + 1))))
  {
    assert m.operands[..|m.operands| - 1] == below;
  }

  /** A store pops the value and then the address; it fails when the bounds check as written does, otherwise the memory is left as it was. */
  lemma StoreAccess(m: State, op: bv8, offset: int32, na: nat, no: nat, below: seq<int32>, address: int32, value: int32)
    requires IsStore(op) && m.operands == below + [address, value]
    ensures m.memory.None? ==> Access(m, op, offset, Ok(na), Ok(no)) == Err(NullPointer)
    ensures m.memory.Some? && OutOfBoundsAsWritten(m.memory.value, address, offset, Width(op)) ==>
      Access(m, op, offset, Ok(na), Ok(no)) == Err(IndexOutOfBounds)
    ensures m.memory.Some? && !OutOfBoundsAsWritten(m.memory.value, address, offset, Width(op)) ==>
      Access(m, op, offset, Ok(na), Ok(no)) == Ok(Running(m.(operands := below, ip := m.ip + na + no + 1)))
  {
    PopTwo(below, address, value);
    assert !IsLoad(op);
  }

  /**
   * A load or a store with alignment and offset below 2^31, at the level of one iteration: both
   * immediates are read, and the access happens with the offset and the two sizes.
   */
  lemma MemoryAccessStep(fs: seq<FunctionData>, m: State, op: bv8, a: bv32, o: bv32)
    requires Plain(Top(m)) && (IsLoad(op) || IsStore(op)) && a < 0x8000_0000 && o < 0x8000_0000
    requires CodeStartsWith(m.code, [op] + Leb128.Encode(a) + Leb128.Encode(o))
    ensures Leb128.Size(a).Ok? && Leb128.Size(o).Ok? && m.code.pos + 1 + Leb128.Size(a).value + Leb128.Size(o).value <= m.code.count
    ensures var n := Leb128.Size(a).value + Leb128.Size(o).value;
      Step(fs, m) == Access(m.(code := Moved(m.code, n + 1)), op, Signed(o), Ok(Leb128.Size(a).value), Ok(Leb128.Size(o).value))
  {
    MemoryImmediatesDecode(m.code, op, a, o);
    var na := Leb128.Size(a).value;
    var no := Leb128.Size(o).value;
    var m1 := m.(code := Moved(m.code, 1));
    MemoryAccessDecoded(m1, op, a, o, Moved(m.code, 1 + na), Moved(m.code, 1 + na + no));
    StepPlain(fs, m);
    DispatchMemory(fs, m1, op);
  }
}
