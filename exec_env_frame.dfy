/**
 * One activation of a function: its locals, its saved instruction pointer and operand-stack base,
 * and the bookkeeping of the if/else skip mode and of the loop record-and-replay.
 */
module ExecEnvFrames {
  import opened Wrappers
  import opened Exceptions
  import opened JavaInt
  import opened Functions

  /** The marker pushed on a frame's end-stack by `block`, `loop` and `if`. */
  datatype EndValue = LOOP | IF | BLOCK

  /** The state of an `ExecEnvFrame` object; a local slot is `None` while the `Integer` in it is null. */
  datatype Frame = Frame(
    func: FunctionData,
    locals: seq<Option<int32>>,
    instructionPointer: int,
    loopBeginInstructionPointer: int,
    ifDepth: int32,
    operandStackBase: int32,
    ifBranch: bool,
    skipCode: bool,
    firstLoopExec: bool,
    savedLoopExec: bool,
    skipLoopCode: bool,
    endStack: seq<EndValue>,
    loopQueue: seq<bv8>,
    intLoopQueue: seq<int32>)

  /** `new ExecEnvFrame(function, localVariables)`: every other field at its initial value. */
  function NewFrame(func: FunctionData, locals: seq<Option<int32>>): (f: Frame)
    ensures f.func == func && f.locals == locals
    ensures f.instructionPointer == 0 && f.loopBeginInstructionPointer == 0
    ensures f.ifDepth == 0 && f.operandStackBase == 0
    ensures f.ifBranch && !f.skipCode && !f.firstLoopExec && !f.savedLoopExec && !f.skipLoopCode
    ensures f.endStack == [] && f.loopQueue == [] && f.intLoopQueue == []
  {
    Frame(func, locals, 0, 0, 0, 0, true, false, false, false, false, [], [], [])
  }

  /** `n` slots, none of them written yet. */
  function Unset(n: nat): (r: seq<Option<int32>>)
    ensures |r| == n && forall i :: 0 <= i < n ==> r[i].None?
  {
    if n == 0 then [] else Unset(n - 1) + [None]
  }

  /** `new Integer[slotCount]`: all slots null; a negative size throws. */
  function NewLocals(slotCount: int32): (r: Outcome<seq<Option<int32>>>)
    ensures r.Err? <==> slotCount < 0
    ensures r.Err? ==> r.error == NegativeArraySize
    ensures r.Ok? ==> |r.value| == slotCount && forall i :: 0 <= i < slotCount ==> r.value[i].None?
  {
    if slotCount < 0 then Err(NegativeArraySize) else Ok(Unset(slotCount))
  }

  /** `getLocalVariableByIndex`: an index outside the array throws, and so does unboxing a slot never written. */
  function GetLocal(f: Frame, index: int32): (r: Outcome<int32>)
    ensures r.Ok? <==> 0 <= index < |f.locals| && f.locals[index].Some?
    ensures r.Ok? ==> r.value == f.locals[index].value
    ensures r.Err? ==> r.error == (if 0 <= index < |f.locals| then NullPointer else IndexOutOfBounds)
  {
    if index < 0 || index >= |f.locals| then Err(IndexOutOfBounds)
    else if f.locals[index].None? then Err(NullPointer)
    else Ok(f.locals[index].value)
  }

  /** `setLocalVariableByIndex(value, index)` (value first): writes one slot of the fixed-size array. */
  function SetLocal(f: Frame, value: int32, index: int32): (r: Outcome<Frame>)
    ensures r.Err? <==> !(0 <= index < |f.locals|)
    ensures r.Err? ==> r.error == IndexOutOfBounds
    ensures r.Ok? ==> |r.value.locals| == |f.locals| && r.value.locals[index] == Some(value)
    ensures r.Ok? ==> forall j :: 0 <= j < |f.locals| && j != index ==> r.value.locals[j] == f.locals[j]
    ensures r.Ok? ==> r.value == f.(locals := r.value.locals)
  {
    if index < 0 || index >= |f.locals| then Err(IndexOutOfBounds)
    else Ok(f.(locals := f.locals[index := Some(value)]))
  }

  /** Reading back a slot just written gives the value written; reading any other slot gives what it gave before. */
  lemma SetThenGetLocal(f: Frame, value: int32, index: int32, other: int32)
    requires SetLocal(f, value, index).Ok?
    ensures GetLocal(SetLocal(f, value, index).value, index) == Ok(value)
    ensures other != index ==> GetLocal(SetLocal(f, value, index).value, other) == GetLocal(f, other)
  {
  }

  /** A slot of a new frame that was never written cannot be read. */
  lemma UnwrittenSlotFails(func: FunctionData, slotCount: int32, index: int32)
    requires NewLocals(slotCount).Ok?
    ensures GetLocal(NewFrame(func, NewLocals(slotCount).value), index).Err?
  {
  }

  /** `getEndStack().push(v)`. */
  function PushEnd(f: Frame, v: EndValue): (r: Frame)
    ensures r.endStack == f.endStack + [v] && r == f.(endStack := r.endStack)
  {
    f.(endStack := f.endStack + [v])
  }

  /** `getEndStack().pop()`: the marker pushed last; an empty stack throws. */
  function PopEnd(f: Frame): (r: Outcome<(EndValue, Frame)>)
    ensures r.Err? <==> f.endStack == []
    ensures r.Err? ==> r.error == EmptyStack
    ensures r.Ok? ==> f.endStack == r.value.1.endStack + [r.value.0] && r.value.1 == f.(endStack := r.value.1.endStack)
  {
    if f.endStack == [] then Err(EmptyStack)
    else Ok((f.endStack[|f.endStack| - 1], f.(endStack := f.endStack[..|f.endStack| - 1])))
  }

  /** Popping undoes pushing. */
  lemma PopPush(f: Frame, v: EndValue)
    ensures PopEnd(PushEnd(f, v)) == Ok((v, f))
  {
    assert (f.endStack + [v])[..|f.endStack|] == f.endStack;
  }

  /** `getLoopQueue().add(b)`. */
  function EnqueueOpcode(f: Frame, b: bv8): (r: Frame)
    ensures r.loopQueue == f.loopQueue + [b] && r == f.(loopQueue := r.loopQueue)
  {
    f.(loopQueue := f.loopQueue + [b])
  }

  /** `getLoopQueue().poll()` unboxed to a `byte`: the oldest entry; on an empty queue `poll` gives null and unboxing throws. */
  function PollOpcode(f: Frame): (r: Outcome<(bv8, Frame)>)
    ensures r.Err? <==> f.loopQueue == []
    ensures r.Err? ==> r.error == NullPointer
    ensures r.Ok? ==> f.loopQueue == [r.value.0] + r.value.1.loopQueue && r.value.1 == f.(loopQueue := r.value.1.loopQueue)
  {
    if f.loopQueue == [] then Err(NullPointer) else Ok((f.loopQueue[0], f.(loopQueue := f.loopQueue[1..])))
  }

  /** `getIntLoopQueue().add(v)`. */
  function EnqueueInt(f: Frame, v: int32): (r: Frame)
    ensures r.intLoopQueue == f.intLoopQueue + [v] && r == f.(intLoopQueue := r.intLoopQueue)
  {
    f.(intLoopQueue := f.intLoopQueue + [v])
  }

  /** `getIntLoopQueue().poll()` unboxed to an `int`. */
  function PollInt(f: Frame): (r: Outcome<(int32, Frame)>)
    ensures r.Err? <==> f.intLoopQueue == []
    ensures r.Err? ==> r.error == NullPointer
    ensures r.Ok? ==> f.intLoopQueue == [r.value.0] + r.value.1.intLoopQueue && r.value.1 == f.(intLoopQueue := r.value.1.intLoopQueue)
  {
    if f.intLoopQueue == [] then Err(NullPointer) else Ok((f.intLoopQueue[0], f.(intLoopQueue := f.intLoopQueue[1..])))
  }

  /** Polling an entry and adding it back, as the replay does, rotates the queue: after `n` rotations of an `n`-entry queue it is as it was. */
  lemma RotateOpcodes(f: Frame)
    requires f.loopQueue != []
    ensures var (b, g) := PollOpcode(f).value; EnqueueOpcode(g, b).loopQueue == f.loopQueue[1..] + [f.loopQueue[0]]
  {
  }

  /** `resetLoop`: forgets the recorded loop. */
  function LoopCleared(f: Frame): (r: Frame)
    ensures r.loopQueue == [] && r.intLoopQueue == [] && r.loopBeginInstructionPointer == 0
    ensures !r.firstLoopExec && !r.savedLoopExec && !r.skipLoopCode
    ensures r.func == f.func && r.locals == f.locals && r.instructionPointer == f.instructionPointer
    ensures r.ifDepth == f.ifDepth && r.operandStackBase == f.operandStackBase
    ensures r.ifBranch == f.ifBranch && r.skipCode == f.skipCode && r.endStack == f.endStack
  {
    f.(loopQueue := [], intLoopQueue := [], loopBeginInstructionPointer := 0,
       firstLoopExec := false, savedLoopExec := false, skipLoopCode := false)
  }

  /** Resetting twice is resetting once. */
  lemma ResetLoopIdempotent(f: Frame)
    ensures LoopCleared(LoopCleared(f)) == LoopCleared(f)
  {
  }

  class ExecEnvFrame {
    const func: Function
    const localVariables: array<Option<int32>>

    var instructionPointer: int
    var loopBeginInstructionPointer: int
    var ifDepth: int32
    var operandStackBase: int32
    var ifBranch: bool
    var skipCode: bool
    var firstLoopExec: bool
    var savedLoopExec: bool
    var skipLoopCode: bool
    var endStack: seq<EndValue>
    var loopQueue: seq<bv8>
    var intLoopQueue: seq<int32>

    function Model(): Frame
      reads this, func, localVariables
    {
      Frame(func.Model(), localVariables[..], instructionPointer, loopBeginInstructionPointer, ifDepth,
            operandStackBase, ifBranch, skipCode, firstLoopExec, savedLoopExec, skipLoopCode,
            endStack, loopQueue, intLoopQueue)
    }

    constructor (func: Function, localVariables: array<Option<int32>>)
      ensures this.func == func && this.localVariables == localVariables
      ensures Model() == NewFrame(func.Model(), localVariables[..])
    {
      this.func := func;
      this.localVariables := localVariables;
      instructionPointer := 0;
      loopBeginInstructionPointer := 0;
      ifDepth := 0;
      operandStackBase := 0;
      ifBranch := true;
      skipCode := false;
      firstLoopExec := false;
      savedLoopExec := false;
      skipLoopCode := false;
      endStack := [];
      loopQueue := [];
      intLoopQueue := [];
    }

    method GetLocalVariableByIndex(index: int32) returns (r: Outcome<int32>)
      ensures r == GetLocal(Model(), index)
    {
      if index < 0 || index >= localVariables.Length {
        return Err(IndexOutOfBounds);
      }
      var slot := localVariables[index];
      if slot.None? {
        return Err(NullPointer);
      }
      return Ok(slot.value);
    }

    method SetLocalVariableByIndex(value: int32, index: int32) returns (r: Outcome<()>)
      modifies localVariables
      ensures r.Err? <==> SetLocal(old(Model()), value, index).Err?
      ensures r.Err? ==> r.error == IndexOutOfBounds && Model() == old(Model())
      ensures r.Ok? ==> Model() == SetLocal(old(Model()), value, index).value
    {
      if index < 0 || index >= localVariables.Length {
        return Err(IndexOutOfBounds);
      }
      localVariables[index] := Some(value);
      return Ok(());
    }

    method SetInstructionPointer(instructionPointer: int)
      modifies this
      ensures Model() == old(Model()).(instructionPointer := instructionPointer)
    {
      this.instructionPointer := instructionPointer;
    }

    method SetIfDepth(ifDepth: int32)
      modifies this
      ensures Model() == old(Model()).(ifDepth := ifDepth)
    {
      this.ifDepth := ifDepth;
    }

    method SetOperandStackBase(operandStackBase: int32)
      modifies this
      ensures Model() == old(Model()).(operandStackBase := operandStackBase)
    {
      this.operandStackBase := operandStackBase;
    }

    method SetIfBranch(ifBranch: bool)
      modifies this
      ensures Model() == old(Model()).(ifBranch := ifBranch)
    {
      this.ifBranch := ifBranch;
    }

    method SetSkipCode(skipCode: bool)
      modifies this
      ensures Model() == old(Model()).(skipCode := skipCode)
    {
      this.skipCode := skipCode;
    }

    method SetFirstLoopExec(firstLoopExec: bool)
      modifies this
      ensures Model() == old(Model()).(firstLoopExec := firstLoopExec)
    {
      this.firstLoopExec := firstLoopExec;
    }

    method SetSavedLoopExec(savedLoopExec: bool)
      modifies this
      ensures Model() == old(Model()).(savedLoopExec := savedLoopExec)
    {
      this.savedLoopExec := savedLoopExec;
    }

    method SetLoopBeginInstructionPointer(loopBeginInstructionPointer: int)
      modifies this
      ensures Model() == old(Model()).(loopBeginInstructionPointer := loopBeginInstructionPointer)
    {
      this.loopBeginInstructionPointer := loopBeginInstructionPointer;
    }

    method SetSkipLoopCode(skipLoopCode: bool)
      modifies this
      ensures Model() == old(Model()).(skipLoopCode := skipLoopCode)
    {
      this.skipLoopCode := skipLoopCode;
    }

    /** `getEndStack().push(v)`. */
    method PushEndValue(v: EndValue)
      modifies this
      ensures Model() == PushEnd(old(Model()), v)
    {
      endStack := endStack + [v];
    }

    /** `getEndStack().pop()`. */
    method PopEndValue() returns (r: Outcome<EndValue>)
      modifies this
      ensures PopEnd(old(Model())).Err? ==> r == Err(EmptyStack) && Model() == old(Model())
      ensures PopEnd(old(Model())).Ok? ==> r == Ok(PopEnd(old(Model())).value.0) && Model() == PopEnd(old(Model())).value.1
    {
      if endStack == [] {
        return Err(EmptyStack);
      }
      r := Ok(endStack[|endStack| - 1]);
      endStack := endStack[..|endStack| - 1];
    }

    /** `getLoopQueue().add(b)`. */
    method AddToLoopQueue(b: bv8)
      modifies this
      ensures Model() == EnqueueOpcode(old(Model()), b)
    {
      loopQueue := loopQueue + [b];
    }

    /** `getLoopQueue().poll()`, unboxed. */
    method PollLoopQueue() returns (r: Outcome<bv8>)
      modifies this
      ensures PollOpcode(old(Model())).Err? ==> r == Err(NullPointer) && Model() == old(Model())
      ensures PollOpcode(old(Model())).Ok? ==> r == Ok(PollOpcode(old(Model())).value.0) && Model() == PollOpcode(old(Model())).value.1
    {
      if loopQueue == [] {
        return Err(NullPointer);
      }
      r := Ok(loopQueue[0]);
      loopQueue := loopQueue[1..];
    }

    /** `getIntLoopQueue().add(v)`. */
    method AddToIntLoopQueue(v: int32)
      modifies this
      ensures Model() == EnqueueInt(old(Model()), v)
    {
      intLoopQueue := intLoopQueue + [v];
    }

    /** `getIntLoopQueue().poll()`, unboxed. */
    method PollIntLoopQueue() returns (r: Outcome<int32>)
      modifies this
      ensures PollInt(old(Model())).Err? ==> r == Err(NullPointer) && Model() == old(Model())
      ensures PollInt(old(Model())).Ok? ==> r == Ok(PollInt(old(Model())).value.0) && Model() == PollInt(old(Model())).value.1
    {
      if intLoopQueue == [] {
        return Err(NullPointer);
      }
      r := Ok(intLoopQueue[0]);
      intLoopQueue := intLoopQueue[1..];
    }

    method ResetLoop()
      modifies this
      ensures Model() == LoopCleared(old(Model()))
    {
      loopQueue := [];
      intLoopQueue := [];
      loopBeginInstructionPointer := 0;
      firstLoopExec := false;
      savedLoopExec := false;
      skipLoopCode := false;
    }
  }
}
