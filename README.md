# J-WASM in Dafny

A model of the core of J-WASM, a small Java decoder and interpreter for WebAssembly 1.0 modules
that use only the `i32` value type. The model covers the same four components as the Java code,
and the data classes they share.

- **LEB128** (`Leb128`). This is the unsigned variable-length integer reader of section 5.2.2 of
  the WebAssembly Core Specification 1.0, plus the encoded-size helper the interpreter uses to
  move its instruction pointer. The Java `do ... while` loop is a method, and it is proved equal
  to a recursive function. That function is proved equal to a closed form: the first byte
  without bit 0x80 ends the value, and it is at most the fifth byte. It is also proved to invert
  the canonical encoder.
- **Linear memory** (`LinearMemories`). This is a list of 65536-byte pages, capped at 128 pages.
  The class `LinearMemory` keeps the page list as a field. Its methods (`GrowMemory`,
  `AllocatePages`, `Load`, `Store`, the bounds check) are proved against value functions on a
  `Memory` datatype.
- **Binary decoder** (`Parser`, `BinaryParsers`, `ParserProperties`). This covers the module
  header and the type, function, memory, start, code, data and custom sections, from sections
  5.5.2 to 5.5.15 of the WebAssembly Core Specification 1.0.
  - `Parser` holds one function per `read...Section` method of the Java class. Each works on a
    `ByteArrayInputStream` modelled as a value: a buffer, a position and a count (`ByteStreams`).
    `read()` gives -1 at the end and `read(byte[])` leaves the rest of the array zero.
  - `BinaryParsers.BinaryParser` is the Java object, with its fields. Every method is proved to
    do what the matching `Parser` function computes, and the loops are proved by invariants.
- **Interpreter** (`Interpreter`, `I32`, `I32Instructions`, `WasmInterpreters`, and the
  lemma modules `InterpreterProperties` and `InterpreterMemory`).
  - One iteration of the `execute` loop is a function `Step` on a machine state: the
    instruction pointer, the operand stack, the call stack of frames, the code stream and the
    linear memory.
  - The loop itself is the fuel-bounded `Run`. `WasmInterpreters.WasmInterpreter.Execute` is
    the imperative loop over the object's fields, proved to give what `Run` gives.
  - Java's `int` arithmetic (wrap-around, truncating division, `Integer.divideUnsigned`,
    shifts by the low five bits, rotations, bit counts) is written out over `int32`.
- **Data classes**. `Function`, `Module` and `ExecEnvFrame` are classes whose setters change
  one field each. `ExecEnvFrame`'s end-stack and loop queues are sequences, and its local slots
  are an array of optional integers (a null `Integer` is `None`).

Behaviour the Java code has, kept as it is:

- **Header.** The header is read with `read(byte[4])`, so a short input is padded with zeros.
  The five bytes `00 61 73 6D 01` pass as a header and as an empty module
  (`ParserProperties.TruncatedVersionAccepted`).
- **Module construction.** `parse` ends with `new Module(linearMemory, functions,
  startFunctionIndex)`, a call that matches no constructor of `Module`. It is modelled as
  `new Module(0, functions, startFunctionIndex)` followed by `setLinearMemory(linearMemory)`.
  The module's memory is therefore the parsed one, or null when there is no memory section.
- **Data section.** `store` is unimplemented, so a data segment's bytes are bounds-checked but
  never written. A byte stored and then loaded back is the byte that was there before
  (`LinearMemories.StoreThenLoad`).
- **Start function.** The interpreter calls `module.getStartFunction()`, which `Module` does not
  have. It is modelled as the function at `getStartFunctionIndex()`, and an index outside the
  list is an index error.
- **Local slots.** A frame has `getLocalVariableCount() + getParameterCount()` slots, and
  `getLocalVariableCount()` already counts the parameters, so parameters are counted twice.
- **`end` and `drop`.** `end` outside skip mode pops an operand but not the end-stack. `drop`
  pops nothing.
- **Block-type bytes.** `block` and `loop` leave their block-type byte in the code. The next
  iteration executes it as an opcode:
  - 0x7F, the byte for `i32`, falls into the tolerated `case 127`;
  - 0x40, the empty block type, is the opcode of `grow_memory`
    (`InterpreterProperties.EmptyBlockTypeGrows`).
- **`current_memory` and `grow_memory`.** Both skip their reserved byte and count it in the
  instruction pointer, so the pointer moves by two.
- **`if` without `else`.** When the condition is 0 and there is no `else`, skip mode only ends
  at an `end` whose depth matches while `ifBranch` is true. For a false condition it therefore
  runs to the end of the function.
- **Return from a call.** Returning from a called function reopens the caller's code one byte
  past the caller's saved instruction pointer, after casting that `long` pointer to `int`, so the
  offset wraps once the pointer reaches 2^31 - 1 (`InterpreterProperties.ReturnToCaller`). Replayed
  loop opcodes advance the pointer without reading the code, so such pointers are reachable.
- **Integer overflow in `LinearMemory`.** `growMemory` and the bounds check compute on wrapping
  `int`s, the page count and the effective address included. The interpreter runs them as written
  (`GrowAsWritten`, `OutOfBoundsAsWritten`, `LoadResult`), and so does the shift order of
  `pop() << pop()` (`BinaryAsWritten`). The corrected versions are under Findings.
- **Memory instructions.** They call `load`/`store` with arguments that do not match the
  `LinearMemory` signature. They are modelled as accesses at the popped address plus the offset
  immediate, with the alignment ignored.

## Model

| member | source | states |
|---|---|---|
| Leb128.ReadMasked | src/main/java/util/Leb128.java:24 | the byte read is the stream's next byte, and the end-of-input -1 becomes 0xFF, a byte that says more follow |
| Leb128.DecodeUnsigned | src/main/java/util/Leb128.java:18-34 | a successful decode moves the stream forward by at least one and at most five bytes; the only failure is the invalid-LEB128 exception |
| Leb128.ReadUnsignedLeb128 | src/main/java/util/Leb128.java:18-34 | the `do ... while` loop over the stream gives the value and stream position that `DecodeUnsigned` specifies |
| Leb128.StepFinal | src/main/java/util/Leb128.java:23-33 | a byte without bit 0x80 ends the loop: its payload is or-ed in at bit `7 * count` and the value is returned |
| Leb128.StepMore | src/main/java/util/Leb128.java:23-31 | a byte with bit 0x80 continues the loop with its payload or-ed in, unless it was the fifth byte, which throws |
| Leb128.DecodeUnsignedClosedForm | src/main/java/util/Leb128.java:23-31 | decoding consumes the bytes up to and including the first byte without bit 0x80, ors their payloads little-endian at bit `7 * k`, and succeeds exactly when one of the first five bytes ends the value |
| Leb128.TruncatedInputFails | src/main/java/util/Leb128.java:24-31 | input that ends inside an encoding is rejected, because the missing bytes read as 0xFF |
| Leb128.DecodeEncode | src/main/java/util/Leb128.java:36-42 | decoding the canonical encoding of any 32-bit value gives the value back and consumes exactly the encoding |
| Leb128.Size | src/main/java/util/Leb128.java:43-52 | `unsignedLeb128Size` is between 1 and 5 for a non-negative `int`; for a negative one the shift never reaches 0 and the loop does not terminate |
| Leb128.UnsignedLeb128Size | src/main/java/util/Leb128.java:43-52 | the `while` loop counting seven-bit shifts returns the size `Size` gives, for every value on which it terminates |
| Leb128.EncodedLength | src/main/java/util/Leb128.java:36-52 | the size is one more than the number of seven-bit shifts of `v >> 7` to zero, and it is the length of the encoding the decoder reads |
| ValueTypes.FromByteValue | src/main/java/ValueType.java:23-38 | a byte maps to the type whose byte it is; it maps to null exactly when no type has that byte |
| ValueTypes.FromByteValueInverse | src/main/java/ValueType.java:7-11 | every type survives the round trip through its byte |
| ValueTypes.ByteValueInjective | src/main/java/ValueType.java:7-11 | distinct types have distinct bytes |
| LinearMemories.ZeroPages | src/main/java/environment/LinearMemory.java:71-75 | `allocatePages(n)` appends exactly `n` zero-filled pages, and none when `n` is not positive |
| LinearMemories.New | src/main/java/environment/LinearMemory.java:38-45 | the constructor throws the boundary exception exactly when the maximum exceeds 128; otherwise it keeps the maximum and holds the initial number of zero pages, and the initial count is not checked against the maximum |
| LinearMemories.NewWithDefaultMax | src/main/java/environment/LinearMemory.java:34-36 | the one-argument constructor uses maximum 1 and the given page count |
| LinearMemories.Grow | src/main/java/environment/LinearMemory.java:55-69 | the corrected `growMemory`, with the delta read as an unsigned page count: -1 and no change when the new count would exceed the maximum; otherwise the old count, with exactly `delta` zero pages appended and every existing page untouched |
| LinearMemories.GrowKeepsWithinMax | src/main/java/environment/LinearMemory.java:29-69 | growing, whether it succeeds or fails, keeps the documented invariant that the page count is at most the maximum |
| LinearMemories.GrowAsWritten | src/main/java/environment/LinearMemory.java:60-75 | `growMemory` as written, which the interpreter runs: -1 and no change when the wrapped `int` sum exceeds the maximum; a request that passes the check but asks for more than `Integer.MAX_VALUE` pages, always past the maximum, throws `OutOfMemoryError`; a negative delta passes, adds nothing and returns the old count; a granted non-negative delta appends exactly that many zero pages and keeps the old ones; every granted request keeps `pages <= maxPageCount` |
| LinearMemories.GrowAsWrittenAgrees | src/main/java/environment/LinearMemory.java:60-69 | for a non-negative delta whose sum does not overflow, the code as written and the corrected version agree |
| LinearMemories.GrowAsWrittenOverflows | src/main/java/environment/LinearMemory.java:61-66 | growing a one-page memory of maximum 1 by `Integer.MAX_VALUE` passes the check as written, because the sum wraps to `Integer.MIN_VALUE`, although the new count is past the maximum; the allocation then throws `OutOfMemoryError`, while the corrected version returns -1 |
| LinearMemories.GrowAsWrittenAcceptsNegative | src/main/java/environment/LinearMemory.java:60-69 | a delta of -1, which is 2^32 - 1 pages read unsigned, is granted as written: nothing is added and the old count comes back, where the corrected version returns -1 |
| LinearMemories.OutOfBoundsAsWritten | src/main/java/environment/LinearMemory.java:135-143 | `validateBoundsOrThrowException` with both indices in wrapping `int` arithmetic; `OutOfBoundsAsWrittenAgrees` relates it to the intended check |
| LinearMemories.OutOfBounds | src/main/java/environment/LinearMemory.java:135-143 | the intended bounds check, with address and offset read as unsigned 32-bit numbers: the access is refused exactly when it passes the last byte |
| LinearMemories.OutOfBoundsAsWrittenAgrees | src/main/java/environment/LinearMemory.java:135-143 | for non-negative operands whose sums stay within `int`, the check as written rejects exactly the accesses past the last byte |
| LinearMemories.OutOfBoundsAsWrittenMissesNegative | src/main/java/environment/LinearMemory.java:130-143 | the check as written lets address -4 (0xFFFFFFFC) with a four-byte access through on a one-page memory, although it is out of bounds: a store there succeeds silently, and a load throws only because its byte index turns negative |
| LinearMemories.Extend | src/main/java/environment/LinearMemory.java:77-89 | the loaded value agrees with the raw bytes modulo 256^byteCount; it is zero-extended when unsigned and shorter than an `int`, and sign-extended into the signed range when signed |
| LinearMemories.LoadResult | src/main/java/environment/LinearMemory.java:90-117 | `load` as written throws the index exception exactly when the bounds check fails, the wrapped effective address `address + offset` is negative, or the bytes leave the memory or the page they start on; otherwise its value is those bytes read little-endian and zero- or sign-extended as documented |
| LinearMemories.LoadFaults | src/main/java/environment/LinearMemory.java:90-117 | where `load` as written throws; `LoadFaultsExactly` states it without the wrap-around |
| LinearMemories.LoadFaultsExactly | src/main/java/environment/LinearMemory.java:90-117 | on a memory of at most 2^31 bytes, `load` as written throws exactly when its bytes are not all in memory or not all on the page the access starts on |
| LinearMemories.LoadIntended | src/main/java/environment/LinearMemory.java:77-89 | the corrected `load`, with unsigned address and offset: it throws exactly when the access passes the last byte, and otherwise reads any bytes in memory, across a page boundary too, little-endian and extended as documented |
| LinearMemories.LoadIntendedAgrees | src/main/java/environment/LinearMemory.java:90-117 | for non-negative operands that do not wrap and an access within one page, `load` as written and the corrected `load` agree |
| LinearMemories.LoadAsWrittenWrapsToZero | src/main/java/environment/LinearMemory.java:93 | `load(Integer.MIN_VALUE, Integer.MIN_VALUE, _, 4, false)` on one zero page wraps to address 0 and gives 0, where the corrected `load` throws |
| LinearMemories.LoadAsWrittenRejectsPageCrossing | src/main/java/environment/LinearMemory.java:94-104 | a two-byte load at the last byte of the first of two pages throws as written, where the corrected `load` reads across the boundary |
| LinearMemories.StoreResult | src/main/java/environment/LinearMemory.java:119-143 | `store` throws exactly when the bounds check as written fails, and otherwise leaves the memory as it was |
| LinearMemories.StoreThenLoad | src/main/java/environment/LinearMemory.java:130-133 | loading a byte just stored gives the byte that was there before the store, not the stored value |
| LinearMemories.SignExtension | src/main/java/environment/LinearMemory.java:77-89 | a byte 0xFF loads as -1 when signed and as 255 when unsigned |
| LinearMemories.LinearMemory.constructor | src/main/java/environment/LinearMemory.java:34-36 | the new object is the one-argument constructor's memory |
| LinearMemories.LinearMemory.WithMaximum | src/main/java/environment/LinearMemory.java:43-44 | after the maximum check has passed, the object holds the maximum and the initial zero pages |
| LinearMemories.LinearMemory.Create | src/main/java/environment/LinearMemory.java:38-45 | the two-argument constructor either throws the boundary exception or yields a fresh object holding the memory `New` describes |
| LinearMemories.LinearMemory.CurrentMemory | src/main/java/environment/LinearMemory.java:51-53 | returns the number of allocated pages |
| LinearMemories.LinearMemory.GrowMemory | src/main/java/environment/LinearMemory.java:60-75 | the object's new pages and the returned count are what `GrowAsWritten` gives; where that throws `OutOfMemoryError` the method throws it and the object is left as it was |
| LinearMemories.LinearMemory.AllocatePages | src/main/java/environment/LinearMemory.java:71-75 | the loop appends `ZeroPages(pageCount)` to the page list and keeps the maximum |
| LinearMemories.LinearMemory.ValidateBounds | src/main/java/environment/LinearMemory.java:135-143 | throws the index exception exactly when `address + offset + byteCount - 1`, computed in wrapping `int` arithmetic, is above the last valid index |
| LinearMemories.LinearMemory.Load | src/main/java/environment/LinearMemory.java:90-117 | the method gives `LoadResult`: it throws exactly where the code throws, and the bytes it assembles, most significant first, are the documented value |
| LinearMemories.LinearMemory.Store | src/main/java/environment/LinearMemory.java:130-133 | fails exactly when `StoreResult` does, and writes nothing |
| Functions.NewFunction | src/main/java/environment/Function.java:14-17 | a new function records its parameter and result counts; it has no code and no declared locals |
| Functions.LocalVariableCount | src/main/java/environment/Function.java:43-45 | `getLocalVariableCount` is the declared locals plus the parameters, as a wrapping `int` sum |
| Functions.SetThenGetLocalVariableCount | src/main/java/environment/Function.java:43-49 | after `setLocalVariableCount(n)`, `getLocalVariableCount` returns `n` plus the parameter count |
| Functions.SetParameterCountReflected | src/main/java/environment/Function.java:31-45 | a new parameter count shows in `getLocalVariableCount` and changes neither the result count nor the code |
| Functions.Function.constructor | src/main/java/environment/Function.java:14-17 | the new object's state is `NewFunction` |
| Functions.Function.GetInstructions | src/main/java/environment/Function.java:19-21 | returns the code, or null when none was set |
| Functions.Function.SetInstructions | src/main/java/environment/Function.java:23-25 | sets the code and no other field |
| Functions.Function.GetParameterCount | src/main/java/environment/Function.java:27-29 | returns the parameter count |
| Functions.Function.SetParameterCount | src/main/java/environment/Function.java:31-33 | sets the parameter count and no other field |
| Functions.Function.GetReturnValueCount | src/main/java/environment/Function.java:35-37 | returns the result count |
| Functions.Function.SetReturnValueCount | src/main/java/environment/Function.java:39-41 | sets the result count and no other field |
| Functions.Function.GetLocalVariableCount | src/main/java/environment/Function.java:43-45 | returns `LocalVariableCount` of the object's state |
| Functions.Function.SetLocalVariableCount | src/main/java/environment/Function.java:47-49 | sets the declared local count and no other field |
| Modules.Module.constructor | src/main/java/environment/Module.java:13-17 | stores the functions and the start index, and creates a fresh memory with the one-argument `LinearMemory` constructor |
| Modules.Module.GetLinearMemory | src/main/java/environment/Module.java:19-21 | returns the memory last supplied |
| Modules.Module.SetLinearMemory | src/main/java/environment/Module.java:23-25 | replaces the memory and no other field |
| Modules.Module.GetFunctions | src/main/java/environment/Module.java:27-29 | returns the function list last supplied |
| Modules.Module.SetFunctions | src/main/java/environment/Module.java:31-33 | replaces the function list and no other field |
| Modules.Module.GetStartFunctionIndex | src/main/java/environment/Module.java:35-37 | returns the start index last supplied |
| Modules.Module.SetStartFunctionIndex | src/main/java/environment/Module.java:39-41 | replaces the start index and no other field |
| ExecEnvFrames.NewFrame | src/main/java/environment/ExecEnvFrame.java:13-35 | a new frame has instruction pointer, if-depth and stack base 0, `ifBranch` true, every other flag false, and an empty end-stack and queues |
| ExecEnvFrames.NewLocals | src/main/java/environment/WasmInterpreter.java:58-59 | `new Integer[n]` has `n` null slots, and a negative size throws |
| ExecEnvFrames.GetLocal | src/main/java/environment/ExecEnvFrame.java:45-47 | reading a slot succeeds exactly when the index is inside the array and the slot was written; otherwise it throws the index or the null-pointer exception |
| ExecEnvFrames.SetLocal | src/main/java/environment/ExecEnvFrame.java:49-51 | with the value first and the index second, the write changes that slot only and keeps the array's length; an index outside the array throws |
| ExecEnvFrames.SetThenGetLocal | src/main/java/environment/ExecEnvFrame.java:45-51 | reading a slot just written gives the value written, and every other slot reads as before |
| ExecEnvFrames.UnwrittenSlotFails | src/main/java/environment/ExecEnvFrame.java:14-47 | no slot of a new frame can be read before it is written |
| ExecEnvFrames.PushEnd | src/main/java/environment/ExecEnvFrame.java:27 | pushing a marker puts it on top of the end-stack and changes nothing else |
| ExecEnvFrames.PopEnd | src/main/java/environment/ExecEnvFrame.java:27 | popping gives the marker pushed last; an empty end-stack throws |
| ExecEnvFrames.PopPush | src/main/java/environment/ExecEnvFrame.java:27 | a pop undoes a push |
| ExecEnvFrames.EnqueueOpcode | src/main/java/environment/ExecEnvFrame.java:29 | the byte is added at the end of the loop queue |
| ExecEnvFrames.PollOpcode | src/main/java/environment/ExecEnvFrame.java:29 | polling gives the oldest byte; on an empty queue `poll` gives null and unboxing it throws |
| ExecEnvFrames.EnqueueInt | src/main/java/environment/ExecEnvFrame.java:30 | the value is added at the end of the immediate queue |
| ExecEnvFrames.PollInt | src/main/java/environment/ExecEnvFrame.java:30 | polling gives the oldest value; an empty queue throws when unboxed |
| ExecEnvFrames.RotateOpcodes | src/main/java/environment/WasmInterpreter.java:79-80 | polling an opcode and adding it back rotates the recorded loop by one |
| ExecEnvFrames.LoopCleared | src/main/java/environment/ExecEnvFrame.java:133-140 | `resetLoop` empties both queues, zeroes the loop start and clears the three loop flags; it leaves the end-stack, if-depth, skip flag, branch flag, locals and instruction pointer unchanged |
| ExecEnvFrames.ResetLoopIdempotent | src/main/java/environment/ExecEnvFrame.java:133-140 | resetting twice is resetting once |
| ExecEnvFrames.ExecEnvFrame.constructor | src/main/java/environment/ExecEnvFrame.java:32-35 | the new frame holds the given function and slot array, with every other field at its initial value |
| ExecEnvFrames.ExecEnvFrame.GetLocalVariableByIndex | src/main/java/environment/ExecEnvFrame.java:45-47 | returns what `GetLocal` gives for the frame's state |
| ExecEnvFrames.ExecEnvFrame.SetLocalVariableByIndex | src/main/java/environment/ExecEnvFrame.java:49-51 | writes the slot in the array in place, as `SetLocal` describes, and changes nothing when it throws |
| ExecEnvFrames.ExecEnvFrame.SetInstructionPointer | src/main/java/environment/ExecEnvFrame.java:57-59 | sets that field and no other |
| ExecEnvFrames.ExecEnvFrame.SetIfDepth | src/main/java/environment/ExecEnvFrame.java:65-67 | sets that field and no other |
| ExecEnvFrames.ExecEnvFrame.SetOperandStackBase | src/main/java/environment/ExecEnvFrame.java:73-75 | sets that field and no other |
| ExecEnvFrames.ExecEnvFrame.SetIfBranch | src/main/java/environment/ExecEnvFrame.java:81-83 | sets that field and no other |
| ExecEnvFrames.ExecEnvFrame.SetSkipCode | src/main/java/environment/ExecEnvFrame.java:89-91 | sets that field and no other |
| ExecEnvFrames.ExecEnvFrame.SetFirstLoopExec | src/main/java/environment/ExecEnvFrame.java:101-103 | sets that field and no other |
| ExecEnvFrames.ExecEnvFrame.SetSavedLoopExec | src/main/java/environment/ExecEnvFrame.java:109-111 | sets that field and no other |
| ExecEnvFrames.ExecEnvFrame.SetLoopBeginInstructionPointer | src/main/java/environment/ExecEnvFrame.java:121-123 | sets that field and no other |
| ExecEnvFrames.ExecEnvFrame.SetSkipLoopCode | src/main/java/environment/ExecEnvFrame.java:125-127 | sets that field and no other |
| ExecEnvFrames.ExecEnvFrame.PushEndValue | src/main/java/environment/ExecEnvFrame.java:93-95 | pushes on the frame's end-stack, as `PushEnd` describes |
| ExecEnvFrames.ExecEnvFrame.PopEndValue | src/main/java/environment/ExecEnvFrame.java:93-95 | pops the frame's end-stack, as `PopEnd` describes, and changes nothing when the stack is empty |
| ExecEnvFrames.ExecEnvFrame.AddToLoopQueue | src/main/java/environment/ExecEnvFrame.java:113-115 | adds to the frame's loop queue |
| ExecEnvFrames.ExecEnvFrame.PollLoopQueue | src/main/java/environment/ExecEnvFrame.java:113-115 | polls the frame's loop queue, and changes nothing when it is empty |
| ExecEnvFrames.ExecEnvFrame.AddToIntLoopQueue | src/main/java/environment/ExecEnvFrame.java:142-144 | adds to the frame's immediate queue |
| ExecEnvFrames.ExecEnvFrame.PollIntLoopQueue | src/main/java/environment/ExecEnvFrame.java:142-144 | polls the frame's immediate queue, and changes nothing when it is empty |
| ExecEnvFrames.ExecEnvFrame.ResetLoop | src/main/java/environment/ExecEnvFrame.java:133-140 | the frame's new state is `LoopCleared` of the old one |
| Parser.Header | src/main/java/parser/BinaryParser.java:35-46 | the header check either passes with the stream moved forward or throws one of the two header exceptions |
| ParserProperties.HeaderChecked | src/main/java/parser/BinaryParser.java:36-46 | with at least eight bytes, the header passes exactly when they are `00 61 73 6D` and `01 00 00 00`, and then it leaves the stream at byte 8; a wrong magic number is reported as such |
| ParserProperties.TruncatedVersionAccepted | src/main/java/parser/BinaryParser.java:36-46 | the five bytes `00 61 73 6D 01` parse as an empty module, because the version array is padded with zeros |
| ParserProperties.HeaderOnly | src/main/java/parser/BinaryParser.java:23-101 | a header alone gives the initial parser state: no section, no function, start index -1, no memory |
| Parser.Section | src/main/java/parser/BinaryParser.java:48-98 | a known section throws if it is not after the previous one, and otherwise becomes the previous one; a custom section leaves the state as it was; any other identifier throws |
| Parser.Sections | src/main/java/parser/BinaryParser.java:48-99 | the loop over the sections stops at the end of the input with the module as it is, and a successful parse never lowers the last section seen |
| ParserProperties.SectionsKeepOrder | src/main/java/parser/BinaryParser.java:48-99 | the section loop never lowers the last known section, so known sections strictly increase |
| ParserProperties.SectionOutOfOrder | src/main/java/parser/BinaryParser.java:50-91 | a known section that repeats or comes after a later one is rejected with the wrong-order exception |
| ParserProperties.SectionEffects | src/main/java/parser/BinaryParser.java:48-97 | an accepted section changes only what its identifier says: the function and data sections nothing but the order, start the start index, type and code the functions, memory the memory |
| Parser.ValueTypes | src/main/java/parser/BinaryParser.java:222-251 | the parameter or result loop either moves the stream forward or throws the exception for its kind of type |
| ParserProperties.ValueTypesChecked | src/main/java/parser/BinaryParser.java:224-234 | the types pass exactly when each of the next `n` bytes is `i32` (0x7F) |
| BinaryParsers.ReadValueTypes | src/main/java/parser/BinaryParser.java:224-234 | the loop counting `numParams` down computes `ValueTypes` |
| Parser.TypeEntry | src/main/java/parser/BinaryParser.java:218-253 | a function type starts with 0x60 or throws; its new function records the parameter count read after the form byte and the result count read after the parameter types |
| ParserProperties.TypeFormChecked | src/main/java/parser/BinaryParser.java:218-220 | a type without the form byte 0x60 is rejected |
| Parser.TypeEntries | src/main/java/parser/BinaryParser.java:217-255 | the loop over the types appends one function per type |
| ParserProperties.TypeEntriesAppend | src/main/java/parser/BinaryParser.java:217-255 | the functions already in the list stay in front, and each appended one has no code and no declared locals; the first appended is `Function(numParams, numResults)` of the first entry, and the rest are what the remaining entries read after it, so every function carries its own entry's counts, in order |
| Parser.TypeSection | src/main/java/parser/BinaryParser.java:209-256 | the type section moves the stream forward when it succeeds; what it builds is stated by `ParserProperties.TypeSectionAppends` |
| ParserProperties.TypeSectionAppends | src/main/java/parser/BinaryParser.java:209-256 | the type section appends exactly one new function per type after the existing ones and changes no other field; the first new function has the counts of the first entry, and the others follow entry by entry |
| Parser.Reads | src/main/java/parser/BinaryParser.java:201-206 | the reads move the stream forward and never past its end |
| Parser.FunctionSection | src/main/java/parser/BinaryParser.java:194-207 | the function section only consumes bytes |
| Parser.MemoryMaximum | src/main/java/parser/BinaryParser.java:151-158 | without flags 1 the maximum is 128 and nothing is read |
| Parser.MemorySection | src/main/java/parser/BinaryParser.java:140-161 | the memory section moves the stream forward when it succeeds |
| ParserProperties.MemoryCountChecked | src/main/java/parser/BinaryParser.java:146-149 | a memory count other than 1 is rejected |
| ParserProperties.MemorySectionBuilds | src/main/java/parser/BinaryParser.java:140-161 | the memory is `LinearMemory(init, max)`: `init` is the LEB128 value after the flags; `max` is 128, or the next LEB128 value when the flags are 1; nothing else changes |
| ParserProperties.MemoryMaximumBounded | src/main/java/parser/BinaryParser.java:153-160 | a parsed memory never has a maximum above 128 pages |
| Parser.StartSection | src/main/java/parser/BinaryParser.java:131-138 | the start index becomes the raw byte after the section size, and nothing else changes |
| Parser.CodeEntry | src/main/java/parser/BinaryParser.java:112-128 | body `i` needs a function `i`, changes only that function, and keeps its signature |
| ParserProperties.CodeEntrySets | src/main/java/parser/BinaryParser.java:114-121 | body `i` sets the declared local count to the LEB128 value after the body size, and the code to the next `size - unsignedLeb128Size(count)` bytes |
| ParserProperties.CodeEntryNeedsFunction | src/main/java/parser/BinaryParser.java:117 | a body for a function the type section did not declare is an index error |
| Parser.CodeEntries | src/main/java/parser/BinaryParser.java:112-128 | the loop over the bodies keeps the number of functions |
| ParserProperties.CodeEntriesKeep | src/main/java/parser/BinaryParser.java:112-128 | bodies go to functions `i`, `i + 1` and so on: the functions before `i` and every signature stay as they were |
| Parser.CodeSection | src/main/java/parser/BinaryParser.java:104-129 | the code section changes only the functions, and keeps their number |
| ParserProperties.CodeSectionKeepsSignatures | src/main/java/parser/BinaryParser.java:104-129 | the code section fills in bodies only: the number of functions and every parameter and result count stay |
| Parser.DataBytes | src/main/java/parser/BinaryParser.java:188-190 | a segment's bytes throw the index exception exactly when its last byte `address + size - 1` is out of bounds, since each byte is checked and the last is the farthest; otherwise exactly `size` bytes are consumed and nothing is written |
| Parser.DataSegment | src/main/java/parser/BinaryParser.java:170-190 | a segment needs memory index 0 and an existing memory, each with its own exception, and the offset `0x41 address 0x0B` |
| ParserProperties.DataOffsetChecked | src/main/java/parser/BinaryParser.java:183-186 | an offset that is not `i32.const address end` is rejected |
| Parser.DataSegments | src/main/java/parser/BinaryParser.java:170-191 | the loop over the segments moves the stream forward |
| Parser.DataSection | src/main/java/parser/BinaryParser.java:164-192 | the data section moves the stream forward and, since `store` writes nothing, changes no parser field |
| BinaryParsers.BinaryParser.constructor | src/main/java/parser/BinaryParser.java:23-27 | a new parser has no previous section, no function, start index -1 and no memory |
| BinaryParsers.BinaryParser.Parse | src/main/java/parser/BinaryParser.java:30-102 | a bad header throws; otherwise the object's fields end as the section loop `Sections` describes, and the returned module holds the parsed functions, start index and memory |
| BinaryParsers.BinaryParser.ReadSection | src/main/java/parser/BinaryParser.java:49-98 | one turn of the section `switch` leaves the fields and the stream as `Section` describes |
| BinaryParsers.BinaryParser.ReadTypeSection | src/main/java/parser/BinaryParser.java:209-256 | the type loop appends new `Function` objects as `TypeSection` describes |
| BinaryParsers.BinaryParser.ReadTypeEntry | src/main/java/parser/BinaryParser.java:218-254 | one turn of the type loop is one step of `TypeEntries`, and it throws when `TypeEntries` does |
| BinaryParsers.BinaryParser.AddFunction | src/main/java/parser/BinaryParser.java:253 | `functions.add(f)` appends the new function's state and keeps the list free of repeats |
| BinaryParsers.BinaryParser.ReadFunctionSection | src/main/java/parser/BinaryParser.java:194-207 | the loop consumes the bytes that `FunctionSection` consumes |
| BinaryParsers.BinaryParser.ReadMemorySection | src/main/java/parser/BinaryParser.java:140-161 | the new memory object and the stream are the ones `MemorySection` describes |
| BinaryParsers.BinaryParser.ReadStartSection | src/main/java/parser/BinaryParser.java:131-138 | sets the start index as `StartSection` describes |
| BinaryParsers.BinaryParser.ReadCodeSection | src/main/java/parser/BinaryParser.java:104-129 | the loop updates the `Function` objects in place as `CodeSection` describes |
| BinaryParsers.BinaryParser.ReadCodeTurn | src/main/java/parser/BinaryParser.java:112-128 | one turn of the code loop is one step of `CodeEntries`, and it throws when `CodeEntries` does |
| BinaryParsers.BinaryParser.ReadCodeEntry | src/main/java/parser/BinaryParser.java:114-121 | body `currFun` updates that `Function` object in place, and the list's states become those of `CodeEntry` |
| BinaryParsers.BinaryParser.ReadDataSection | src/main/java/parser/BinaryParser.java:164-192 | the segment loop gives what `DataSection` gives |
| BinaryParsers.BinaryParser.ReadDataSegment | src/main/java/parser/BinaryParser.java:171-190 | one turn of the segment loop is one step of `DataSegments`, and it throws when `DataSegments` does |
| BinaryParsers.BinaryParser.ReadDataBytes | src/main/java/parser/BinaryParser.java:188-190 | the byte loop gives what `DataBytes` gives |
| Interpreter.Pop | src/main/java/environment/WasmInterpreter.java:43 | `pop` takes the top value off the operand stack; an empty stack throws |
| Interpreter.Peek | src/main/java/environment/WasmInterpreter.java:43 | `peek` gives the top value; an empty stack throws |
| Interpreter.ReadOpcode | src/main/java/environment/WasmInterpreter.java:82 | `(byte) read()` gives the next code byte, or 0xFF at the end of the code |
| Interpreter.ReadLoopSave | src/main/java/environment/WasmInterpreter.java:532-544 | a replayed immediate does not read the code, and no immediate changes the frame's function or locals |
| Interpreter.PassParameters | src/main/java/environment/WasmInterpreter.java:479-481 | passing parameters keeps the callee's function and its number of slots |
| Interpreter.CodeOf | src/main/java/environment/WasmInterpreter.java:485 | opening a function's code throws a null-pointer exception exactly when the function has none |
| Interpreter.Fetch | src/main/java/environment/WasmInterpreter.java:75-123 | an opcode replayed from the loop queue does not move the code stream |
| Interpreter.StoreParameters | src/main/java/environment/WasmInterpreter.java:61-64 | storing `execute`'s arguments fails with the index exception exactly when there are more arguments than slots; otherwise slot `k` holds argument `k`, every other slot and every other field of the frame is kept |
| Interpreter.Start | src/main/java/environment/WasmInterpreter.java:52-67 | `execute`'s set-up throws the index exception for a start index outside the functions; it succeeds exactly when the arguments fit the slots and the function has code; then the call stack gains one fresh frame for the start function whose first slots hold the arguments and whose other slots are null, the code is the start function's, and nothing else changes |
| Interpreter.Step | src/main/java/environment/WasmInterpreter.java:70-529 | one turn of the `while` loop: `InterpreterProperties.StepPlain`, `StepSkipping` and `StepFirstRun` state what it does in each mode, and `Interpreter.LoopTurn` how its outcome drives the loop |
| Interpreter.Execute | src/main/java/environment/WasmInterpreter.java:127-181 | skip mode or the `switch`: stated by `InterpreterProperties.StepSkipping` and `StepPlain` |
| Interpreter.Dispatch | src/main/java/environment/WasmInterpreter.java:181-523 | the `switch` on the opcode: `InterpreterProperties.DispatchNumeric`, `DispatchControl` and `DispatchMemory` route each group, and `InvalidOpcodeTraps` states the `default` case |
| Interpreter.Variable | src/main/java/environment/WasmInterpreter.java:185-205 | `i32.const` and the local-variable instructions: stated by `InterpreterProperties.ConstStep`, `GetLocalStep`, `SetLocalStep` and `TeeLocalStep` |
| Interpreter.MemoryAccess | src/main/java/environment/WasmInterpreter.java:210-273 | the memory instructions read their alignment and offset: stated by `InterpreterProperties.MemoryAccessStep` |
| Interpreter.Access | src/main/java/environment/WasmInterpreter.java:210-273 | the load or store itself: stated by `InterpreterProperties.LoadAccess` and `StoreAccess` |
| Interpreter.MemorySize | src/main/java/environment/WasmInterpreter.java:274-284 | `current_memory` and `grow_memory`: stated by `InterpreterProperties.CurrentMemoryStep` and `GrowMemoryStep` |
| Interpreter.Numeric | src/main/java/environment/WasmInterpreter.java:289-415 | the numeric instructions: stated by `InterpreterProperties.OneOperandStep`, `EqzStep`, `ClzStep`, `CtzStep`, `PopcntStep`, `TestStep`, `BinaryStep`, `ShiftStepSwapped` and `TwoOperandsMissing` |
| Interpreter.Control | src/main/java/environment/WasmInterpreter.java:420-523 | the control instructions: stated by the `InterpreterProperties` lemmas `UnreachableTraps`, `BlockStep`, `LoopStep`, `BrIfFirstRun`, `ElseStep`, `IfStep`, `CallStep`, `ReturnToCaller`, `NoOperationStep`, `EndOfCodeTraps`, `ValueTypeByteStep` and `InvalidOpcodeTraps` |
| Interpreter.BrIf | src/main/java/environment/WasmInterpreter.java:435-451 | `br_if`: stated by `InterpreterProperties.BrIfFirstRun` |
| Interpreter.If | src/main/java/environment/WasmInterpreter.java:456-465 | `if`: stated by `InterpreterProperties.IfStep` |
| Interpreter.Call | src/main/java/environment/WasmInterpreter.java:466-486 | `call` reads its index and enters the callee: stated by `InterpreterProperties.CallStep` |
| Interpreter.Enter | src/main/java/environment/WasmInterpreter.java:466-486 | entering a callee: stated by `InterpreterProperties.EnterCallee` and `CallEnters` |
| Interpreter.Return | src/main/java/environment/WasmInterpreter.java:488-508 | `return`: stated by `InterpreterProperties.ReturnFromLastFrame` and `ReturnToCaller` |
| Interpreter.SkipCode | src/main/java/environment/WasmInterpreter.java:127-179 | skipping an `if` branch: stated by `InterpreterProperties.SkipTracksBlocks`, `SkipPassesOver`, `ElseResumes`, `TakenBranchEnds` and `SkippedEndOfCodeHalts` |
| Interpreter.SkipLoop | src/main/java/environment/WasmInterpreter.java:83-107 | skipping a loop left by `br_if`: stated by `InterpreterProperties.SkipLoopTracksBlocks`, `SkipLoopPassesOver` and `SkipLoopEnds` |
| Interpreter.Run | src/main/java/environment/WasmInterpreter.java:52-529 | `execute` as a function: the set-up `Start`, then the loop; stated by `Interpreter.LoopTurn`, `LoopStops`, `LoopMoreFuel` and `WasmInterpreters.WasmInterpreter.Execute` |
| Interpreter.LoopTurn | src/main/java/environment/WasmInterpreter.java:70-529 | while code is left, an iteration that throws ends the run with its exception, a `return` from the last frame finishes it, and any other iteration continues it |
| Interpreter.LoopStops | src/main/java/environment/WasmInterpreter.java:70 | the loop ends when no code is left |
| Interpreter.LoopMoreFuel | src/main/java/environment/WasmInterpreter.java:70-529 | a run that ended within the fuel ends the same way with more fuel, so the fuel bound does not change any outcome it reaches |
| Interpreter.LoopResume | src/main/java/environment/WasmInterpreter.java:70-529 | running out of fuel and going on is the same as one longer run |
| InterpreterMemory.StepKeeps | src/main/java/environment/WasmInterpreter.java:70-529 | no iteration creates or drops the module's memory or changes its maximum page count |
| WasmInterpreters.WasmInterpreter.constructor | src/main/java/environment/WasmInterpreter.java:45-47 | a new interpreter holds the module and has empty stacks and instruction pointer 0 |
| WasmInterpreters.WasmInterpreter.Launch | src/main/java/environment/WasmInterpreter.java:52-67 | the set-up over the object's fields succeeds exactly when the start index is valid, the arguments fit the slots and the function has code; the call stack then gains one frame, for the start function, above the frames it had, and the instruction pointer, operand stack and memory are the object's |
| WasmInterpreters.WasmInterpreter.Adopt | src/main/java/environment/WasmInterpreter.java:70-529 | after a turn of the loop the object's fields and its module's memory pages hold the state the turn produced |
| WasmInterpreters.WasmInterpreter.Begin | src/main/java/environment/WasmInterpreter.java:52-67 | `execute`'s set-up on the object's fields gives exactly the state or the exception `Launch` describes |
| WasmInterpreters.WasmInterpreter.Resume | src/main/java/environment/WasmInterpreter.java:70-529 | the `while` loop over the object's fields gives what `Loop` gives, and leaves the final state in the fields and the module's memory |
| WasmInterpreters.WasmInterpreter.Execute | src/main/java/environment/WasmInterpreter.java:52-530 | `execute` throws what the set-up throws, and otherwise gives the result of the fuel-bounded `Run` over the module's functions |
| JavaInt.Wrap | src/main/java/environment/WasmInterpreter.java:352 | Java `int` arithmetic wraps modulo 2^32 into the `int` range |
| I32.Add | src/main/java/environment/WasmInterpreter.java:352 | `i32.add` is the sum modulo 2^32 |
| I32.Sub | src/main/java/environment/WasmInterpreter.java:357 | `i32.sub` is the difference modulo 2^32 |
| I32.Mul | src/main/java/environment/WasmInterpreter.java:362 | `i32.mul` is the product modulo 2^32 |
| I32.AddSubInverse | src/main/java/environment/WasmInterpreter.java:349-358 | subtracting and adding back the same value gives the original, overflow or not |
| I32.DivS | src/main/java/environment/WasmInterpreter.java:364-368 | signed division throws on a zero divisor, rounds toward zero, and only `Integer.MIN_VALUE / -1` wraps |
| I32.RemS | src/main/java/environment/WasmInterpreter.java:374-378 | signed remainder throws on a zero divisor and is the dividend minus the truncated quotient times the divisor |
| I32.DivRemIdentity | src/main/java/environment/WasmInterpreter.java:364-378 | `(a / b) * b + a % b == a` in `int` arithmetic for every non-zero divisor, including `Integer.MIN_VALUE / -1` |
| I32.DivRemOverflow | src/main/java/environment/WasmInterpreter.java:364-378 | `Integer.MIN_VALUE / -1` is `Integer.MIN_VALUE` and its remainder is 0 |
| I32.RemSign | src/main/java/environment/WasmInterpreter.java:374-378 | the remainder has the dividend's sign and is smaller than the divisor in magnitude |
| I32.DivU | src/main/java/environment/WasmInterpreter.java:369-373 | unsigned division throws on 0 and gives the quotient of the unsigned readings |
| I32.RemU | src/main/java/environment/WasmInterpreter.java:379-383 | unsigned remainder throws on 0 and gives the remainder of the unsigned readings |
| I32.DivRemUnsigned | src/main/java/environment/WasmInterpreter.java:369-383 | the unsigned quotient and remainder rebuild the unsigned dividend |
| I32.Bitwise32 | src/main/java/environment/WasmInterpreter.java:388-396 | `&`, `|` and `^` combine the 32 bits of the operands bit by bit |
| I32.XorInvolutive | src/main/java/environment/WasmInterpreter.java:394-396 | `^` with the same operand twice gives the original |
| I32.BitwiseIdentities | src/main/java/environment/WasmInterpreter.java:388-396 | `a & a == a`, `a | a == a`, `a | 0 == a` and `a ^ 0 == a` |
| I32.Distance | src/main/java/environment/WasmInterpreter.java:401-415 | a shift or rotation distance is the operand's low five bits |
| I32.Shl | src/main/java/environment/WasmInterpreter.java:401-403 | `<<` multiplies by 2^distance modulo 2^32 |
| I32.ShrS | src/main/java/environment/WasmInterpreter.java:404-406 | `>>` divides by 2^distance, rounding toward negative infinity |
| I32.ShrU | src/main/java/environment/WasmInterpreter.java:407-409 | `>>>` divides the unsigned reading by 2^distance |
| I32.RotateInverse | src/main/java/environment/WasmInterpreter.java:410-415 | `rotateRight` by a distance undoes `rotateLeft` by the same distance |
| I32.Clz | src/main/java/environment/WasmInterpreter.java:334-336 | the leading-zero count places the highest set bit: it is 32 exactly for 0 and 0 exactly for negative values |
| I32.Ctz | src/main/java/environment/WasmInterpreter.java:337-339 | the trailing-zero count is the index of the lowest set bit, and 32 for 0 |
| I32.Popcnt | src/main/java/environment/WasmInterpreter.java:340-342 | `Integer.bitCount` is the number of the 32 bits that are set, and 0 exactly for 0 |
| I32.RotL | src/main/java/environment/WasmInterpreter.java:410-412 | `Integer.rotateLeft`: bit `i` of the result is bit `(i - distance) mod 32` of the operand |
| I32.RotR | src/main/java/environment/WasmInterpreter.java:413-415 | `Integer.rotateRight`: bit `i` of the result is bit `(i + distance) mod 32` of the operand |
| I32.OneBitsCount | src/main/java/environment/WasmInterpreter.java:340-342 | the count by halving and the count of set bits among the low `n` bits agree for any number below 2^n |
| I32Instructions.CompareUnsignedLong | src/main/java/environment/WasmInterpreter.java:301-328 | `Long.compareUnsigned` of two widened `int`s is negative, zero or positive as their unsigned 64-bit readings compare |
| I32Instructions.CompareUnsignedLongIs32Bit | src/main/java/environment/WasmInterpreter.java:301-328 | comparing the widened `long`s orders the `int`s as unsigned 32-bit numbers |
| I32Instructions.Test | src/main/java/environment/WasmInterpreter.java:292-328 | every comparison pushes only 0 or 1 |
| I32Instructions.TestDecidesRelation | src/main/java/environment/WasmInterpreter.java:289-329 | each comparison pushes 1 exactly when its WebAssembly relation holds between the operands in push order, signed for `_s` and unsigned for `_u`, and 0 otherwise |
| I32Instructions.Eqz | src/main/java/environment/WasmInterpreter.java:289-291 | `eqz` pushes 1 exactly for 0 |
| I32Instructions.Unary | src/main/java/environment/WasmInterpreter.java:334-342 | `clz`, `ctz` and `popcnt` push a count between 0 and 32 |
| I32Instructions.Binary | src/main/java/environment/WasmInterpreter.java:349-415 | the corrected binary dispatch: it throws exactly on a zero divisor of a division or remainder, and shifts and rotations shift the lower operand by the top one, in WebAssembly's order |
| I32Instructions.BinaryAsWritten | src/main/java/environment/WasmInterpreter.java:349-415 | the dispatch the interpreter runs agrees with `Binary` on arithmetic and bitwise operators, and on shifts and rotations shifts the top operand by the one below it |
| I32Instructions.ShiftOperandsSwapped | src/main/java/environment/WasmInterpreter.java:401-403 | with 1 pushed and then 3, `shl` as written pushes 6, while WebAssembly's `1 << 3` is 8 |
| InterpreterProperties.ShiftStepSwapped | src/main/java/environment/WasmInterpreter.java:401-415 | in one iteration, a shift or rotation pops two operands and pushes the top one shifted by the one below it |
| I32Instructions.ArithmeticOperandOrder | src/main/java/environment/WasmInterpreter.java:349-383 | sub, div and rem take the operand pushed first as the left-hand side: `(a - b) + b == a`, and the quotient and remainder rebuild `a` |
| InterpreterProperties.StepPlain | src/main/java/environment/WasmInterpreter.java:70-123 | outside skip mode and loop recording, an iteration reads the next code byte and dispatches on it |
| InterpreterProperties.InvalidOpcodeTraps | src/main/java/environment/WasmInterpreter.java:522-523 | outside skip mode and loop recording, an opcode that has no case in the `switch` throws the invalid-instruction parser exception |
| InterpreterProperties.StepFirstRun | src/main/java/environment/WasmInterpreter.java:109-113 | in a loop's first run, an opcode other than `end` is read, added to the loop queue and dispatched |
| InterpreterProperties.BrIfFirstRun | src/main/java/environment/WasmInterpreter.java:435-451 | `br_if` in a loop's first run records itself and its depth byte; a non-zero condition is popped, the recorded loop is forgotten and the loop is skipped, and a zero condition stays on the stack while the loop goes on |
| InterpreterProperties.SkipLoopTracksBlocks | src/main/java/environment/WasmInterpreter.java:83-98 | while a loop left by `br_if` is skipped, `if`, `block` and `loop` push their markers |
| InterpreterProperties.SkipLoopPassesOver | src/main/java/environment/WasmInterpreter.java:100-107 | while a loop is skipped, an instruction that neither opens nor closes a block is passed over |
| InterpreterProperties.SkipLoopEnds | src/main/java/environment/WasmInterpreter.java:100-104 | the `end` of the skipped loop pops its marker and forgets the loop, which ends the skipping, without moving the instruction pointer |
| InterpreterProperties.BinaryStep | src/main/java/environment/WasmInterpreter.java:349-415 | a binary operator pops two operands and pushes exactly one result, the one the dispatch as written computes, or throws on a zero divisor |
| InterpreterProperties.TestStep | src/main/java/environment/WasmInterpreter.java:289-329 | a comparison pops two operands and pushes 1 when its relation holds in push order, and 0 otherwise |
| InterpreterProperties.EqzStep | src/main/java/environment/WasmInterpreter.java:289-291 | `i32.eqz` pops one operand and pushes 1 exactly when it is zero and 0 otherwise; on an empty stack it throws |
| InterpreterProperties.OneOperandStep | src/main/java/environment/WasmInterpreter.java:289-342 | `i32.eqz`, `clz`, `ctz` and `popcnt` pop one operand, push one result and move one byte on; on an empty stack they throw |
| InterpreterProperties.ClzStep | src/main/java/environment/WasmInterpreter.java:334-336 | `i32.clz` pops one operand and pushes `Integer.numberOfLeadingZeros` of it; on an empty stack it throws |
| InterpreterProperties.CtzStep | src/main/java/environment/WasmInterpreter.java:337-339 | `i32.ctz` pops one operand and pushes `Integer.numberOfTrailingZeros` of it; on an empty stack it throws |
| InterpreterProperties.PopcntStep | src/main/java/environment/WasmInterpreter.java:340-342 | `i32.popcnt` pops one operand and pushes `Integer.bitCount` of it; on an empty stack it throws |
| InterpreterProperties.TwoOperandsMissing | src/main/java/environment/WasmInterpreter.java:292-415 | a comparison or a binary operator with fewer than two operands throws on the missing pop |
| InterpreterProperties.UnreachableTraps | src/main/java/environment/WasmInterpreter.java:420-421 | `unreachable` throws |
| InterpreterProperties.EndOfCodeTraps | src/main/java/environment/WasmInterpreter.java:517-518 | reading past the end of the code gives the byte -1, which throws |
| InterpreterProperties.ReturnFromLastFrame | src/main/java/environment/WasmInterpreter.java:491-501 | `return` from the only frame ends execution exactly when the values above the frame's base are as many as the function returns, and throws otherwise |
| InterpreterProperties.ImmediateDecodes | src/main/java/environment/WasmInterpreter.java:185-190 | an instruction's LEB128 immediate decodes back to its value and is as long as `unsignedLeb128Size` says |
| InterpreterProperties.ConstStep | src/main/java/environment/WasmInterpreter.java:185-190 | `i32.const` pushes exactly the value its immediate encodes and moves past the immediate |
| InterpreterProperties.GetLocalStep | src/main/java/environment/WasmInterpreter.java:191-195 | `get_local` pushes exactly the value of the named slot; an unset slot or a slot out of range throws |
| InterpreterProperties.SetLocalStep | src/main/java/environment/WasmInterpreter.java:196-200 | `set_local` pops the top value into the named slot |
| InterpreterProperties.TeeLocalStep | src/main/java/environment/WasmInterpreter.java:201-205 | `tee_local` copies the top value into the named slot and leaves the stack as it was |
| InterpreterProperties.IfStep | src/main/java/environment/WasmInterpreter.java:456-465 | `if` pops its condition, pushes an IF marker, raises the if-depth, and enters skip mode exactly when the condition is 0 |
| InterpreterProperties.ElseStep | src/main/java/environment/WasmInterpreter.java:452-455 | `else` reached while running the `then` branch starts skipping |
| InterpreterProperties.BlockStep | src/main/java/environment/WasmInterpreter.java:425-427 | `block` pushes its marker and changes nothing else |
| InterpreterProperties.LoopStep | src/main/java/environment/WasmInterpreter.java:428-434 | `loop` pushes its marker and starts recording at the current instruction pointer |
| InterpreterProperties.NoOperationStep | src/main/java/environment/WasmInterpreter.java:514-516 | `nop` and `drop` change nothing but the position: `drop` leaves the stack as it was |
| InterpreterProperties.StepSkipping | src/main/java/environment/WasmInterpreter.java:127-179 | in skip mode an iteration reads the next code byte and hands it to the skip mode |
| InterpreterProperties.SkipTracksBlocks | src/main/java/environment/WasmInterpreter.java:129-143 | while skipping, `block`, `loop` and `if` only push their markers |
| InterpreterProperties.SkipPassesOver | src/main/java/environment/WasmInterpreter.java:177-178 | while skipping, any other instruction is passed over |
| InterpreterProperties.ElseResumes | src/main/java/environment/WasmInterpreter.java:145-152 | the `else` at the depth of the `if` whose condition was 0 resumes execution |
| InterpreterProperties.TakenBranchEnds | src/main/java/environment/WasmInterpreter.java:153-162 | the `end` of an `if` whose `then` branch ran closes it: execution resumes and the if-depth drops |
| InterpreterProperties.SkippedEndOfCodeHalts | src/main/java/environment/WasmInterpreter.java:164-168 | while skipping, an `end` with an empty end-stack ends `execute` |
| InterpreterProperties.PassParametersPlaces | src/main/java/environment/WasmInterpreter.java:479-481 | the callee's parameters are popped so that its slots hold them in push order, the top value in the last slot; nothing else in the frame changes |
| InterpreterProperties.EnterCallee | src/main/java/environment/WasmInterpreter.java:466-486 | a call index outside the module's functions throws; a callee that can be entered gets a new frame holding its arguments |
| InterpreterProperties.CallStep | src/main/java/environment/WasmInterpreter.java:466-486 | `call` reads its LEB128 index and enters the callee in one iteration |
| InterpreterProperties.CallEnters | src/main/java/environment/WasmInterpreter.java:466-486 | before popping the arguments, a call saves the caller's instruction pointer and operand-stack size, then moves the arguments into the callee's frame and opens the callee's code |
| InterpreterProperties.ReturnToCaller | src/main/java/environment/WasmInterpreter.java:502-508 | `return` from a called function drops its frame and reopens the caller's code at `(int) instructionPointer + 1`, both steps wrapping; a negative offset is an `IndexOutOfBoundsException`, no code a `NullPointerException` |
| InterpreterProperties.EnteredThenReturn | src/main/java/environment/WasmInterpreter.java:488-508 | a callee whose code starts with `return` goes straight back to its caller |
| InterpreterProperties.CallThenReturn | src/main/java/environment/WasmInterpreter.java:466-508 | calling a function whose code starts with `return` comes back past the call's index, with the arguments consumed and the call site saved in the caller's frame, for caller code no longer than a Java array can be |
| InterpreterProperties.CurrentMemoryStep | src/main/java/environment/WasmInterpreter.java:274-278 | `current_memory` skips its reserved byte and pushes the page count; without a memory it throws |
| InterpreterProperties.GrowMemoryStep | src/main/java/environment/WasmInterpreter.java:279-284 | `grow_memory` pops a page count and pushes what `growMemory` as written returns, the old count or -1, with the memory it leaves; where it throws `OutOfMemoryError` the iteration throws it; without a memory it throws a null-pointer exception |
| InterpreterProperties.EmptyBlockTypeGrows | src/main/java/environment/WasmInterpreter.java:425-427 | a `block` with the empty block type 0x40 leaves that byte to the next iteration, which executes it as `grow_memory` as written |
| InterpreterProperties.ValueTypeByteStep | src/main/java/environment/WasmInterpreter.java:519-521 | the byte 0x7F after a typed block is executed as an instruction that does nothing |
| InterpreterProperties.MemoryImmediatesDecode | src/main/java/environment/WasmInterpreter.java:210-216 | a memory instruction's alignment and offset immediates decode back, each as long as its size says |
| InterpreterProperties.LoadAccess | src/main/java/environment/WasmInterpreter.java:210-249 | a load pops the address and pushes what `load` as written gives at the wrapped `address + offset`, throwing exactly where it throws; without a memory it throws |
| InterpreterProperties.StoreAccess | src/main/java/environment/WasmInterpreter.java:250-273 | a store pops the value and then the address; it throws exactly when the bounds check as written fails, and otherwise the memory stays as it was |
| InterpreterProperties.MemoryAccessStep | src/main/java/environment/WasmInterpreter.java:210-273 | with alignment and offset below 2^31, a load or store reads both immediates and then accesses memory as written with the offset, in one iteration |

## Left out

- `parse(File)` reads the file with `Files.readAllBytes`. That file reading is I/O, so `BinaryParsers.BinaryParser.Parse` takes the bytes instead.
- The slf4j logging, including the `LOG.info` of the popped value at a normal-mode `end`, is left out; the pop itself is modelled.
- The empty `step()` method of `WasmInterpreter` does nothing, so it is not modelled.
- `Main`, both `Benchmarker` classes, the superseded `parser/binary/BinaryParser`, the old `CallStackFrame`, `Function` and `WASMInterpreter` stubs, and the `Parser` interface are not part of this model.
- The constant classes (`BinaryFormat`, `ImplementationSpecific`, `WebAssemblySpecification`) are not modelled as code; their values are the constants of module `Constants`.
- `ByteArrayInputStream` is a value (buffer, position, count) threaded through the calls rather than a shared object. Since no two parts of the code read the same stream, no aliasing is lost.
- The getters of `ExecEnvFrame` (`getIfDepth`, `isSkipCode` and so on) are reads of the frame's `Model()`, not separate methods. `getFunction`, `getLocalVariables` and `getEndStack` likewise return the frame's fields.
- The interpreter's frames are values inside the machine state, so `callStack.peek()` updates only the top frame. This matches the Java code, which never keeps a second reference to a frame.
- Interpreter.Run and WasmInterpreters.WasmInterpreter.Execute: `execute` may run forever, so the model runs at most `fuel` iterations and reports `OutOfFuel`. `Interpreter.LoopMoreFuel` shows that more fuel never changes an outcome that was reached.
- LinearMemories.LinearMemory.Load, LinearMemories.LoadResult: `load` throws where the code as written throws (the wrapping bounds check, a negative index, a missing page, bytes past the start page), but its value is the documented one (little-endian bytes at the effective address, then extension), not what the loop computes. The loop shifts `value` by itself and places the bytes in the wrong positions, so its value is not a specification anyone could rely on. `load` returns `long` in Java; the model returns the `int` value that is widened.
- LinearMemories.LinearMemory.Store: the bounds check is modelled, and the missing write is modelled as no write.
- LinearMemories.GrowAsWritten, LinearMemories.LinearMemory.GrowMemory: when the allocation runs out of memory, Java has already added some pages before the error; the model leaves the page list as it was. Heap exhaustion is not modelled below `Integer.MAX_VALUE` pages.
- Interpreter.ReadLoopSave, Interpreter.Fetch: the loop record/replay machinery (`loopQueue`, `intLoopQueue`, `skipLoopCode`) is modelled as FIFO queues. Their contracts state only that a replayed value does not read the code; the replay is otherwise specified by its definition.
- Interpreter.Return: a stream opened at a negative offset throws `IndexOutOfBoundsException` only when it is first read. The model raises it at the `return` itself. A run that replays a loop from the queue and returns again before reading that stream throws in the model but not in Java.
- Interpreter.PassParameters: its own contract states only that the frame's function and slot count are kept. What the slots hold is stated by `InterpreterProperties.PassParametersPlaces`.
- Parser.TypeSection, Parser.MemorySection, Parser.CodeSection, Parser.DataSegments: the functions' own contracts are about the stream. What they build is stated by the `ParserProperties` lemmas beside them.

## Findings

| source | as written | input that shows it | evidently intended | confidence | as-written member | corrected member |
|---|---|---|---|---|---|---|
| src/main/java/environment/LinearMemory.java:61 | `allocatedPages.size() + deltaPages > maxPageCount` is an `int` comparison, and the sum wraps | a memory of 1 page out of 1 grown by `Integer.MAX_VALUE`: the sum wraps to `Integer.MIN_VALUE`, the check passes, and pages are added past `maxPageCount` until the allocation throws `OutOfMemoryError` | -1 for any request past the maximum, so that `pages <= maxPageCount` always holds | not executed | LinearMemories.GrowAsWrittenOverflows | LinearMemories.GrowKeepsWithinMax |
| src/main/java/environment/LinearMemory.java:55-61 | the delta is compared as a signed `int`, although it is documented as unsigned | delta -1 (2^32 - 1 pages unsigned) on a memory of 1 page out of 1: the check passes, nothing is added and 1 is returned as if the growth had succeeded | -1, since 2^32 - 1 more pages exceed the maximum | not executed | LinearMemories.GrowAsWrittenAcceptsNegative | LinearMemories.Grow |
| src/main/java/environment/LinearMemory.java:137 | `address + offset + byteCount - 1` is computed on `int` and wraps | address -4 (0xFFFFFFFC), offset 0, four bytes, on a one-page memory: the accessed index looks like -1, the check passes, and a store there succeeds silently | addresses and offsets are unsigned 32-bit numbers, and an access past the last byte is rejected | not executed | LinearMemories.OutOfBoundsAsWrittenMissesNegative | LinearMemories.LoadIntended |
| src/main/java/environment/LinearMemory.java:93 | `int effectiveAddress = address + offset` wraps | `load(Integer.MIN_VALUE, Integer.MIN_VALUE, _, 4, false)` on one page: the address wraps to 0 and the word at 0 is read | the access 2^32 bytes out is rejected | not executed | LinearMemories.LoadAsWrittenWrapsToZero | LinearMemories.LoadIntended |
| src/main/java/environment/LinearMemory.java:94-104 | the loop reads only the page the access starts on, indexing it from the last byte's page offset downwards | a two-byte load at address 65535 of a two-page memory: the index 0 - 1 is negative and the load throws | an unaligned load that crosses a page boundary reads both pages | not executed | LinearMemories.LoadAsWrittenRejectsPageCrossing | LinearMemories.LoadIntended |
| src/main/java/environment/WasmInterpreter.java:401-415 | `pop() << pop()` shifts the top operand by the one below it | push 1, push 3, `i32.shl`: the code pushes 6 (`3 << 1`) | WebAssembly's `1 << 3` = 8, the operand order used for sub and div | not executed | InterpreterProperties.ShiftStepSwapped | I32Instructions.Binary |
