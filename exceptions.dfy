/** The exceptions the decoder and the interpreter raise, as values. */
module Exceptions {
  import opened Wrappers

  /** The message carried by a `ParserException`, which both the decoder and the interpreter throw. */
  datatype Reason =
    | InvalidLeb128
    | NoValidWasmFile
    | InvalidVersion
    | WrongSectionOrder(sectionId: int)
    | InvalidSectionType
    | BadFunctionHeader
    | InvalidParameterType
    | InvalidResultType
    | OnlyOneMemoryBlock
    | OnlyMemoryIndexZero
    | NoLinearMemoryForData
    | MalformedDataSegmentOffset
    | ReachedUnreachable
    | WrongReturnValueCount(expected: int, actual: int)
    | UnexpectedEndOfFile
    | InvalidInstruction

  datatype Exception =
    | ParserException(reason: Reason)
      /** `SpecificationValueBoundaryViolationException`: a limit of the specification or the implementation. */
    | BoundaryViolation
      /** `IndexOutOfBoundsException` of a list, an array or linear memory. */
    | IndexOutOfBounds
    | NegativeArraySize
      /** A null reference dereferenced or a null `Integer`/`Byte` unboxed. */
    | NullPointer
      /** `EmptyStackException`: `pop` or `peek` on an empty `java.util.Stack`. */
    | EmptyStack
      /** `ArithmeticException`: integer division by zero. */
    | DivisionByZero
      /** `OutOfMemoryError`: more pages requested than a Java list or the heap can hold. */
    | OutOfMemory
      /** Not an exception: the Java code never returns (a loop that does not terminate). */
    | Divergence

  type Outcome<T> = Result<T, Exception>
}
