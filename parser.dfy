/**
 * The binary module decoder as functions over the input stream: the header check, the section
 * loop with its order check, and one function per known section. Vector counts, section and body
 * sizes, the start index and the data address and size are single raw bytes (`read()`, -1 at the
 * end of the input); only the local count and the memory limits are LEB128.
 */
module Parser {
  import opened Wrappers
  import opened Exceptions
  import opened JavaInt
  import opened ByteStreams
  import Leb128
  import opened Functions
  import opened LinearMemories
  import C = Constants

  /** The parser's fields: the last known section, the functions, the start index and the memory. */
  datatype Decoded = Decoded(
    previousSection: int,
    functions: seq<FunctionData>,
    startFunctionIndex: int32,
    memory: Option<Memory>)

  /** A new `BinaryParser`: no section seen, no function, no start function, no memory. */
  const Initial: Decoded := Decoded(-1, [], -1, None)

  /** What the `k`-th next `read()` gives: the byte, or -1 once the input is exhausted. */
  function Ahead(s: Stream, k: nat): (b: int)
    ensures -1 <= b < 256
  {
    if s.pos + k < s.count then s.buf[s.pos + k] as int else -1
  }

  /** Reading one byte moves what lies ahead by one. */
  lemma AheadRead(s: Stream, k: nat)
    ensures Read(s).0 == Ahead(s, 0)
    ensures Ahead(Read(s).1, k) == Ahead(s, k + 1)
  {
  }

  /** The section identifiers the order check knows, and the custom section. */
  predicate Known(id: int) {
    id in {C.SECTION_TYPE, C.SECTION_FUNCTION, C.SECTION_MEMORY, C.SECTION_START, C.SECTION_CODE, C.SECTION_DATA}
  }

  // ---------------------------------------------------------------------------------------------
  // Header.

  /** The magic number and the version, each read into a fresh four-byte array. */
  function Header(s: Stream): (r: Outcome<Stream>)
    ensures r.Ok? ==> Advanced(s, r.value)
    ensures r.Err? ==> r.error in {ParserException(NoValidWasmFile), ParserException(InvalidVersion)}
  {
    var (magic, s1) := ReadBytes(s, 4);
    if magic != C.MAGIC then Err(ParserException(NoValidWasmFile))
    else
      var (version, s2) := ReadBytes(s1, 4);
      if version != C.VERSION then Err(ParserException(InvalidVersion))
      else Ok(s2)
  }

  // ---------------------------------------------------------------------------------------------
  // Type section.

  /** `n` value-type bytes, each of which must be `i32`; otherwise the exception carries `reason`. */
  function ValueTypes(s: Stream, n: int, reason: Reason): (r: Outcome<Stream>)
    ensures r.Ok? ==> Advanced(s, r.value)
    ensures r.Err? ==> r.error == ParserException(reason)
    ensures r.Ok? ==> r.value == s.(pos := s.pos + (if n < 0 then 0 else n))
    decreases n
  {
    if n <= 0 then Ok(s)
    else
      var (b, s1) := Read(s);
      if b != C.TYPE_I32 as int then Err(ParserException(reason))
      else ValueTypes(s1, n - 1, reason)
  }

  /** One function type: the form byte 0x60, the parameter types, the result types. */
  function TypeEntry(s: Stream): (r: Outcome<(FunctionData, Stream)>)
    ensures r.Ok? ==> Advanced(s, r.value.1) && s.pos < r.value.1.pos
    ensures r.Ok? ==> Ahead(s, 0) == C.FUNCTION_TYPE as int
    ensures r.Ok? ==> r.value.0 == NewFunction(Ahead(s, 1), Ahead(s, 2 + (if Ahead(s, 1) < 0 then 0 else Ahead(s, 1))))
    ensures Ahead(s, 0) != C.FUNCTION_TYPE as int ==> r.Err? && r.error == ParserException(BadFunctionHeader)
  {
    var (form, s1) := Read(s);
    if form != C.FUNCTION_TYPE as int then Err(ParserException(BadFunctionHeader))
    else
      var (numParams, s2) := Read(s1);
      var s3 :- ValueTypes(s2, numParams, InvalidParameterType);
      var (numResults, s4) := Read(s3);
      var s5 :- ValueTypes(s4, numResults, InvalidResultType);
      Ok((NewFunction(numParams, numResults), s5))
  }

  /** `while (numTypes > 0)`: one new function per type, appended in order. */
  function TypeEntries(fs: seq<FunctionData>, s: Stream, numTypes: int): (r: Outcome<(seq<FunctionData>, Stream)>)
    ensures r.Ok? ==> Advanced(s, r.value.1)
    ensures r.Ok? ==> |r.value.0| == |fs| + (if numTypes < 0 then 0 else numTypes)
    decreases numTypes, 1
  {
    if numTypes <= 0 then Ok((fs, s)) else TypeTurn(fs, s, numTypes)
  }

  /** One turn of that loop: a function type, then the `numTypes - 1` after it. */
  function TypeTurn(fs: seq<FunctionData>, s: Stream, numTypes: int): (r: Outcome<(seq<FunctionData>, Stream)>)
    requires numTypes > 0
    ensures r.Ok? ==> Advanced(s, r.value.1) && |r.value.0| == |fs| + numTypes
    decreases numTypes, 0
  {
    var e :- TypeEntry(s);
    TypeEntries(fs + [e.0], e.1, numTypes - 1)
  }

  /** `readTypeSection`: the section size (ignored), the number of types, the types. */
  function TypeSection(d: Decoded, s: Stream): (r: Outcome<(Decoded, Stream)>)
    ensures r.Ok? ==> Advanced(s, r.value.1)
  {
    var (_, s1) := Read(s);
    var (numTypes, s2) := Read(s1);
    var e :- TypeEntries(d.functions, s2, numTypes);
    Ok((d.(functions := e.0), e.1))
  }

  // ---------------------------------------------------------------------------------------------
  // Function section.

  /** `n` reads whose results are dropped. */
  function Reads(s: Stream, n: int): (r: Stream)
    ensures Advanced(s, r)
    decreases n
  {
    if n <= 0 then s else Reads(Read(s).1, n - 1)
  }

  /** `readFunctionSection`: the signature indices are read and dropped. */
  function FunctionSection(s: Stream): (r: Stream)
    ensures Advanced(s, r)
  {
    var (_, s1) := Read(s);
    var (numFun, s2) := Read(s1);
    Reads(s2, numFun)
  }

  // ---------------------------------------------------------------------------------------------
  // Memory section.

  /** The maximum page count: 128 unless `flags` is 1, when it follows the initial count as LEB128. */
  function MemoryMaximum(flags: int, s: Stream): (r: Outcome<(int32, Stream)>)
    ensures r.Ok? ==> Advanced(s, r.value.1)
    ensures flags != 1 ==> r == Ok((C.PAGE_COUNT_MAX, s))
  {
    if flags == 1 then
      var v :- Leb128.DecodeUnsigned(s);
      Ok((Signed(v.0), v.1))
    else Ok((C.PAGE_COUNT_MAX, s))
  }

  /** `readMemorySection`: exactly one memory; its initial page count and maximum as `LinearMemory(init, max)`. */
  function MemorySection(d: Decoded, s: Stream): (r: Outcome<(Decoded, Stream)>)
    ensures r.Ok? ==> Advanced(s, r.value.1)
  {
    var (_, s1) := Read(s);
    var (numMem, s2) := Read(s1);
    if numMem != 1 then Err(ParserException(OnlyOneMemoryBlock))
    else
      var (flags, s3) := Read(s2);
      var initial :- Leb128.DecodeUnsigned(s3);
      var maximum :- MemoryMaximum(flags, initial.1);
      var memory :- New(Signed(initial.0), maximum.0);
      Ok((d.(memory := Some(memory)), maximum.1))
  }

  // ---------------------------------------------------------------------------------------------
  // Start section.

  /** `readStartSection`: the start index is one raw byte. */
  function StartSection(d: Decoded, s: Stream): (r: (Decoded, Stream))
    ensures Advanced(s, r.1)
    ensures r.0 == d.(startFunctionIndex := Ahead(s, 1))
  {
    var (_, s1) := Read(s);
    var (index, s2) := Read(s1);
    (d.(startFunctionIndex := index), s2)
  }

  // ---------------------------------------------------------------------------------------------
  // Code section.

  /**
   * The body of function `i`: its size, its local count (LEB128), then `size - unsignedLeb128Size(count)`
   * bytes of code read into a fresh array.
   */
  function CodeEntry(fs: seq<FunctionData>, i: int, s: Stream): (r: Outcome<(seq<FunctionData>, Stream)>)
    ensures r.Ok? ==> Advanced(s, r.value.1)
    ensures r.Ok? ==> 0 <= i < |fs| && |r.value.0| == |fs|
    ensures r.Ok? ==> forall j {:trigger r.value.0[j]} :: 0 <= j < |fs| && j != i ==> r.value.0[j] == fs[j]
    ensures r.Ok? ==> r.value.0[i].parameterCount == fs[i].parameterCount
    ensures r.Ok? ==> r.value.0[i].returnValueCount == fs[i].returnValueCount
  {
    var (bodySize, s1) := Read(s);
    var count :- Leb128.DecodeUnsigned(s1);
    if !(0 <= i < |fs|) then Err(IndexOutOfBounds)
    else
      var n :- Leb128.Size(count.0);
      var length := bodySize - n;
      if length < 0 then Err(NegativeArraySize)
      else
        var (body, s2) := ReadBytes(count.1, length);
        Ok((fs[i := fs[i].(localVariableCount := Signed(count.0), instructions := Some(body))], s2))
  }

  /** `while (numFun > 0)`: the bodies go to functions `i`, `i + 1`, ... in order. */
  function CodeEntries(fs: seq<FunctionData>, s: Stream, i: nat, numFun: int): (r: Outcome<(seq<FunctionData>, Stream)>)
    ensures r.Ok? ==> Advanced(s, r.value.1) && |r.value.0| == |fs|
    decreases numFun, 1
  {
    if numFun <= 0 then Ok((fs, s)) else CodeTurn(fs, s, i, numFun)
  }

  /** One turn of that loop: body `i`, then the `numFun - 1` bodies after it. */
  function CodeTurn(fs: seq<FunctionData>, s: Stream, i: nat, numFun: int): (r: Outcome<(seq<FunctionData>, Stream)>)
    requires numFun > 0
    ensures r.Ok? ==> Advanced(s, r.value.1) && |r.value.0| == |fs|
    decreases numFun, 0
  {
    var e :- CodeEntry(fs, i, s);
    CodeEntries(e.0, e.1, i + 1, numFun - 1)
  }

  /** `readCodeSection`: the section size (ignored), the number of bodies, the bodies from function 0 on. */
  function CodeSection(d: Decoded, s: Stream): (r: Outcome<(Decoded, Stream)>)
    ensures r.Ok? ==> Advanced(s, r.value.1)
    ensures r.Ok? ==> r.value.0 == d.(functions := r.value.0.functions) && |r.value.0.functions| == |d.functions|
  {
    var (_, s1) := Read(s);
    var (numFun, s2) := Read(s1);
    var e :- CodeEntries(d.functions, s2, 0, numFun);
    Ok((d.(functions := e.0), e.1))
  }

  // ---------------------------------------------------------------------------------------------
  // Data section.

  /** `for (j = 0; j < size; j++) store(address + j, 0, 0, 1, read())`: only the bounds of each byte are checked. */
  function DataBytes(m: Memory, address: int, s: Stream, j: nat, size: int): (r: Outcome<Stream>)
    requires -1 <= address < 256 && size < 256
    ensures r.Ok? ==> Advanced(s, r.value)
    ensures r.Err? <==> j < size && OutOfBoundsAsWritten(m, address + size - 1, 0, 1)
    ensures r.Err? ==> r.error == IndexOutOfBounds
    ensures r.Ok? && j <= size && s.pos + (size - j) <= s.count ==> r.value == s.(pos := s.pos + (size - j))
    decreases size - j
  {
    if j >= size then Ok(s)
    else
      var (value, s1) := Read(s);
      var _ :- StoreResult(m, address + j, 0, 1, value);
      DataBytes(m, address, s1, j + 1, size)
  }

  /** One data segment: memory index 0, an existing memory, the offset `i32.const address end`, the bytes. */
  function DataSegment(d: Decoded, s: Stream): (r: Outcome<Stream>)
    ensures r.Ok? ==> Advanced(s, r.value)
    ensures Ahead(s, 0) != 0 ==> r.Err? && r.error == ParserException(OnlyMemoryIndexZero)
    ensures Ahead(s, 0) == 0 && d.memory.None? ==> r.Err? && r.error == ParserException(NoLinearMemoryForData)
    ensures r.Ok? ==> Ahead(s, 1) == C.I32_CONST as int && Ahead(s, 3) == C.END as int
  {
    var (memoryIndex, s1) := Read(s);
    if memoryIndex != 0 then Err(ParserException(OnlyMemoryIndexZero))
    else if d.memory.None? then Err(ParserException(NoLinearMemoryForData))
    else
      var (constExpr, s2) := Read(s1);
      var (address, s3) := Read(s2);
      var (endExpr, s4) := Read(s3);
      var (size, s5) := Read(s4);
      if constExpr != C.I32_CONST as int || endExpr != C.END as int then
        Err(ParserException(MalformedDataSegmentOffset))
      else DataBytes(d.memory.value, address, s5, 0, size)
  }

  /** `for (i = 0; i < count; i++)`: the segments in order. */
  function DataSegments(d: Decoded, s: Stream, i: nat, count: int): (r: Outcome<Stream>)
    ensures r.Ok? ==> Advanced(s, r.value)
    decreases count - i, 1
  {
    if i >= count then Ok(s) else DataTurn(d, s, i, count)
  }

  /** One turn of that loop: segment `i`, then the segments after it. */
  function DataTurn(d: Decoded, s: Stream, i: nat, count: int): (r: Outcome<Stream>)
    requires i < count
    ensures r.Ok? ==> Advanced(s, r.value)
    decreases count - i, 0
  {
    var s1 :- DataSegment(d, s);
    DataSegments(d, s1, i + 1, count)
  }

  /** `readDataSection`: the segments are checked and their bytes consumed; the memory is left as it was. */
  function DataSection(d: Decoded, s: Stream): (r: Outcome<Stream>)
    ensures r.Ok? ==> Advanced(s, r.value)
  {
    var (_, s1) := Read(s);
    var (count, s2) := Read(s1);
    DataSegments(d, s2, 0, count)
  }

  // ---------------------------------------------------------------------------------------------
  // The section loop.

  /**
   * The `switch` on a section identifier read from the input: a known section must come after
   * the previous one and becomes the previous one; a custom section is skipped by its one-byte
   * size; any other identifier is rejected.
   */
  function Section(d: Decoded, id: int, s: Stream): (r: Outcome<(Decoded, Stream)>)
    requires s.pos <= s.count
    ensures r.Ok? ==> Advanced(s, r.value.1)
    ensures Known(id) && d.previousSection >= id ==> r.Err? && r.error == ParserException(WrongSectionOrder(id))
    ensures !Known(id) && id != C.SECTION_CUSTOM ==> r.Err? && r.error == ParserException(InvalidSectionType)
    ensures r.Ok? && Known(id) ==> d.previousSection < id == r.value.0.previousSection
    ensures r.Ok? && id == C.SECTION_CUSTOM ==> r.value.0 == d
  {
    if Known(id) && d.previousSection >= id then Err(ParserException(WrongSectionOrder(id)))
    else
      var d1 := d.(previousSection := id);
      if id == C.SECTION_TYPE then TypeSection(d1, s)
      else if id == C.SECTION_FUNCTION then Ok((d1, FunctionSection(s)))
      else if id == C.SECTION_MEMORY then MemorySection(d1, s)
      else if id == C.SECTION_START then Ok(StartSection(d1, s))
      else if id == C.SECTION_CODE then CodeSection(d1, s)
      else if id == C.SECTION_DATA then
        var s1 :- DataSection(d1, s);
        Ok((d1, s1))
      else if id == C.SECTION_CUSTOM then
        var (size, s1) := Read(s);
        Ok((d, Skip(s1, size)))
      else Err(ParserException(InvalidSectionType))
  }

  /** `while ((sectionID = is.read()) != -1)`: every turn reads at least the identifier, so the loop ends. */
  function Sections(d: Decoded, s: Stream): (r: Outcome<Decoded>)
    requires s.pos <= s.count
    ensures s.pos == s.count ==> r == Ok(d)
    ensures r.Ok? ==> d.previousSection <= r.value.previousSection
    decreases s.count - s.pos
  {
    var (id, s1) := Read(s);
    if id == -1 then Ok(d)
    else
      var e :- Section(d, id, s1);
      Sections(e.0, e.1)
  }

  /** `parse`: the header, then the sections. */
  function Parse(code: seq<bv8>): (r: Outcome<Decoded>)
  {
    var s :- Header(Open(code));
    Sections(Initial, s)
  }
}
