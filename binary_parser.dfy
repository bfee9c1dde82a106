/**
 * The `BinaryParser` object: its fields are the last known section, the list of `Function`
 * objects, the start index and the linear memory; `parse` reads the header and then one section
 * after the other, and each `read...Section` method updates the fields. Every method is proved
 * to do what the matching function of `Parser` computes from the parser's state.
 */
module BinaryParsers {
  import opened Wrappers
  import opened Exceptions
  import opened JavaInt
  import opened ByteStreams
  import Leb128
  import opened Functions
  import opened LinearMemories
  import opened Modules
  import opened Parser
  import C = Constants

  /** A section method's outcome `r` and the parser state `d` it leaves are the ones `t` describes. */
  predicate Follows(r: Outcome<Stream>, d: Decoded, t: Outcome<(Decoded, Stream)>) {
    (r.Ok? <==> t.Ok?)
    && (r.Ok? ==> r.value == t.value.1 && d == t.value.0)
    && (r.Err? ==> r.error == t.error)
  }

  /** The loop over the parameter or result types of a function type. */
  method ReadValueTypes(input: Stream, n: int, reason: Reason) returns (r: Outcome<Stream>)
    ensures r == ValueTypes(input, n, reason)
  {
    var s := input;
    var k := n;
    ghost var goal := ValueTypes(input, n, reason);
    while k > 0
      invariant goal == ValueTypes(s, k, reason)
    {
      var (b, s1) := Read(s);
      if b != C.TYPE_I32 as int {
        return Err(ParserException(reason));
      }
      s, k := s1, k - 1;
    }
    return Ok(s);
  }

  class BinaryParser {
    var previousSection: int
    var functions: seq<Function>
    var startFunctionIndex: int32
    var linearMemory: LinearMemory?
    /** The `Function` objects the parser has created or was given. */
    ghost var Repr: set<Function>

    /** Every function of the list is in `Repr`, and none is in the list twice, so updating one leaves the others as they were. */
    ghost predicate Valid()
      reads this
    {
      (forall i {:trigger functions[i] in Repr} :: 0 <= i < |functions| ==> functions[i] in Repr) && Distinct(functions)
    }

    /** The parser's fields as a value. */
    function Model(): (d: Decoded)
      reads this, functions, linearMemory
      ensures d.previousSection == previousSection && d.startFunctionIndex == startFunctionIndex
      ensures d.functions == Models(functions) && d.memory == MemoryOf(linearMemory)
    {
      Decoded(previousSection, Models(functions), startFunctionIndex, MemoryOf(linearMemory))
    }

    constructor ()
      ensures Valid() && Model() == Initial
    {
      previousSection := -1;
      functions := [];
      startFunctionIndex := -1;
      linearMemory := null;
      Repr := {};
    }

    /**
     * `parse`: the header, then `while ((sectionID = is.read()) != -1)` one section at a time; at
     * the end a `Module` holding the functions, the start index and the parsed memory (none when
     * the module has no memory section).
     */
    method Parse(code: seq<bv8>) returns (r: Outcome<Module>)
      requires Valid()
      modifies this, Repr
      ensures Header(Open(code)).Err? ==> r.Err? && r.error == Header(Open(code)).error
      ensures Header(Open(code)).Ok? ==>
                var t := Sections(old(Model()), Header(Open(code)).value);
                (r.Ok? <==> t.Ok?) && (r.Err? ==> r.error == t.error)
                && (r.Ok? ==> fresh(r.value) && Model() == t.value
                              && r.value.functions == functions && r.value.startFunctionIndex == startFunctionIndex
                              && r.value.linearMemory == linearMemory)
    {
      var input := Open(code);
      var (magic, s1) := ReadBytes(input, 4);
      if magic != C.MAGIC {
        return Err(ParserException(NoValidWasmFile));
      }
      var (version, s2) := ReadBytes(s1, 4);
      if version != C.VERSION {
        return Err(ParserException(InvalidVersion));
      }
      var s := s2;
      ghost var goal := Sections(Model(), s2);
      while true
        invariant Valid() && s.pos <= s.count
        invariant fresh(Repr - old(Repr))
        invariant goal == Sections(Model(), s)
        decreases s.count - s.pos
      {
        var (sectionID, s3) := Read(s);
        if sectionID == -1 {
          break;
        }
        var s4 := ReadSection(sectionID, s3, Model());
        if s4.Err? {
          return Err(s4.error);
        }
        s := s4.value;
      }
      var m := new Module(0, functions, startFunctionIndex);
      m.SetLinearMemory(linearMemory);
      return Ok(m);
    }

    /** One turn of the section loop: the order check and the `switch` on the identifier. */
    method ReadSection(sectionID: int, input: Stream, ghost d: Decoded) returns (r: Outcome<Stream>)
      requires Valid() && input.pos <= input.count && Model() == d
      modifies this, Repr
      ensures Valid() && fresh(Repr - old(Repr))
      ensures Follows(r, Model(), Section(d, sectionID, input))
    {
      if Known(sectionID) && previousSection >= sectionID {
        return Err(ParserException(WrongSectionOrder(sectionID)));
      }
      if sectionID == C.SECTION_TYPE {
        previousSection := sectionID;
        r := ReadTypeSection(input, d.(previousSection := sectionID));
      } else if sectionID == C.SECTION_FUNCTION {
        previousSection := sectionID;
        var s := ReadFunctionSection(input);
        r := Ok(s);
      } else if sectionID == C.SECTION_MEMORY {
        previousSection := sectionID;
        r := ReadMemorySection(input, d.(previousSection := sectionID));
      } else if sectionID == C.SECTION_START {
        previousSection := sectionID;
        var s := ReadStartSection(input, d.(previousSection := sectionID));
        r := Ok(s);
      } else if sectionID == C.SECTION_CODE {
        previousSection := sectionID;
        r := ReadCodeSection(input, d.(previousSection := sectionID));
      } else if sectionID == C.SECTION_DATA {
        previousSection := sectionID;
        r := ReadDataSection(input);
      } else if sectionID == C.SECTION_CUSTOM {
        var (sectionSizeGuess, s) := Read(input);
        r := Ok(Skip(s, sectionSizeGuess));
      } else {
        r := Err(ParserException(InvalidSectionType));
      }
    }

    /** `readTypeSection`: a new `Function` per function type, appended to the list. */
    method ReadTypeSection(input: Stream, ghost d: Decoded) returns (r: Outcome<Stream>)
      requires Valid() && Model() == d
      modifies this`functions, this`Repr
      ensures Valid() && fresh(Repr - old(Repr))
      ensures Follows(r, Model(), TypeSection(d, input))
    {
      var (sectionSizeGuess, s1) := Read(input);
      var (numTypes, s2) := Read(s1);
      var s := s2;
      ghost var goal := TypeEntries(d.functions, s2, numTypes);
      while numTypes > 0
        invariant goal == TypeEntries(Models(functions), s, numTypes)
        invariant Valid() && fresh(Repr - old(Repr))
      {
        ghost var before := numTypes;
        s :- ReadTypeEntry(s, Models(functions), numTypes);
        numTypes := numTypes - 1;
        assert numTypes == before - 1;
        assert TypeEntries(Models(functions), s, numTypes) == TypeEntries(Models(functions), s, before - 1);
      }
      return Ok(s);
    }

    /**
     * The body of `readTypeSection`'s loop: one function type, made into a new `Function` that is
     * appended to the list. What is left of the loop after this turn is what was left before it.
     */
    method ReadTypeEntry(input: Stream, ghost fs: seq<FunctionData>, ghost numTypes: int) returns (r: Outcome<Stream>)
      requires Valid() && Models(functions) == fs && numTypes > 0
      modifies this`functions, this`Repr
      ensures Valid() && fresh(Repr - old(Repr))
      ensures r.Err? ==> TypeEntries(fs, input, numTypes).Err? && r.error == TypeEntries(fs, input, numTypes).error
      ensures r.Ok? ==> TypeEntries(fs, input, numTypes) == TypeEntries(Models(functions), r.value, numTypes - 1)
    {
      ghost var t := TypeEntry(input);
      if t.Err? {
        TypeEntriesFail(fs, input, numTypes);
      } else {
        TypeEntriesNext(fs, input, numTypes, t.value.0, t.value.1);
      }
      var (form, s1) := Read(input);
      if form != C.FUNCTION_TYPE as int {
        return Err(ParserException(BadFunctionHeader));
      }
      var (numParams, s2) := Read(s1);
      var s3 :- ReadValueTypes(s2, numParams, InvalidParameterType);
      var (numResults, s4) := Read(s3);
      var s5 :- ReadValueTypes(s4, numResults, InvalidResultType);
      var f := new Function(numParams, numResults);
      AddFunction(f);
      return Ok(s5);
    }

    /** `functions.add(f)` for a new function `f`. */
    method AddFunction(f: Function)
      requires Valid() && f !in Repr
      modifies this`functions, this`Repr
      ensures Valid() && Repr == old(Repr) + {f}
      ensures Model() == old(Model()).(functions := old(Model()).functions + [f.Model()])
    {
      ModelsAppend(functions, f);
      assert (functions + [f])[..|functions|] == functions;
      functions := functions + [f];
      Repr := Repr + {f};
    }

    /** `readFunctionSection`: the signature indices are read and dropped. */
    method ReadFunctionSection(input: Stream) returns (r: Stream)
      ensures r == FunctionSection(input)
    {
      var (sectionSizeGuess, s1) := Read(input);
      var (numFun, s) := Read(s1);
      ghost var n0 := numFun;
      ghost var goal := Reads(s, n0);
      while numFun > 0
        invariant goal == Reads(s, numFun)
      {
        var (signatureIndex, t) := Read(s);
        s := t;
        numFun := numFun - 1;
      }
      return s;
    }

    /** `readMemorySection`: one memory entry, made into a new `LinearMemory(initMem, maxMem)`. */
    method ReadMemorySection(input: Stream, ghost d: Decoded) returns (r: Outcome<Stream>)
      requires Model() == d
      modifies this`linearMemory
      ensures Follows(r, Model(), MemorySection(d, input))
    {
      var (sectionSizeGuess, s1) := Read(input);
      var (numMem, s2) := Read(s1);
      if numMem != 1 {
        return Err(ParserException(OnlyOneMemoryBlock));
      }
      var (flags, s3) := Read(s2);
      var maxMem: int32 := C.PAGE_COUNT_MAX;
      var initMem :- Leb128.ReadUnsignedLeb128(s3);
      var s := initMem.1;
      if flags == 1 {
        var m :- Leb128.ReadUnsignedLeb128(s);
        maxMem, s := Signed(m.0), m.1;
      }
      var memory :- LinearMemory.Create(Signed(initMem.0), maxMem);
      linearMemory := memory;
      return Ok(s);
    }

    /** `readStartSection`: the start index is one raw byte. */
    method ReadStartSection(input: Stream, ghost d: Decoded) returns (r: Stream)
      requires Model() == d
      modifies this`startFunctionIndex
      ensures (Model(), r) == StartSection(d, input)
    {
      var (sectionSizeGuess, s1) := Read(input);
      var (index, s2) := Read(s1);
      startFunctionIndex := index;
      return s2;
    }

    /** `readCodeSection`: the bodies set the local count and the code of functions 0, 1, ... in turn. */
    method ReadCodeSection(input: Stream, ghost d: Decoded) returns (r: Outcome<Stream>)
      requires Valid() && Model() == d
      modifies Repr
      ensures Follows(r, Model(), CodeSection(d, input))
    {
      var (sectionSizeGuess, s1) := Read(input);
      var (numFun, s2) := Read(s1);
      var currFun := 0;
      var s := s2;
      ghost var goal := CodeEntries(d.functions, s2, 0, numFun);
      while numFun > 0
        invariant goal == CodeEntries(Models(functions), s, currFun, numFun)
      {
        s :- ReadCodeTurn(currFun, s, Models(functions), numFun);
        currFun := currFun + 1;
        numFun := numFun - 1;
      }
      return Ok(s);
    }

    /** One turn of `readCodeSection`'s loop: what is left of the loop after it is what was left before it. */
    method ReadCodeTurn(currFun: nat, input: Stream, ghost fs: seq<FunctionData>, ghost numFun: int) returns (r: Outcome<Stream>)
      requires Valid() && Models(functions) == fs && numFun > 0
      modifies Repr
      ensures r.Err? ==> CodeEntries(fs, input, currFun, numFun).Err? && r.error == CodeEntries(fs, input, currFun, numFun).error
      ensures r.Ok? ==> CodeEntries(fs, input, currFun, numFun) == CodeEntries(Models(functions), r.value, currFun + 1, numFun - 1)
    {
      ghost var t := CodeEntry(fs, currFun, input);
      if t.Err? {
        CodeEntriesFail(fs, input, currFun, numFun);
      } else {
        CodeEntriesNext(fs, input, currFun, numFun, t.value.0, t.value.1);
      }
      r := ReadCodeEntry(currFun, input, fs);
    }

    /** The body of `readCodeSection`'s loop: the body size, the local count and the code of function `currFun`. */
    method ReadCodeEntry(currFun: nat, input: Stream, ghost fs: seq<FunctionData>) returns (r: Outcome<Stream>)
      requires Valid() && Models(functions) == fs
      modifies Repr
      ensures var t := CodeEntry(fs, currFun, input);
              (r.Ok? <==> t.Ok?) && (r.Err? ==> r.error == t.error)
              && (r.Ok? ==> r.value == t.value.1 && Models(functions) == t.value.0)
    {
      var (bodySizeGuess, t1) := Read(input);
      var count :- Leb128.ReadUnsignedLeb128(t1);
      if !(currFun < |functions|) {
        return Err(IndexOutOfBounds);
      }
      var f := functions[currFun];
      DistinctOthers(functions, currFun);
      f.SetLocalVariableCount(Signed(count.0));
      if count.0 >= 0x8000_0000 {
        return Err(Divergence);
      }
      var n := Leb128.UnsignedLeb128Size(count.0);
      if bodySizeGuess - n < 0 {
        return Err(NegativeArraySize);
      }
      var (funcBody, t2) := ReadBytes(count.1, bodySizeGuess - n);
      f.SetInstructions(funcBody);
      SetOne(functions, currFun, fs);
      assert CodeEntry(fs, currFun, input) == Ok((fs[currFun := f.Model()], t2));
      return Ok(t2);
    }

    /** `readDataSection`: each segment is checked and its bytes go through `store`, which writes nothing. */
    method ReadDataSection(input: Stream) returns (r: Outcome<Stream>)
      ensures r == DataSection(Model(), input)
    {
      var (sectionSizeGuess, s1) := Read(input);
      var (dataSegmentCount, s2) := Read(s1);
      var s := s2;
      var i := 0;
      ghost var goal := DataSegments(Model(), s2, 0, dataSegmentCount);
      while i < dataSegmentCount
        invariant goal == DataSegments(Model(), s, i, dataSegmentCount)
        decreases dataSegmentCount - i
      {
        s :- ReadDataSegment(s, i, dataSegmentCount);
        i := i + 1;
      }
      return Ok(s);
    }

    /** The body of `readDataSection`'s loop: segment `i`. What is left of the loop after it is what was left before it. */
    method ReadDataSegment(input: Stream, ghost i: nat, ghost count: int) returns (r: Outcome<Stream>)
      requires i < count
      ensures r.Err? ==> DataSegments(Model(), input, i, count).Err? && r.error == DataSegments(Model(), input, i, count).error
      ensures r.Ok? ==> DataSegments(Model(), input, i, count) == DataSegments(Model(), r.value, i + 1, count)
    {
      DataSegmentsNext(Model(), input, i, count);
      var (memoryIndex, t1) := Read(input);
      if memoryIndex != 0 {
        return Err(ParserException(OnlyMemoryIndexZero));
      } else if linearMemory == null {
        return Err(ParserException(NoLinearMemoryForData));
      }
      var (constExpr, t2) := Read(t1);
      var (address, t3) := Read(t2);
      var (endExpr, t4) := Read(t3);
      var (dataSegmentSize, t5) := Read(t4);
      if constExpr != C.I32_CONST as int || endExpr != C.END as int {
        return Err(ParserException(MalformedDataSegmentOffset));
      }
      r := ReadDataBytes(address, t5, dataSegmentSize);
    }

    /** The inner loop of `readDataSection`: `store(address + j, 0, 0, 1, is.read())` for each byte. */
    method ReadDataBytes(address: int, input: Stream, size: int) returns (r: Outcome<Stream>)
      requires linearMemory != null && -1 <= address < 256 && size < 256
      ensures r == DataBytes(linearMemory.Model(), address, input, 0, size)
    {
      var s := input;
      var j := 0;
      ghost var goal := DataBytes(linearMemory.Model(), address, input, 0, size);
      while j < size
        invariant 0 <= j
        invariant goal == DataBytes(linearMemory.Model(), address, s, j, size)
        decreases size - j
      {
        var (value, t) := Read(s);
        var stored := linearMemory.Store(address + j, 0, 0, 1, value);
        if stored.Err? {
          return Err(stored.error);
        }
        s := t;
        j := j + 1;
      }
      return Ok(s);
    }
  }

  /** No object is in the list twice. */
  ghost predicate Distinct(fs: seq<Function>) {
    fs == [] || (fs[|fs| - 1] !in fs[..|fs| - 1] && Distinct(fs[..|fs| - 1]))
  }

  lemma {:induction false} DistinctIndex(fs: seq<Function>, i: nat, j: nat)
    requires Distinct(fs) && i < j < |fs|
    ensures fs[i] != fs[j]
  {
    var init := fs[..|fs| - 1];
    if j == |fs| - 1 {
      assert fs[i] == init[i];
    } else {
      DistinctIndex(init, i, j);
    }
  }

  /** In a list without repeats, the object at `i` is at no other index. */
  lemma DistinctOthers(fs: seq<Function>, i: nat)
    requires Distinct(fs) && i < |fs|
    ensures forall j :: 0 <= j < |fs| && j != i ==> fs[j] != fs[i]
  {
    forall j | 0 <= j < |fs| && j != i
      ensures fs[j] != fs[i]
    {
      if j < i { DistinctIndex(fs, j, i); } else { DistinctIndex(fs, i, j); }
    }
  }

  /** After one object of a list without repeats is updated, the list's states are the old ones with that one replaced. */
  lemma SetOne(fs: seq<Function>, i: nat, before: seq<FunctionData>)
    requires i < |fs| == |before|
    requires forall j :: 0 <= j < |fs| && j != i ==> before[j] == fs[j].Model()
    ensures Models(fs) == before[i := fs[i].Model()]
  {
  }

  /** The states of a list with one more object. */
  lemma ModelsAppend(fs: seq<Function>, f: Function)
    ensures Models(fs + [f]) == Models(fs) + [f.Model()]
  {
    assert (fs + [f])[..|fs|] == fs;
  }

  /** A turn of `TypeEntries` whose function type is malformed. */
  lemma TypeEntriesFail(fs: seq<FunctionData>, s: Stream, n: int)
    requires n > 0 && TypeEntry(s).Err?
    ensures TypeEntries(fs, s, n).Err? && TypeEntries(fs, s, n).error == TypeEntry(s).error
  {
    assert TypeEntries(fs, s, n) == TypeTurn(fs, s, n);
  }

  /** A turn of `TypeEntries` that reads the function type `f`. */
  lemma TypeEntriesNext(fs: seq<FunctionData>, s: Stream, n: int, f: FunctionData, t: Stream)
    requires n > 0 && TypeEntry(s).Ok? && TypeEntry(s).value.0 == f && TypeEntry(s).value.1 == t
    ensures TypeEntries(fs, s, n) == TypeEntries(fs + [f], t, n - 1)
  {
    assert TypeEntries(fs, s, n) == TypeTurn(fs, s, n);
  }

  /** A turn of `CodeEntries` whose body cannot be read. */
  lemma CodeEntriesFail(fs: seq<FunctionData>, s: Stream, i: nat, n: int)
    requires n > 0 && CodeEntry(fs, i, s).Err?
    ensures CodeEntries(fs, s, i, n).Err? && CodeEntries(fs, s, i, n).error == CodeEntry(fs, i, s).error
  {
    assert CodeEntries(fs, s, i, n) == CodeTurn(fs, s, i, n);
  }

  /** A turn of `CodeEntries` that leaves the functions `gs`. */
  lemma CodeEntriesNext(fs: seq<FunctionData>, s: Stream, i: nat, n: int, gs: seq<FunctionData>, t: Stream)
    requires n > 0 && CodeEntry(fs, i, s).Ok? && CodeEntry(fs, i, s).value.0 == gs && CodeEntry(fs, i, s).value.1 == t
    ensures CodeEntries(fs, s, i, n) == CodeEntries(gs, t, i + 1, n - 1)
  {
    assert CodeEntries(fs, s, i, n) == CodeTurn(fs, s, i, n);
  }

  /** One turn of `DataSegments`. */
  lemma DataSegmentsNext(d: Decoded, s: Stream, i: nat, count: int)
    requires i < count
    ensures DataSegment(d, s).Err? ==> DataSegments(d, s, i, count) == Err(DataSegment(d, s).error)
    ensures DataSegment(d, s).Ok? ==> DataSegments(d, s, i, count) == DataSegments(d, DataSegment(d, s).value, i + 1, count)
  {
    assert DataSegments(d, s, i, count) == DataTurn(d, s, i, count);
  }
}
