/** What the decoder accepts and what it builds, section by section. */
module ParserProperties {
  import opened Wrappers
  import opened Exceptions
  import opened JavaInt
  import opened ByteStreams
  import Leb128
  import opened Functions
  import opened LinearMemories
  import C = Constants
  import opened Parser

  // ---------------------------------------------------------------------------------------------
  // Header.

  /** With at least eight bytes, the header passes exactly when they are the magic number and version 1. */
  lemma HeaderChecked(code: seq<bv8>)
    requires |code| >= 8
    ensures Header(Open(code)).Ok? <==> code[..4] == C.MAGIC && code[4..8] == C.VERSION
    ensures Header(Open(code)).Ok? ==> Header(Open(code)).value.pos == 8
    ensures code[..4] != C.MAGIC ==> Header(Open(code)) == Err(ParserException(NoValidWasmFile))
  {
    var s := Open(code);
    assert ReadBytes(s, 4).0 == code[..4];
    assert ReadBytes(ReadBytes(s, 4).1, 4).0 == code[4..8];
  }

  /**
   * A short input is padded with zeros: the five bytes of the magic number and a lone 1 pass as
   * a header, and as a module with nothing in it.
   */
  lemma TruncatedVersionAccepted()
    ensures Parse([0x00, 0x61, 0x73, 0x6D, 0x01]) == Ok(Initial)
  {
    var s := Open([0x00, 0x61, 0x73, 0x6D, 0x01]);
    assert ReadBytes(s, 4).0 == C.MAGIC;
    var s1 := ReadBytes(s, 4).1;
    assert ReadBytes(s1, 4).0 == [0x01] + Zeros(3) == C.VERSION;
    assert Header(s).value.pos == 5 == s.count;
  }

  /** The header alone is the empty module: no function, no memory, start index -1. */
  lemma HeaderOnly()
    ensures Parse(C.MAGIC + C.VERSION) == Ok(Initial)
  {
    HeaderChecked(C.MAGIC + C.VERSION);
    assert (C.MAGIC + C.VERSION)[..4] == C.MAGIC && (C.MAGIC + C.VERSION)[4..8] == C.VERSION;
  }

  // ---------------------------------------------------------------------------------------------
  // Section order.

  /** The section loop never lowers the last known section. */
  lemma {:induction false} SectionsKeepOrder(d: Decoded, s: Stream)
    requires s.pos <= s.count
    ensures Sections(d, s).Ok? ==> Sections(d, s).value.previousSection >= d.previousSection
    decreases s.count - s.pos
  {
    var (id, s1) := Read(s);
    if id != -1 {
      var e := Section(d, id, s1);
      if e.Ok? {
        SectionsKeepOrder(e.value.0, e.value.1);
      }
    }
  }

  /** A known section that comes again, or after a later one, is rejected. */
  lemma SectionOutOfOrder(d: Decoded, id: int, s: Stream)
    requires s.pos <= s.count && Known(id) && id <= d.previousSection
    ensures Section(d, id, s) == Err(ParserException(WrongSectionOrder(id)))
  {
  }

  /** A section that is accepted changes what its identifier says, and nothing else. */
  lemma SectionEffects(d: Decoded, id: int, s: Stream)
    requires s.pos <= s.count && Section(d, id, s).Ok?
    ensures var d' := Section(d, id, s).value.0;
      && (id == C.SECTION_FUNCTION || id == C.SECTION_DATA ==> d' == d.(previousSection := id))
      && (id == C.SECTION_START ==> d' == d.(previousSection := id, startFunctionIndex := Ahead(s, 1)))
      && (id == C.SECTION_TYPE ==> d' == d.(previousSection := id, functions := d'.functions))
      && (id == C.SECTION_CODE ==> d' == d.(previousSection := id, functions := d'.functions))
      && (id == C.SECTION_MEMORY ==> d' == d.(previousSection := id, memory := d'.memory))
  {
    if id == C.SECTION_MEMORY {
      MemorySectionBuilds(d.(previousSection := id), s);
    } else if id == C.SECTION_TYPE {
      TypeSectionAppends(d.(previousSection := id), s);
    } else if id == C.SECTION_CODE {
      CodeSectionKeepsSignatures(d.(previousSection := id), s);
    }
  }

  // ---------------------------------------------------------------------------------------------
  // Type section.

  /** The value types pass exactly when each of the next `n` reads gives `i32` (0x7F). */
  lemma {:induction false} ValueTypesChecked(s: Stream, n: int, reason: Reason)
    ensures ValueTypes(s, n, reason).Ok? <==> forall k :: 0 <= k < n ==> Ahead(s, k) == C.TYPE_I32 as int
    decreases n
  {
    if n > 0 {
      var s1 := Read(s).1;
      AheadRead(s, 0);
      if Ahead(s, 0) == C.TYPE_I32 as int {
        ValueTypesChecked(s1, n - 1, reason);
        forall k | 0 <= k < n - 1
          ensures Ahead(s1, k) == Ahead(s, k + 1)
        {
          AheadRead(s, k);
        }
        if forall k :: 0 <= k < n - 1 ==> Ahead(s1, k) == C.TYPE_I32 as int {
          forall k | 0 <= k < n
            ensures Ahead(s, k) == C.TYPE_I32 as int
          {
            if k > 0 {
              assert Ahead(s1, k - 1) == Ahead(s, k);
            }
          }
        }
      }
    }
  }

  /**
   * The types are appended after the functions already there, each a new function with no code
   * and no declared locals. The first one carries the parameter count and the result count its
   * entry gives, and the others are what the remaining `numTypes - 1` entries read after it.
   */
  lemma {:induction false} TypeEntriesAppend(fs: seq<FunctionData>, s: Stream, numTypes: int)
    requires TypeEntries(fs, s, numTypes).Ok?
    ensures var r := TypeEntries(fs, s, numTypes).value.0;
      r[..|fs|] == fs &&
      forall i :: |fs| <= i < |r| ==> r[i].instructions.None? && r[i].localVariableCount == 0
    ensures numTypes > 0 ==>
              && TypeEntry(s).Ok?
              && var r := TypeEntries(fs, s, numTypes).value.0;
                 var numParams := Ahead(s, 1);
                 && r[|fs|] == NewFunction(numParams, Ahead(s, 2 + (if numParams < 0 then 0 else numParams)))
                 && TypeEntries(fs + [r[|fs|]], TypeEntry(s).value.1, numTypes - 1) == TypeEntries(fs, s, numTypes)
    decreases numTypes
  {
    if numTypes > 0 {
      assert TypeEntries(fs, s, numTypes) == TypeTurn(fs, s, numTypes);
      var e := TypeEntry(s).value;
      var r := TypeEntries(fs + [e.0], e.1, numTypes - 1).value.0;
      assert TypeEntries(fs, s, numTypes).value.0 == r;
      TypeEntriesAppend(fs + [e.0], e.1, numTypes - 1);
      PrefixOfExtended(fs, e.0, r);
      forall i | |fs| <= i < |r|
        ensures r[i].instructions.None? && r[i].localVariableCount == 0
      {
        if i == |fs| {
          assert r[i] == e.0;
        }
      }
    }
  }

  /** What starts with `fs + [x]` starts with `fs`, and has `x` next. */
  lemma PrefixOfExtended<T>(fs: seq<T>, x: T, r: seq<T>)
    requires |fs| < |r| && r[..|fs| + 1] == fs + [x]
    ensures r[..|fs|] == fs && r[|fs|] == x
  {
    assert r[..|fs|] == r[..|fs| + 1][..|fs|];
    assert r[|fs|] == r[..|fs| + 1][|fs|];
  }

  /**
   * `readTypeSection` adds one function per type, in order, after the ones already there: the
   * first with the counts of the entry after the section size and the type count, the rest as
   * the remaining entries read them.
   */
  lemma TypeSectionAppends(d: Decoded, s: Stream)
    requires TypeSection(d, s).Ok?
    ensures var r := TypeSection(d, s).value.0;
      && r == d.(functions := r.functions)
      && |r.functions| == |d.functions| + (if Ahead(s, 1) < 0 then 0 else Ahead(s, 1))
      && r.functions[..|d.functions|] == d.functions
      && forall i :: |d.functions| <= i < |r.functions| ==>
           r.functions[i].instructions.None? && r.functions[i].localVariableCount == 0
    ensures Ahead(s, 1) > 0 ==>
      var s2 := Read(Read(s).1).1;
      var r := TypeSection(d, s).value.0;
      var numParams := Ahead(s, 3);
      && TypeEntry(s2).Ok?
      && r.functions[|d.functions|] == NewFunction(numParams, Ahead(s, 4 + (if numParams < 0 then 0 else numParams)))
      && TypeEntries(d.functions + [r.functions[|d.functions|]], TypeEntry(s2).value.1, Ahead(s, 1) - 1)
         == Ok((r.functions, TypeSection(d, s).value.1))
  {
    var s1 := Read(s).1;
    var s2 := Read(s1).1;
    AheadRead(s, 0);
    AheadRead(s1, 0);
    TypeEntriesAppend(d.functions, s2, Ahead(s, 1));
    forall k: nat
      ensures Ahead(s2, k) == Ahead(s, k + 2)
    {
      AheadRead(s, k + 1);
      AheadRead(s1, k);
    }
  }

  /** A type that does not start with the form byte 0x60 stops the decoder. */
  lemma TypeFormChecked(s: Stream)
    requires Ahead(s, 0) != C.FUNCTION_TYPE as int
    ensures TypeEntry(s) == Err(ParserException(BadFunctionHeader))
  {
  }

  // ---------------------------------------------------------------------------------------------
  // Memory section.

  /** More or fewer than one memory is rejected. */
  lemma MemoryCountChecked(d: Decoded, s: Stream)
    requires Ahead(s, 1) != 1
    ensures MemorySection(d, s) == Err(ParserException(OnlyOneMemoryBlock))
  {
    AheadRead(s, 0);
  }

  /**
   * The memory section builds `LinearMemory(init, max)`: `init` is the LEB128 value after the
   * flags, and `max` is 128 unless the flags are 1, when it is the LEB128 value after `init`.
   */
  lemma MemorySectionBuilds(d: Decoded, s: Stream)
    requires MemorySection(d, s).Ok?
    ensures var s3 := Read(Read(Read(s).1).1).1;
      var initial := Leb128.DecodeUnsigned(s3);
      var m := MemorySection(d, s).value.0;
      && initial.Ok? && m == d.(memory := m.memory) && m.memory.Some?
      && |m.memory.value.pages| == (if Signed(initial.value.0) < 0 then 0 else Signed(initial.value.0))
      && (Ahead(s, 2) != 1 ==> m.memory.value.maxPageCount == C.PAGE_COUNT_MAX)
      && (Ahead(s, 2) == 1 ==>
            m.memory.value.maxPageCount == Signed(Leb128.DecodeUnsigned(initial.value.1).value.0))
  {
    AheadRead(s, 0);
    AheadRead(Read(s).1, 0);
    AheadRead(Read(s).1, 1);
    AheadRead(Read(Read(s).1).1, 0);
  }

  /** A maximum above 128 pages is a boundary violation. */
  lemma MemoryMaximumBounded(d: Decoded, s: Stream)
    requires MemorySection(d, s).Ok?
    ensures MemorySection(d, s).value.0.memory.value.maxPageCount <= C.PAGE_COUNT_MAX
  {
  }

  // ---------------------------------------------------------------------------------------------
  // Code section.

  /**
   * Body `i` sets function `i`'s declared local count to the LEB128 value after the body size, and
   * its code to the next `size - unsignedLeb128Size(count)` bytes (zeros where the input ran out).
   */
  lemma CodeEntrySets(fs: seq<FunctionData>, i: int, s: Stream)
    requires CodeEntry(fs, i, s).Ok?
    ensures var count := Leb128.DecodeUnsigned(Read(s).1);
      var f := CodeEntry(fs, i, s).value.0[i];
      && count.Ok? && Leb128.Size(count.value.0).Ok?
      && f.localVariableCount == Signed(count.value.0)
      && f.instructions == Some(ReadBytes(count.value.1, Ahead(s, 0) - Leb128.Size(count.value.0).value).0)
  {
    AheadRead(s, 0);
  }

  /** A body for a function the type section did not declare is an index error. */
  lemma CodeEntryNeedsFunction(fs: seq<FunctionData>, i: int, s: Stream)
    requires !(0 <= i < |fs|) && Leb128.DecodeUnsigned(Read(s).1).Ok?
    ensures CodeEntry(fs, i, s) == Err(IndexOutOfBounds)
  {
  }

  /** The bodies go to functions `i`, `i + 1`, ...: the functions before `i` and every signature stay as they were. */
  lemma {:induction false} CodeEntriesKeep(fs: seq<FunctionData>, s: Stream, i: nat, numFun: int)
    requires CodeEntries(fs, s, i, numFun).Ok?
    ensures var r := CodeEntries(fs, s, i, numFun).value.0;
      && (forall j :: 0 <= j < i && j < |fs| ==> r[j] == fs[j])
      && (forall j :: 0 <= j < |fs| ==>
            r[j].parameterCount == fs[j].parameterCount && r[j].returnValueCount == fs[j].returnValueCount)
    decreases numFun
  {
    if numFun > 0 {
      assert CodeEntries(fs, s, i, numFun) == CodeTurn(fs, s, i, numFun);
      var e := CodeEntry(fs, i, s).value;
      CodeEntriesKeep(e.0, e.1, i + 1, numFun - 1);
    }
  }

  /** `readCodeSection` fills in bodies only: the number of functions and their signatures stay. */
  lemma CodeSectionKeepsSignatures(d: Decoded, s: Stream)
    requires CodeSection(d, s).Ok?
    ensures var r := CodeSection(d, s).value.0;
      && r == d.(functions := r.functions) && |r.functions| == |d.functions|
      && forall j :: 0 <= j < |d.functions| ==>
           r.functions[j].parameterCount == d.functions[j].parameterCount
           && r.functions[j].returnValueCount == d.functions[j].returnValueCount
  {
    var s2 := Read(Read(s).1).1;
    CodeEntriesKeep(d.functions, s2, 0, Read(Read(s).1).0);
  }

  // ---------------------------------------------------------------------------------------------
  // Data section.

  /** A data segment's offset must be `i32.const address end`. */
  lemma DataOffsetChecked(d: Decoded, s: Stream)
    requires Ahead(s, 0) == 0 && d.memory.Some?
    requires Ahead(s, 1) != C.I32_CONST as int || Ahead(s, 3) != C.END as int
    ensures DataSegment(d, s) == Err(ParserException(MalformedDataSegmentOffset))
  {
    AheadRead(s, 0);
    AheadRead(Read(s).1, 0);
    AheadRead(Read(s).1, 2);
    AheadRead(Read(Read(s).1).1, 1);
    AheadRead(Read(Read(Read(s).1).1).1, 0);
  }
}
