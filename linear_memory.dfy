/**
 * WebAssembly linear memory: a list of 64 KiB pages, at most `maxPageCount` of them, that the
 * interpreter grows by whole pages and reads through a bounds check.
 */
module LinearMemories {
  import opened Wrappers
  import opened Exceptions
  import opened Constants
  import opened JavaInt

  type Page = p: seq<bv8> | |p| == PAGE_SIZE_BYTES witness seq(PAGE_SIZE_BYTES, _ => 0)

  /** A Java list of pages: its size is an `int`. */
  type PageList = ps: seq<Page> | |ps| <= MAX_INT

  /** The state of a `LinearMemory` object. */
  datatype Memory = Memory(maxPageCount: int32, pages: PageList)

  function ZeroPage(): Page {
    seq(PAGE_SIZE_BYTES, _ => 0)
  }

  /** The pages `allocatePages(n)` appends: `n` zero-filled pages, none when `n` is not positive. */
  function ZeroPages(n: int): (r: seq<Page>)
    ensures |r| == if n < 0 then 0 else n
    ensures forall i :: 0 <= i < |r| ==> r[i] == ZeroPage()
    decreases n
  {
    if n <= 0 then [] else ZeroPages(n - 1) + [ZeroPage()]
  }

  /** Number of addressable bytes. */
  function Size(m: Memory): nat {
    |m.pages| * PAGE_SIZE_BYTES
  }

  /** The byte at `address`, counting across pages. */
  function ByteAt(m: Memory, address: nat): bv8
    requires address < Size(m)
  {
    m.pages[address / PAGE_SIZE_BYTES][address % PAGE_SIZE_BYTES]
  }

  /** `new LinearMemory(initialPageCount, maxPageCount)`: the maximum is checked against the implementation ceiling, the initial count against nothing. */
  function New(initialPageCount: int32, maxPageCount: int32): (r: Outcome<Memory>)
    ensures r.Err? <==> maxPageCount > PAGE_COUNT_MAX
    ensures r.Err? ==> r.error == BoundaryViolation
    ensures r.Ok? ==> r.value.maxPageCount == maxPageCount
    ensures r.Ok? ==> |r.value.pages| == if initialPageCount < 0 then 0 else initialPageCount
    ensures r.Ok? ==> forall a :: 0 <= a < Size(r.value) ==> ByteAt(r.value, a) == 0
  {
    if maxPageCount > PAGE_COUNT_MAX then Err(BoundaryViolation)
    else Ok(Memory(maxPageCount, ZeroPages(initialPageCount)))
  }

  /** `new LinearMemory(initialPageCount)`: the two-argument constructor with maximum 1, which never throws. */
  function NewWithDefaultMax(initialPageCount: int32): (m: Memory)
    ensures m.maxPageCount == 1 && |m.pages| == if initialPageCount < 0 then 0 else initialPageCount
  {
    New(initialPageCount, 1).value
  }

  /** The invariant documented for the page list. */
  predicate WithinMax(m: Memory) {
    |m.pages| <= m.maxPageCount
  }

  /**
   * `growMemory` with the delta read as the unsigned page count its documentation speaks of:
   * fails with -1 and no change if the new count would exceed the maximum, otherwise appends
   * `delta` zero pages and returns the old count.
   */
  function Grow(m: Memory, deltaPages: int32): (r: (Memory, int32))
    ensures |m.pages| + Unsigned(deltaPages) > m.maxPageCount ==> r == (m, -1)
    ensures |m.pages| + Unsigned(deltaPages) <= m.maxPageCount ==>
      r.1 == |m.pages| && r.0.maxPageCount == m.maxPageCount
      && |r.0.pages| == |m.pages| + Unsigned(deltaPages)
      && r.0.pages[..|m.pages|] == m.pages
      && forall a :: Size(m) <= a < Size(r.0) ==> ByteAt(r.0, a) == 0
  {
    var delta := Unsigned(deltaPages);
    if |m.pages| + delta > m.maxPageCount then (m, -1)
    else
      var m' := Memory(m.maxPageCount, m.pages + ZeroPages(delta));
      NewBytesZero(m, m');
      (m', |m.pages|)
  }

  /** The bytes of the pages appended to `m` are zero. */
  lemma NewBytesZero(m: Memory, m': Memory)
    requires |m.pages| <= |m'.pages| && m'.pages == m.pages + ZeroPages(|m'.pages| - |m.pages|)
    ensures m'.pages[..|m.pages|] == m.pages
    ensures forall a :: Size(m) <= a < Size(m') ==> ByteAt(m', a) == 0
  {
    assert m'.pages[..|m.pages|] == m.pages;
    forall a | Size(m) <= a < Size(m') ensures ByteAt(m', a) == 0 {
      DivLowerBound(a, |m.pages|);
    }
  }

  lemma DivLowerBound(a: nat, n: nat)
    requires n * PAGE_SIZE_BYTES <= a
    ensures a / PAGE_SIZE_BYTES >= n
  {
  }

  /** Growing keeps the documented invariant `pages <= maxPageCount`, whether it succeeds or fails. */
  lemma GrowKeepsWithinMax(m: Memory, deltaPages: int32)
    requires WithinMax(m)
    ensures WithinMax(Grow(m, deltaPages).0)
    ensures Grow(m, deltaPages).1 == -1 || Grow(m, deltaPages).1 == |m.pages|
  {
  }

  /**
   * `growMemory` as written: the test `allocatedPages.size() + deltaPages > maxPageCount` is on
   * wrapping `int`s with the delta signed. A negative delta passes it, adds nothing and returns
   * the old count; a delta whose sum wraps below the maximum passes it too, and `allocatePages`
   * then adds pages until the page list or the heap is exhausted.
   */
  function GrowAsWritten(m: Memory, deltaPages: int32): (r: Outcome<(Memory, int32)>)
    ensures r.Err? <==> Wrap(|m.pages| + deltaPages) <= m.maxPageCount && |m.pages| + deltaPages > MAX_INT
    ensures r.Err? ==> r.error == OutOfMemory && |m.pages| + deltaPages > m.maxPageCount
    ensures m.maxPageCount < |m.pages| + deltaPages <= MAX_INT ==> r == Ok((m, -1))
    ensures deltaPages <= 0 && |m.pages| + deltaPages <= m.maxPageCount ==> r == Ok((m, |m.pages|))
    ensures 0 <= deltaPages && |m.pages| + deltaPages <= m.maxPageCount ==>
      r.Ok? && r.value.1 == |m.pages| && r.value.0.maxPageCount == m.maxPageCount
      && |r.value.0.pages| == |m.pages| + deltaPages
      && r.value.0.pages[..|m.pages|] == m.pages
      && forall a :: Size(m) <= a < Size(r.value.0) ==> ByteAt(r.value.0, a) == 0
    ensures r.Ok? && WithinMax(m) ==> WithinMax(r.value.0) && r.value.0.maxPageCount == m.maxPageCount
  {
    if Wrap(|m.pages| + deltaPages) > m.maxPageCount then Ok((m, -1))
    else if |m.pages| + deltaPages > MAX_INT then Err(OutOfMemory)
    else
      var m' := Memory(m.maxPageCount, m.pages + ZeroPages(deltaPages));
      assert deltaPages <= 0 ==> m'.pages == m.pages;
      NewBytesZero(m, m');
      Ok((m', |m.pages|))
  }

  /** Where no wrap-around can happen and the delta is not negative, the two versions agree. */
  lemma GrowAsWrittenAgrees(m: Memory, deltaPages: int32)
    requires 0 <= deltaPages && |m.pages| + deltaPages <= MAX_INT
    ensures GrowAsWritten(m, deltaPages) == Ok(Grow(m, deltaPages))
  {
  }

  /**
   * A memory of one page out of one (`new LinearMemory(1)`), grown by `Integer.MAX_VALUE`: the
   * sum wraps to `Integer.MIN_VALUE`, the check passes although the new count would be far
   * above the maximum, and the allocation runs out of memory; the unsigned reading refuses it.
   */
  lemma GrowAsWrittenOverflows()
    ensures var m := NewWithDefaultMax(1);
      Wrap(|m.pages| + MAX_INT) <= m.maxPageCount < |m.pages| + MAX_INT
      && GrowAsWritten(m, MAX_INT) == Err(OutOfMemory)
      && Grow(m, MAX_INT) == (m, -1)
  {
    var m := NewWithDefaultMax(1);
    assert Wrap(1 + MAX_INT) == MIN_INT;
  }

  /** A negative delta (here -1, the unsigned 2^32 - 1 pages) is granted as written: nothing is added and the old count comes back instead of -1. */
  lemma GrowAsWrittenAcceptsNegative()
    ensures var m := NewWithDefaultMax(1);
      GrowAsWritten(m, -1) == Ok((m, 1)) && Grow(m, -1) == (m, -1)
  {
  }

  // ---------------------------------------------------------------------------------------------
  // Bounds check, load and store.

  /** The address an access starts at: `address + offset` in wrapping `int` arithmetic. */
  function EffectiveAddress(address: int32, offset: int32): int32 {
    Wrap(address + offset)
  }

  /** `validateBoundsOrThrowException`: both indices are computed in wrapping `int` arithmetic. */
  predicate OutOfBoundsAsWritten(m: Memory, address: int32, offset: int32, byteCount: int) {
    var biggestValidIndex := Wrap(|m.pages| * PAGE_SIZE_BYTES - 1);
    var biggestAccessedIndex := Wrap(address + offset + byteCount - 1);
    biggestAccessedIndex > biggestValidIndex
  }

  /**
   * The bounds check WebAssembly intends, with the address and offset read as the unsigned 32-bit
   * numbers they are: the access covers bytes `address + offset` up to `address + offset + byteCount - 1`.
   */
  predicate OutOfBounds(m: Memory, address: int32, offset: int32, byteCount: int) {
    Unsigned(address) + Unsigned(offset) + byteCount - 1 > Size(m) - 1
  }

  /** For non-negative operands whose sums stay within `int`, the check as written is exactly the intended one. */
  lemma OutOfBoundsAsWrittenAgrees(m: Memory, address: int32, offset: int32, byteCount: int)
    requires 0 <= address && 0 <= offset && 1 <= byteCount
    requires address + offset + byteCount - 1 <= MAX_INT && Size(m) <= MAX_INT + 1
    ensures OutOfBoundsAsWritten(m, address, offset, byteCount) <==> OutOfBounds(m, address, offset, byteCount)
  {
  }

  /**
   * Whether `load` throws: the bounds check fails, or the effective address is negative (a
   * negative page number or byte index), or lies on a page that does not exist, or the bytes run
   * past the end of the page the access starts on (the loop reads that page only, downwards from
   * the offset of the last byte, and an index below zero throws).
   */
  predicate LoadFaults(m: Memory, address: int32, offset: int32, byteCount: int) {
    var ea := EffectiveAddress(address, offset);
    OutOfBoundsAsWritten(m, address, offset, byteCount)
    || ea < 0 || ea + byteCount > Size(m) || ea % PAGE_SIZE_BYTES + byteCount > PAGE_SIZE_BYTES
  }

  /** On a memory of at most 2^31 bytes, `load` throws exactly when its bytes are not all in memory and on one page. */
  lemma LoadFaultsExactly(m: Memory, address: int32, offset: int32, byteCount: int)
    requires 1 <= byteCount <= 4 && Size(m) <= MAX_INT + 1
    ensures var ea := EffectiveAddress(address, offset);
      LoadFaults(m, address, offset, byteCount)
      <==> !(0 <= ea && ea + byteCount <= Size(m) && ea % PAGE_SIZE_BYTES + byteCount <= PAGE_SIZE_BYTES)
  {
    var ea := EffectiveAddress(address, offset);
    if 0 <= ea && ea + byteCount <= Size(m) {
      WrapCongruent(address + offset + byteCount - 1, ea + byteCount - 1);
      assert Wrap(ea + byteCount - 1) == ea + byteCount - 1;
      assert Wrap(Size(m) - 1) == Size(m) - 1;
    }
  }

  function Pow256(n: nat): (p: nat)
    ensures p >= 1
  {
    if n == 0 then 1 else 256 * Pow256(n - 1)
  }

  /** The `n` bytes from `address` on. */
  function Bytes(m: Memory, address: nat, n: nat): (bs: seq<bv8>)
    requires address + n <= Size(m)
    ensures |bs| == n && forall i :: 0 <= i < n ==> bs[i] == ByteAt(m, address + i)
  {
    seq(n, i requires 0 <= i < n => ByteAt(m, address + i))
  }

  /** The number whose bytes, least significant first, are `bs`. */
  function LittleEndian(bs: seq<bv8>): (v: nat)
    ensures v < Pow256(|bs|)
  {
    if |bs| == 0 then 0 else bs[0] as int + 256 * LittleEndian(bs[1..])
  }

  /** The `int` a `byteCount`-byte little-endian value gives: sign-extended when `isSigned` and shorter than an `int`, zero-extended otherwise. */
  function Extend(raw: nat, byteCount: nat, isSigned: bool): (r: int32)
    requires 1 <= byteCount <= 4 && raw < Pow256(byteCount)
    ensures (r - raw) % Pow256(byteCount) == 0
    ensures byteCount < 4 && !isSigned ==> r == raw
    ensures byteCount < 4 && isSigned ==> -(Pow256(byteCount) / 2) <= r < Pow256(byteCount) / 2
  {
    Pow256Bounds(byteCount);
    var p := Pow256(byteCount);
    if byteCount == 4 then Signed32(raw)
    else if isSigned && raw >= p / 2 then
      assert (raw - p - raw) % p == 0 by {
        assert raw - p - raw == -1 * p;
      }
      raw - p
    else raw
  }

  lemma Pow256Bounds(n: nat)
    requires n <= 4
    ensures n < 4 ==> Pow256(n) <= 0x100_0000
    ensures n == 4 ==> Pow256(n) == TWO_32
  {
    if n > 0 {
      Pow256Bounds(n - 1);
    }
  }

  function Signed32(raw: nat): (r: int32)
    requires raw < TWO_32
    ensures r == raw || r == raw - TWO_32
  {
    if raw <= MAX_INT then raw else raw - TWO_32
  }

  /**
   * `load`: throws where the code as written throws; otherwise the value is the one its
   * documentation promises, the `byteCount` bytes at the effective address read little-endian
   * and sign-extended when `isSigned` and `byteCount < 4`. The alignment is a hint and plays no part.
   */
  function LoadResult(m: Memory, address: int32, offset: int32, byteCount: int, isSigned: bool): (r: Outcome<int32>)
    requires 1 <= byteCount <= 4
    ensures r.Err? <==> LoadFaults(m, address, offset, byteCount)
    ensures r.Err? ==> r.error == IndexOutOfBounds
    ensures r.Ok? ==> var ea := EffectiveAddress(address, offset);
      0 <= ea && ea + byteCount <= Size(m)
      && (r.value - LittleEndian(Bytes(m, ea, byteCount))) % Pow256(byteCount) == 0
    ensures r.Ok? && byteCount < 4 && !isSigned ==> 0 <= r.value < Pow256(byteCount)
    ensures r.Ok? && byteCount < 4 && isSigned ==> -(Pow256(byteCount) / 2) <= r.value < Pow256(byteCount) / 2
  {
    if LoadFaults(m, address, offset, byteCount) then Err(IndexOutOfBounds)
    else
      var raw := LittleEndian(Bytes(m, EffectiveAddress(address, offset), byteCount));
      Ok(Extend(raw, byteCount, isSigned))
  }

  /** `load` as WebAssembly intends it: unsigned address and offset, and any bytes in memory, on one page or across two. */
  function LoadIntended(m: Memory, address: int32, offset: int32, byteCount: int, isSigned: bool): (r: Outcome<int32>)
    requires 1 <= byteCount <= 4
    ensures r.Err? <==> OutOfBounds(m, address, offset, byteCount)
    ensures r.Err? ==> r.error == IndexOutOfBounds
    ensures r.Ok? ==> (r.value - LittleEndian(Bytes(m, Unsigned(address) + Unsigned(offset), byteCount))) % Pow256(byteCount) == 0
    ensures r.Ok? && byteCount < 4 && !isSigned ==> 0 <= r.value < Pow256(byteCount)
    ensures r.Ok? && byteCount < 4 && isSigned ==> -(Pow256(byteCount) / 2) <= r.value < Pow256(byteCount) / 2
  {
    if OutOfBounds(m, address, offset, byteCount) then Err(IndexOutOfBounds)
    else
      var raw := LittleEndian(Bytes(m, Unsigned(address) + Unsigned(offset), byteCount));
      Ok(Extend(raw, byteCount, isSigned))
  }

  /** For non-negative operands that do not wrap and an access within one page, `load` as written is `load` as intended. */
  lemma LoadIntendedAgrees(m: Memory, address: int32, offset: int32, byteCount: int, isSigned: bool)
    requires 1 <= byteCount <= 4 && 0 <= address && 0 <= offset && address + offset <= MAX_INT
    requires Size(m) <= MAX_INT + 1 && (address + offset) % PAGE_SIZE_BYTES + byteCount <= PAGE_SIZE_BYTES
    ensures LoadResult(m, address, offset, byteCount, isSigned) == LoadIntended(m, address, offset, byteCount, isSigned)
  {
    assert EffectiveAddress(address, offset) == address + offset;
    LoadFaultsExactly(m, address, offset, byteCount);
  }

  /** `load(Integer.MIN_VALUE, Integer.MIN_VALUE, _, 4, _)` on one zero page: the effective address wraps to 0 and the word there is read, where the intended check refuses an access 2^32 bytes out. */
  lemma LoadAsWrittenWrapsToZero()
    ensures var m := NewWithDefaultMax(1);
      LoadResult(m, MIN_INT, MIN_INT, 4, false) == Ok(0)
      && LoadIntended(m, MIN_INT, MIN_INT, 4, false) == Err(IndexOutOfBounds)
  {
    var m := NewWithDefaultMax(1);
    assert EffectiveAddress(MIN_INT, MIN_INT) == 0;
    assert Wrap(MIN_INT + MIN_INT + 4 - 1) == 3;
    var bs := Bytes(m, 0, 4);
    assert bs == [0, 0, 0, 0];
    assert LittleEndian(bs) == 0 by {
      assert LittleEndian(bs[1..]) == 0 by {
        assert LittleEndian(bs[1..][1..]) == 0 by {
          assert LittleEndian(bs[1..][1..][1..]) == 0 by {
            assert bs[1..][1..][1..][1..] == [];
          }
        }
      }
    }
  }

  /** A two-byte load at the last byte of the first of two pages throws as written, where the intended load reads across the boundary. */
  lemma LoadAsWrittenRejectsPageCrossing()
    ensures var m := NewWithDefaultMax(2);
      LoadResult(m, 65535, 0, 2, false).Err? && LoadIntended(m, 65535, 0, 2, false).Ok?
  {
  }

  /** `store`: only the bounds check is implemented, the memory is left as it was. */
  function StoreResult(m: Memory, address: int32, offset: int32, byteCount: int, value: int32): (r: Outcome<Memory>)
    ensures r.Err? <==> OutOfBoundsAsWritten(m, address, offset, byteCount)
    ensures r.Err? ==> r.error == IndexOutOfBounds
    ensures r.Ok? ==> r.value == m
  {
    if OutOfBoundsAsWritten(m, address, offset, byteCount) then Err(IndexOutOfBounds) else Ok(m)
  }

  /**
   * A negative address passes the check as written: on a one-page memory, address -4 (0xFFFFFFFC)
   * with a four-byte access looks like index -1. A store there succeeds silently; a load throws
   * only because its byte index turns negative.
   */
  lemma OutOfBoundsAsWrittenMissesNegative()
    ensures var m := NewWithDefaultMax(1);
      !OutOfBoundsAsWritten(m, -4, 0, 4) && OutOfBounds(m, -4, 0, 4)
      && StoreResult(m, -4, 0, 4, 0) == Ok(m)
      && LoadResult(m, -4, 0, 4, false) == Err(IndexOutOfBounds)
  {
    var m := NewWithDefaultMax(1);
    assert Wrap(-4 + 0 + 4 - 1) == -1;
    assert Wrap(PAGE_SIZE_BYTES - 1) == PAGE_SIZE_BYTES - 1;
  }

  /** A byte stored and loaded back is not the byte stored: loading after storing gives what was there before. */
  lemma StoreThenLoad(m: Memory, address: int32, value: int32)
    requires StoreResult(m, address, 0, 1, value).Ok?
    ensures LoadResult(StoreResult(m, address, 0, 1, value).value, address, 0, 1, false) == LoadResult(m, address, 0, 1, false)
    ensures 0 <= address < Size(m) ==> LoadResult(m, address, 0, 1, false) == Ok(ByteAt(m, address) as int)
  {
    assert EffectiveAddress(address, 0) == address;
  }

  /** A byte 0xFF loads as -1 when signed and as 255 when unsigned. */
  lemma SignExtension(m: Memory, address: int32)
    requires 0 <= address < Size(m) <= MAX_INT + 1 && ByteAt(m, address) == 0xFF
    ensures LoadResult(m, address, 0, 1, true) == Ok(-1)
    ensures LoadResult(m, address, 0, 1, false) == Ok(255)
  {
    assert EffectiveAddress(address, 0) == address;
    LoadFaultsExactly(m, address, 0, 1);
  }

  // ---------------------------------------------------------------------------------------------
  // The Java object.

  class LinearMemory {
    var maxPageCount: int32
    var allocatedPages: PageList

    function Model(): Memory
      reads this
    {
      Memory(maxPageCount, allocatedPages)
    }

    /** `new LinearMemory(initialPageCount)`. */
    constructor (initialPageCount: int32)
      ensures Model() == NewWithDefaultMax(initialPageCount)
    {
      maxPageCount := 1;
      allocatedPages := [];
      new;
      AllocatePages(initialPageCount);
    }

    /** The body of the two-argument constructor once its check has passed. */
    constructor WithMaximum(initialPageCount: int32, maxPageCount: int32)
      requires maxPageCount <= PAGE_COUNT_MAX
      ensures Model() == New(initialPageCount, maxPageCount).value
    {
      this.maxPageCount := maxPageCount;
      allocatedPages := [];
      new;
      AllocatePages(initialPageCount);
    }

    /** `new LinearMemory(initialPageCount, maxPageCount)`, which throws instead of returning an object when the maximum is too large. */
    static method Create(initialPageCount: int32, maxPageCount: int32) returns (r: Outcome<LinearMemory>)
      ensures New(initialPageCount, maxPageCount).Err? ==> r == Err(New(initialPageCount, maxPageCount).error)
      ensures New(initialPageCount, maxPageCount).Ok? ==>
        r.Ok? && fresh(r.value) && r.value.Model() == New(initialPageCount, maxPageCount).value
    {
      if maxPageCount > PAGE_COUNT_MAX {
        return Err(BoundaryViolation);
      }
      var memory := new LinearMemory.WithMaximum(initialPageCount, maxPageCount);
      return Ok(memory);
    }

    /** `currentMemory`. */
    method CurrentMemory() returns (n: int32)
      ensures n == |Model().pages|
    {
      return |allocatedPages|;
    }

    /** `growMemory`: the check on wrapping `int`s, then `allocatePages`; the error is the `OutOfMemoryError` the allocation would end in. */
    method GrowMemory(deltaPages: int32) returns (r: Outcome<int32>)
      modifies this
      ensures r.Err? <==> GrowAsWritten(old(Model()), deltaPages).Err?
      ensures r.Err? ==> r.error == OutOfMemory && Model() == old(Model())
      ensures r.Ok? ==> GrowAsWritten(old(Model()), deltaPages) == Ok((Model(), r.value))
    {
      if Wrap(|allocatedPages| + deltaPages) > maxPageCount {
        return Ok(-1);
      }
      if |allocatedPages| + deltaPages > MAX_INT {
        return Err(OutOfMemory);
      }
      var oldPageCount := |allocatedPages|;
      AllocatePages(deltaPages);
      return Ok(oldPageCount);
    }

    /** `allocatePages`: appends `pageCount` zero pages, one per loop pass. */
    method AllocatePages(pageCount: int)
      requires |allocatedPages| + pageCount <= MAX_INT
      modifies this
      ensures maxPageCount == old(maxPageCount)
      ensures allocatedPages == old(allocatedPages) + ZeroPages(pageCount)
    {
      var i := 0;
      while i < pageCount
        invariant if pageCount >= 0 then 0 <= i <= pageCount else i == 0
        invariant maxPageCount == old(maxPageCount)
        invariant allocatedPages == old(allocatedPages) + ZeroPages(i)
      {
        allocatedPages := allocatedPages + [ZeroPage()];
        i := i + 1;
      }
      assert ZeroPages(i) == ZeroPages(pageCount);
    }

    /** `validateBoundsOrThrowException`: both indices in wrapping `int` arithmetic. */
    method ValidateBounds(address: int32, offset: int32, byteCount: int) returns (r: Outcome<()>)
      ensures r.Err? <==> OutOfBoundsAsWritten(Model(), address, offset, byteCount)
      ensures r.Err? ==> r.error == IndexOutOfBounds
    {
      var biggestValidIndex := Wrap(|allocatedPages| * PAGE_SIZE_BYTES - 1);
      var biggestAccessedIndex := Wrap(address + offset + byteCount - 1);
      if biggestAccessedIndex > biggestValidIndex {
        return Err(IndexOutOfBounds);
      }
      return Ok(());
    }

    /**
     * `load`: the bounds check, then the page of the effective address and the bytes on it (a
     * negative or missing page, or a byte index below the start of the page, throws); the bytes
     * are assembled most significant first and the value is extended to an `int`.
     */
    method Load(address: int32, offset: int32, alignment: int32, byteCount: int, isSigned: bool) returns (r: Outcome<int32>)
      requires 1 <= byteCount <= 4
      ensures r == LoadResult(Model(), address, offset, byteCount, isSigned)
    {
      var valid := ValidateBounds(address, offset, byteCount);
      if valid.Err? {
        return Err(valid.error);
      }
      var effectiveAddress := Wrap(address + offset);
      if effectiveAddress < 0 {
        return Err(IndexOutOfBounds);
      }
      var pageNumber := effectiveAddress / PAGE_SIZE_BYTES;
      if pageNumber >= |allocatedPages| {
        assert effectiveAddress >= pageNumber * PAGE_SIZE_BYTES >= |allocatedPages| * PAGE_SIZE_BYTES;
        return Err(IndexOutOfBounds);
      }
      if effectiveAddress % PAGE_SIZE_BYTES + byteCount > PAGE_SIZE_BYTES {
        return Err(IndexOutOfBounds);
      }
      PageEnd(effectiveAddress, byteCount, |allocatedPages|);
      var bytes := Bytes(Model(), effectiveAddress, byteCount);
      var value := 0;
      var i := byteCount;
      assert bytes[..i] == bytes;
      while i > 0
        invariant 0 <= i <= byteCount
        invariant value * Pow256(i) + LittleEndian(bytes[..i]) == LittleEndian(bytes)
        invariant 0 <= value < Pow256(byteCount - i)
      {
        var next := value * 256 + bytes[i - 1] as int;
        LoadStep(bytes, i, value, next);
        value, i := next, i - 1;
      }
      assert bytes[..0] == [];
      return Ok(Extend(value, byteCount, isSigned));
    }

    /** `store`: checks the bounds and writes nothing. */
    method Store(address: int32, offset: int32, alignment: int32, byteCount: int, value: int32) returns (r: Outcome<()>)
      ensures r.Err? <==> StoreResult(Model(), address, offset, byteCount, value).Err?
      ensures r.Err? ==> r.error == IndexOutOfBounds
    {
      r := ValidateBounds(address, offset, byteCount);
    }
  }

  /** The last byte splits off: `LittleEndian(bs) == LittleEndian(bs without its last byte) + last * 256^(|bs|-1)`. */
  lemma {:induction false} LittleEndianSplit(bs: seq<bv8>)
    requires 1 <= |bs|
    ensures LittleEndian(bs) == LittleEndian(bs[..|bs| - 1]) + bs[|bs| - 1] as int * Pow256(|bs| - 1)
  {
    if |bs| > 1 {
      var tail := bs[1..];
      LittleEndianSplit(tail);
      assert tail[..|tail| - 1] == bs[..|bs| - 1][1..];
      var last := bs[|bs| - 1] as int;
      var p := Pow256(|bs| - 2);
      var rest := LittleEndian(tail[..|tail| - 1]);
      assert LittleEndian(tail) == rest + last * p;
      assert LittleEndian(bs[..|bs| - 1]) == bs[0] as int + 256 * rest;
      assert Pow256(|bs| - 1) == 256 * p;
      Distribute(256, rest, last * p);
      assert LittleEndian(bs) == bs[0] as int + 256 * rest + 256 * (last * p);
      Rearrange(256, last, p);
    } else {
      assert bs[..0] == [];
    }
  }

  /** An access that starts on an existing page and stays on it ends within memory. */
  lemma PageEnd(ea: nat, byteCount: nat, pageCount: nat)
    requires ea / PAGE_SIZE_BYTES < pageCount && ea % PAGE_SIZE_BYTES + byteCount <= PAGE_SIZE_BYTES
    ensures ea + byteCount <= pageCount * PAGE_SIZE_BYTES
  {
    var q := ea / PAGE_SIZE_BYTES;
    assert ea == q * PAGE_SIZE_BYTES + ea % PAGE_SIZE_BYTES;
    assert (q + 1) * PAGE_SIZE_BYTES <= pageCount * PAGE_SIZE_BYTES;
  }

  lemma Rearrange(a: int, b: int, c: int)
    ensures a * (b * c) == b * (a * c)
  {
  }

  lemma Distribute(a: int, b: int, c: int)
    ensures a * (b + c) == a * b + a * c
  {
  }

  lemma ShiftByte(value: int, b: int, p: int)
    ensures value * (256 * p) + b * p == (value * 256 + b) * p
  {
  }

  /** One pass of the loop in `LinearMemory.Load`: shifting the value assembled so far up one byte and adding the next lower byte. */
  lemma LoadStep(bs: seq<bv8>, i: nat, value: nat, next: nat)
    requires 1 <= i <= |bs| && next == value * 256 + bs[i - 1] as int
    requires value * Pow256(i) + LittleEndian(bs[..i]) == LittleEndian(bs)
    requires value < Pow256(|bs| - i)
    ensures next * Pow256(i - 1) + LittleEndian(bs[..i - 1]) == LittleEndian(bs)
    ensures next < Pow256(|bs| - (i - 1))
  {
    var prefix := bs[..i];
    LittleEndianSplit(prefix);
    assert prefix[..i - 1] == bs[..i - 1];
    var b := bs[i - 1] as int;
    var p := Pow256(i - 1);
    assert Pow256(i) == 256 * p;
    assert LittleEndian(prefix) == LittleEndian(bs[..i - 1]) + b * p;
    ShiftByte(value, b, p);
    assert value * 256 + b < Pow256(|bs| - i) * 256 by {
      assert value + 1 <= Pow256(|bs| - i);
      assert (value + 1) * 256 <= Pow256(|bs| - i) * 256;
    }
  }

  /** The state of a memory reference, `None` while it is null. */
  function MemoryOf(memory: LinearMemory?): (r: Option<Memory>)
    reads memory
    ensures r.None? <==> memory == null
    ensures r.Some? ==> r.value == memory.Model()
  {
    if memory == null then None else Some(memory.Model())
  }
}
