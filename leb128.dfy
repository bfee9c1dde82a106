/**
 * Unsigned LEB128 (section 5.2.2 of the WebAssembly Core Specification) as the decoder reads it:
 * at most five bytes, little-endian groups of seven bits, bit 0x80 meaning "more bytes follow".
 * Values are the 32-bit pattern of the Java `int` the decoder returns.
 */
module Leb128 {
  import opened Wrappers
  import opened Exceptions
  import opened ByteStreams

  /** `in.read() & 0xff`: the next byte, where the end-of-input marker -1 turns into 0xFF, a byte that says "more follow". */
  function ReadMasked(s: Stream): (r: (bv8, Stream))
    ensures r.1 == Read(s).1
    ensures Read(s).0 == -1 ==> r.0 == 0xFF
    ensures Read(s).0 != -1 ==> r.0 as int == Read(s).0
  {
    if s.pos < s.count then (s.buf[s.pos], s.(pos := s.pos + 1)) else (0xFF, s)
  }

  /** The byte the decoder sees `j` reads after the current position: 0xFF once the input is exhausted. */
  function ByteSeen(s: Stream, j: nat): bv8 {
    if s.pos + j < s.count then s.buf[s.pos + j] else 0xFF
  }

  /** `x << (7 * k)`, spelled out per shift distance. */
  function Shl7(x: bv32, k: nat): bv32
    requires k < 5
  {
    if k == 0 then x else if k == 1 then x << 7 else if k == 2 then x << 14 else if k == 3 then x << 21 else x << 28
  }

  /** `x >>> (7 * k)`, spelled out per shift distance. */
  function Shr7(x: bv32, k: nat): bv32
    requires k < 5
  {
    if k == 0 then x else if k == 1 then x >> 7 else if k == 2 then x >> 14 else if k == 3 then x >> 21 else x >> 28
  }

  /** The low `7 * k` bits of `v`. */
  function Low7(v: bv32, k: nat): bv32
    requires k < 5
  {
    if k == 0 then 0 else if k == 1 then v & 0x7F else if k == 2 then v & 0x3FFF else if k == 3 then v & 0x1F_FFFF else v & 0xFFF_FFFF
  }

  /** The contribution of the `count`-th byte: its low seven bits, moved to bit `7 * count` (bits past 31 are lost). */
  function Payload(cur: bv8, count: nat): bv32
    requires count < 5
  {
    Shl7((cur & 0x7F) as bv32, count)
  }

  /** `readUnsignedLeb128`: the value and the stream after it. A call with `count` and `result` is the `do ... while` loop after `count` bytes have been read into `result`. */
  function DecodeUnsigned(s: Stream, count: nat := 0, result: bv32 := 0): (r: Outcome<(bv32, Stream)>)
    requires count < 5
    ensures r.Ok? ==> Advanced(s, r.value.1) && s.pos < r.value.1.pos <= s.pos + 5 - count
    ensures r.Err? ==> r.error == ParserException(InvalidLeb128)
    decreases 5 - count, 1
  {
    var (cur, next) := ReadMasked(s);
    DecodeTest(next, count + 1, result | Payload(cur, count), cur)
  }

  /** The loop condition and the check after the loop: go on while `cur` has bit 0x80 and fewer than five bytes were read, then fail if it still has it. */
  function DecodeTest(s: Stream, count: nat, result: bv32, cur: bv8): (r: Outcome<(bv32, Stream)>)
    requires 1 <= count <= 5
    ensures r.Ok? ==> Advanced(s, r.value.1) && r.value.1.pos <= s.pos + 5 - count
    ensures r.Ok? && cur & 0x80 == 0x80 ==> s.pos < r.value.1.pos
    ensures r.Err? ==> r.error == ParserException(InvalidLeb128)
    decreases 5 - count, 2
  {
    if cur & 0x80 != 0x80 then Ok((result, s))
    else if count < 5 then DecodeUnsigned(s, count, result)
    else Err(ParserException(InvalidLeb128))
  }

  /** The imperative decoder: the Java `do ... while` loop. */
  method ReadUnsignedLeb128(input: Stream) returns (r: Outcome<(bv32, Stream)>)
    ensures r == DecodeUnsigned(input)
  {
    var result: bv32 := 0;
    var count: nat := 0;
    var (cur, s) := ReadMasked(input);
    result := result | Payload(cur, count);
    count := count + 1;
    while cur & 0x80 == 0x80 && count < 5
      invariant 1 <= count <= 5
      invariant DecodeUnsigned(input) == DecodeTest(s, count, result, cur)
      decreases 5 - count
    {
      var (cur', s') := ReadMasked(s);
      result := result | Payload(cur', count);
      s, cur := s', cur';
      count := count + 1;
    }
    if cur & 0x80 == 0x80 {
      return Err(ParserException(InvalidLeb128));
    }
    return Ok((result, s));
  }

  // ---------------------------------------------------------------------------------------------
  // A closed form of the decoder.

  /** Index of the first byte without the continuation bit among the next five, or 5 if there is none. */
  function StopIndex(s: Stream, j: nat): (k: nat)
    requires j <= 5
    ensures j <= k <= 5
    ensures k < 5 ==> ByteSeen(s, k) & 0x80 == 0
    decreases 5 - j
  {
    if j == 5 then 5 else if ByteSeen(s, j) & 0x80 == 0 then j else StopIndex(s, j + 1)
  }

  /** Bitwise or of the payloads of the first `n` bytes seen, byte `j` shifted by `7 * j`. */
  function Groups(s: Stream, n: nat): bv32
    requires n <= 5
  {
    if n == 0 then 0 else Groups(s, n - 1) | Payload(ByteSeen(s, n - 1), n - 1)
  }

  /** What decoding must give: the groups of all bytes up to the first final byte, or an error if none of five is final. */
  function DecodeSpec(s: Stream): Outcome<(bv32, Stream)> {
    var k := StopIndex(s, 0);
    if k < 5 then Ok((Groups(s, k + 1), s.(pos := s.pos + k + 1))) else Err(ParserException(InvalidLeb128))
  }

  /** `s` is `s0` after `k` reads. */
  predicate ReadsLater(s0: Stream, k: nat, s: Stream) {
    s.buf == s0.buf && s.count == s0.count
    && (s0.pos + k <= s0.count ==> s.pos == s0.pos + k)
    && (s0.pos + k > s0.count ==> s.pos >= s.count)
  }

  lemma {:induction false} DecodeFromClosedForm(s0: Stream, k: nat, s: Stream)
    requires k < 5 && ReadsLater(s0, k, s)
    requires StopIndex(s0, 0) == StopIndex(s0, k)
    ensures DecodeUnsigned(s, k, Groups(s0, k)) == DecodeSpec(s0)
    decreases 5 - k, 1
  {
    var (cur, next) := ReadMasked(s);
    assert cur == ByteSeen(s0, k);
    if cur & 0x80 != 0x80 {
      ClosedFormFinal(s0, k, s);
    } else {
      ClosedFormMore(s0, k, s);
    }
  }

  lemma ClosedFormFinal(s0: Stream, k: nat, s: Stream)
    requires k < 5 && ReadsLater(s0, k, s)
    requires StopIndex(s0, 0) == StopIndex(s0, k)
    requires ReadMasked(s).0 == ByteSeen(s0, k) && ByteSeen(s0, k) & 0x80 != 0x80
    ensures DecodeUnsigned(s, k, Groups(s0, k)) == DecodeSpec(s0)
  {
    assert StopIndex(s0, 0) == k;
    assert ByteSeen(s0, k) != 0xFF;
    assert s0.pos + k < s0.count;
    assert ReadMasked(s).1 == s0.(pos := s0.pos + k + 1);
    StepFinal(s, k, Groups(s0, k));
    GroupsStep(s0, k);
    DecodeSpecAt(s0, k);
  }

  lemma GroupsStep(s: Stream, k: nat)
    requires k < 5
    ensures Groups(s, k + 1) == Groups(s, k) | Payload(ByteSeen(s, k), k)
  {
  }

  lemma DecodeSpecAt(s: Stream, k: nat)
    requires StopIndex(s, 0) == k < 5
    ensures DecodeSpec(s) == Ok((Groups(s, k + 1), s.(pos := s.pos + k + 1)))
  {
  }

  lemma {:induction false} ClosedFormMore(s0: Stream, k: nat, s: Stream)
    requires k < 5 && ReadsLater(s0, k, s)
    requires StopIndex(s0, 0) == StopIndex(s0, k)
    requires ReadMasked(s).0 == ByteSeen(s0, k) && ByteSeen(s0, k) & 0x80 == 0x80
    ensures DecodeUnsigned(s, k, Groups(s0, k)) == DecodeSpec(s0)
    decreases 5 - k, 0
  {
    GroupsStep(s0, k);
    StepMore(s, k, Groups(s0, k), Groups(s0, k + 1));
    if k + 1 < 5 {
      assert StopIndex(s0, k) == StopIndex(s0, k + 1);
      DecodeFromClosedForm(s0, k + 1, ReadMasked(s).1);
    } else {
      assert StopIndex(s0, 0) == 5;
    }
  }

  /** One pass of the loop when the byte read is the last one. */
  lemma StepFinal(s: Stream, count: nat, result: bv32)
    requires count < 5 && ReadMasked(s).0 & 0x80 != 0x80
    ensures DecodeUnsigned(s, count, result) == Ok((result | Payload(ReadMasked(s).0, count), ReadMasked(s).1))
  {
  }

  /** One pass of the loop when the byte read says more follow. */
  lemma StepMore(s: Stream, count: nat, result: bv32, result': bv32)
    requires count < 5 && ReadMasked(s).0 & 0x80 == 0x80
    requires result' == result | Payload(ReadMasked(s).0, count)
    ensures count + 1 < 5 ==> DecodeUnsigned(s, count, result) == DecodeUnsigned(ReadMasked(s).1, count + 1, result')
    ensures count + 1 == 5 ==> DecodeUnsigned(s, count, result) == Err(ParserException(InvalidLeb128))
  {
  }

  /** The decoder consumes the bytes up to and including the first one without bit 0x80 (at most five), and ors their payloads in little-endian order; with five continuation bytes it fails. */
  lemma DecodeUnsignedClosedForm(s: Stream)
    ensures DecodeUnsigned(s) == DecodeSpec(s)
    ensures DecodeUnsigned(s).Ok? <==> exists j :: 0 <= j < 5 && ByteSeen(s, j) & 0x80 == 0
  {
    DecodeFromClosedForm(s, 0, s);
    if exists j :: 0 <= j < 5 && ByteSeen(s, j) & 0x80 == 0 {
      var j :| 0 <= j < 5 && ByteSeen(s, j) & 0x80 == 0;
      StopIndexAtMost(s, 0, j);
    }
  }

  lemma {:induction false} StopIndexAtMost(s: Stream, i: nat, j: nat)
    requires i <= j < 5 && ByteSeen(s, j) & 0x80 == 0
    ensures StopIndex(s, i) <= j
    decreases j - i
  {
    if ByteSeen(s, i) & 0x80 != 0 {
      StopIndexAtMost(s, i + 1, j);
    }
  }

  /** Input that ends in the middle of an encoding is rejected: the missing bytes read as 0xFF. */
  lemma TruncatedInputFails(s: Stream)
    requires s.pos <= s.count < s.pos + 5
    requires forall j :: s.pos <= j < s.count ==> s.buf[j] & 0x80 == 0x80
    ensures DecodeUnsigned(s) == Err(ParserException(InvalidLeb128))
  {
    DecodeUnsignedClosedForm(s);
    forall j | 0 <= j < 5
      ensures ByteSeen(s, j) & 0x80 != 0
    {
      if s.pos + j < s.count {
        assert s.buf[s.pos + j] & 0x80 == 0x80;
      }
    }
  }

  // ---------------------------------------------------------------------------------------------
  // Encoding, the inverse of decoding.

  /** The shortest unsigned LEB128 encoding of a 32-bit pattern. */
  function Encode(v: bv32): (e: seq<bv8>)
    ensures 1 <= |e|
    decreases v
  {
    if v < 0x80 then [v as bv8] else [((v & 0x7F) | 0x80) as bv8] + Encode(v >> 7)
  }

  lemma {:induction false} DecodeEncodeFrom(v: bv32, k: nat, w: bv32, s: Stream, e: seq<bv8>)
    requires k <= 4 && w == Shr7(v, k) && e == Encode(w)
    requires s.pos + |e| <= s.count && s.buf[s.pos..s.pos + |e|] == e
    ensures DecodeUnsigned(s, k, Low7(v, k)) == Ok((v, s.(pos := s.pos + |e|)))
    decreases 4 - k, 1
  {
    assert ReadMasked(s) == (e[0], s.(pos := s.pos + 1)) by {
      assert s.buf[s.pos] == e[0];
    }
    if w < 0x80 {
      SmallGroup(w);
      DecodeLastGroup(v, k, w, s);
    } else {
      DecodeEncodeMore(v, k, w, s, e);
    }
  }

  lemma {:induction false} DecodeEncodeMore(v: bv32, k: nat, w: bv32, s: Stream, e: seq<bv8>)
    requires k <= 4 && w == Shr7(v, k) && w >= 0x80 && e == Encode(w)
    requires s.pos + |e| <= s.count && s.buf[s.pos..s.pos + |e|] == e
    requires ReadMasked(s) == (e[0], s.(pos := s.pos + 1))
    ensures DecodeUnsigned(s, k, Low7(v, k)) == Ok((v, s.(pos := s.pos + |e|)))
    decreases 4 - k, 0
  {
    var w', e' := NextEncoding(v, k, w, e);
    DecodeNextGroup(v, k, w, s);
    var next := ReadMasked(s).1;
    assert next.buf[next.pos..next.pos + |e'|] == e'  by {
      assert s.buf[s.pos + 1..s.pos + |e|] == e[1..];
    }
    DecodeEncodeFrom(v, k + 1, w', next, e');
    assert next.(pos := next.pos + |e'|) == s.(pos := s.pos + |e|);
  }

  /** An encoding byte with the continuation bit is followed by the encoding of the next group. */
  lemma NextEncoding(v: bv32, k: nat, w: bv32, e: seq<bv8>) returns (w': bv32, e': seq<bv8>)
    requires k <= 4 && w == Shr7(v, k) && w >= 0x80 && e == Encode(w)
    ensures k < 4 && w' == Shr7(v, k + 1) && e' == Encode(w') && e == [e[0]] + e'
    ensures e[0] == ((w & 0x7F) | 0x80) as bv8
  {
    assert k < 4 by {
      TopGroup(v);
    }
    w' := Shr7(v, k + 1);
    assert w >> 7 == w' by {
      ShiftStep(v, k);
    }
    LargeGroup(w, w');
    e' := Encode(w');
  }

  /** The final byte of an encoding completes the value. */
  lemma DecodeLastGroup(v: bv32, k: nat, w: bv32, s: Stream)
    requires k <= 4 && w == Shr7(v, k) && w < 0x80
    requires ReadMasked(s).0 == w as bv8
    ensures DecodeUnsigned(s, k, Low7(v, k)) == Ok((v, ReadMasked(s).1))
  {
    SmallByte(w);
    LowHigh(v, k);
    StepFinal(s, k, Low7(v, k));
  }

  /** A byte with the continuation bit adds its group and leaves the rest of the encoding. */
  lemma DecodeNextGroup(v: bv32, k: nat, w: bv32, s: Stream)
    requires k < 4 && w == Shr7(v, k) && w >= 0x80
    requires ReadMasked(s).0 == ((w & 0x7F) | 0x80) as bv8
    ensures DecodeUnsigned(s, k, Low7(v, k)) == DecodeUnsigned(ReadMasked(s).1, k + 1, Low7(v, k + 1))
  {
    NextGroupBits(v, k, w, ReadMasked(s).0);
    StepMore(s, k, Low7(v, k), Low7(v, k + 1));
  }

  /** The bits of one continuation byte: its flag is set and its payload is the next group of `v`. */
  lemma NextGroupBits(v: bv32, k: nat, w: bv32, b: bv8)
    requires k < 4 && w == Shr7(v, k) && b == ((w & 0x7F) | 0x80) as bv8
    ensures b & 0x80 == 0x80 && Low7(v, k + 1) == Low7(v, k) | Payload(b, k)
  {
    NextGroupBitsCases(v, k, w, b);
  }

  /** The case split behind `NextGroupBits`, stated over the four group indices one by one. */
  lemma NextGroupBitsCases(v: bv32, k: nat, w: bv32, b: bv8)
    requires k in {0, 1, 2, 3} && w == Shr7(v, k) && b == ((w & 0x7F) | 0x80) as bv8
    ensures b & 0x80 == 0x80 && Low7(v, k + 1) == Low7(v, k) | Payload(b, k)
  {
    if k == 0 {
      NextGroupBits0(v, w, b);
      return;
    }
    if k == 1 {
      NextGroupBits1(v, w, b);
      return;
    }
    if k == 2 {
      NextGroupBits2(v, w, b);
      return;
    }
    if k == 3 {
      NextGroupBits3(v, w, b);
      return;
    }
  }

  lemma NextGroupBits0(v: bv32, w: bv32, b: bv8)
    requires w == Shr7(v, 0) && b == ((w & 0x7F) | 0x80) as bv8
    ensures b & 0x80 == 0x80 && Low7(v, 1) == Low7(v, 0) | Payload(b, 0)
  {
    GroupBits0(v, b);
  }

  lemma GroupBits0(v: bv32, b: bv8)
    requires b == ((v & 0x7F) | 0x80) as bv8
    ensures b & 0x80 == 0x80 && v & 0x7F == 0 | ((b & 0x7F) as bv32)
  {
  }

  lemma NextGroupBits1(v: bv32, w: bv32, b: bv8)
    requires w == Shr7(v, 1) && b == ((w & 0x7F) | 0x80) as bv8
    ensures b & 0x80 == 0x80 && Low7(v, 2) == Low7(v, 1) | Payload(b, 1)
  {
    GroupBits1(v, b);
  }

  lemma GroupBits1(v: bv32, b: bv8)
    requires b == (((v >> 7) & 0x7F) | 0x80) as bv8
    ensures b & 0x80 == 0x80 && v & 0x3FFF == (v & 0x7F) | (((b & 0x7F) as bv32) << 7)
  {
  }

  lemma NextGroupBits2(v: bv32, w: bv32, b: bv8)
    requires w == Shr7(v, 2) && b == ((w & 0x7F) | 0x80) as bv8
    ensures b & 0x80 == 0x80 && Low7(v, 3) == Low7(v, 2) | Payload(b, 2)
  {
    GroupBits2(v, b);
  }

  lemma GroupBits2(v: bv32, b: bv8)
    requires b == (((v >> 14) & 0x7F) | 0x80) as bv8
    ensures b & 0x80 == 0x80 && v & 0x1F_FFFF == (v & 0x3FFF) | (((b & 0x7F) as bv32) << 14)
  {
  }

  lemma NextGroupBits3(v: bv32, w: bv32, b: bv8)
    requires w == Shr7(v, 3) && b == ((w & 0x7F) | 0x80) as bv8
    ensures b & 0x80 == 0x80 && Low7(v, 4) == Low7(v, 3) | Payload(b, 3)
  {
    GroupBits3(v, b);
  }

  lemma GroupBits3(v: bv32, b: bv8)
    requires b == (((v >> 21) & 0x7F) | 0x80) as bv8
    ensures b & 0x80 == 0x80 && v & 0xFFF_FFFF == (v & 0x1F_FFFF) | (((b & 0x7F) as bv32) << 21)
  {
  }

  lemma SmallByte(w: bv32)
    requires w < 0x80
    ensures ((w as bv8) & 0x7F) as bv32 == w && (w as bv8) & 0x80 == 0
  {
  }

  lemma LargeByte(w: bv32)
    ensures (((w & 0x7F) | 0x80) as bv8) & 0x80 == 0x80
    ensures ((((w & 0x7F) | 0x80) as bv8) & 0x7F) as bv32 == w & 0x7F
  {
  }

  lemma SmallGroup(w: bv32)
    requires w < 0x80
    ensures Encode(w) == [w as bv8]
  {
  }

  lemma LargeGroup(w: bv32, w': bv32)
    requires w >= 0x80 && w >> 7 == w'
    ensures Encode(w) == [((w & 0x7F) | 0x80) as bv8] + Encode(w')
  {
  }

  lemma TopGroup(v: bv32)
    ensures Shr7(v, 4) < 0x80
  {
  }

  lemma LowHigh(v: bv32, k: nat)
    requires k <= 4
    ensures Low7(v, k) | Shl7(Shr7(v, k), k) == v
  {
    if k == 0 {
    } else if k == 1 {
      LowHigh1(v);
    } else if k == 2 {
      LowHigh2(v);
    } else if k == 3 {
      LowHigh3(v);
    } else {
      LowHigh4(v);
    }
  }

  lemma LowHigh1(v: bv32) ensures (v & 0x7F) | ((v >> 7) << 7) == v {}
  lemma LowHigh2(v: bv32) ensures (v & 0x3FFF) | ((v >> 14) << 14) == v {}
  lemma LowHigh3(v: bv32) ensures (v & 0x1F_FFFF) | ((v >> 21) << 21) == v {}
  lemma LowHigh4(v: bv32) ensures (v & 0xFFF_FFFF) | ((v >> 28) << 28) == v {}

  lemma ShiftStep(v: bv32, k: nat)
    requires k < 4
    ensures Shr7(v, k) >> 7 == Shr7(v, k + 1)
  {
    if k == 0 {
    } else if k == 1 {
      assert (v >> 7) >> 7 == v >> 14;
    } else if k == 2 {
      assert (v >> 14) >> 7 == v >> 21;
    } else {
      assert (v >> 21) >> 7 == v >> 28;
    }
  }

  lemma AddGroup(v: bv32, k: nat)
    requires k < 4
    ensures Low7(v, k) | Shl7(Shr7(v, k) & 0x7F, k) == Low7(v, k + 1)
  {
    if k == 0 {
      AddGroup0(v);
    } else if k == 1 {
      AddGroup1(v);
    } else if k == 2 {
      AddGroup2(v);
    } else {
      AddGroup3(v);
    }
  }

  lemma AddGroup0(v: bv32) ensures 0 | ((v & 0x7F) << 0) == v & 0x7F {}
  lemma AddGroup1(v: bv32) ensures (v & 0x7F) | (((v >> 7) & 0x7F) << 7) == v & 0x3FFF {}
  lemma AddGroup2(v: bv32) ensures (v & 0x3FFF) | (((v >> 14) & 0x7F) << 14) == v & 0x1F_FFFF {}
  lemma AddGroup3(v: bv32) ensures (v & 0x1F_FFFF) | (((v >> 21) & 0x7F) << 21) == v & 0xFFF_FFFF {}

  /** Decoding the encoding of `v` gives `v` back and consumes exactly the encoding. */
  lemma DecodeEncode(v: bv32, s: Stream)
    requires s.pos + |Encode(v)| <= s.count
    requires s.buf[s.pos..s.pos + |Encode(v)|] == Encode(v)
    ensures DecodeUnsigned(s) == Ok((v, s.(pos := s.pos + |Encode(v)|)))
  {
    DecodeEncodeFrom(v, 0, v, s, Encode(v));
  }

  // ---------------------------------------------------------------------------------------------
  // Encoded size.

  /** How many seven-bit shifts bring `r` to zero. */
  function ShiftCount(r: bv32): nat
    decreases r
  {
    if r == 0 then 0 else 1 + ShiftCount(r >> 7)
  }

  /** `unsignedLeb128Size`: for a negative `int` the arithmetic shift never reaches zero and the Java loop runs forever. */
  function Size(value: bv32): (r: Outcome<nat>)
    ensures r.Err? <==> value >= 0x8000_0000
    ensures r.Err? ==> r.error == Divergence
    ensures r.Ok? ==> 1 <= r.value <= 5
  {
    if value >= 0x8000_0000 then Err(Divergence)
    else
      ShiftCountBound(value >> 7, 4);
      Ok(ShiftCount(value >> 7) + 1)
  }

  lemma {:induction false} ShiftCountBound(r: bv32, k: nat)
    requires k <= 4 && Shr7(r, k) == 0
    ensures ShiftCount(r) <= k
    decreases k
  {
    if r != 0 {
      assert k != 0;
      assert Shr7(r >> 7, k - 1) == 0;
      ShiftCountBound(r >> 7, k - 1);
    }
  }

  /** The imperative `unsignedLeb128Size`, for the non-negative values on which its loop terminates. */
  method UnsignedLeb128Size(value: bv32) returns (n: nat)
    requires value < 0x8000_0000
    ensures Size(value) == Ok(n)
  {
    var remaining := value >> 7;
    var count := 0;
    while remaining != 0
      invariant count + ShiftCount(remaining) == ShiftCount(value >> 7)
      decreases remaining
    {
      remaining := remaining >> 7;
      count := count + 1;
    }
    return count + 1;
  }

  /** The size the decoder's callers compute is the length of the encoding: `|Encode(v)| == Size(v)`. */
  lemma {:induction false} EncodedLength(v: bv32)
    ensures |Encode(v)| == ShiftCount(v >> 7) + 1
    ensures Size(v).Ok? ==> |Encode(v)| == Size(v).value
    decreases v
  {
    if v >= 0x80 {
      EncodedLength(v >> 7);
      assert (v >> 7) >> 7 == v >> 14;
    }
  }
}
