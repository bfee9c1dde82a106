/**
 * `java.io.ByteArrayInputStream` as a value: the buffer, the index of the next byte to read and
 * the index one past the last readable byte. Every reading operation returns the stream it
 * leaves behind.
 */
module ByteStreams {

  datatype RawStream = RawStream(buf: seq<bv8>, pos: nat, count: nat)

  /** The stream never reads past its buffer. */
  type Stream = s: RawStream | s.count <= |s.buf| witness RawStream([], 0, 0)

  /** `new ByteArrayInputStream(buf)`. */
  function Open(buf: seq<bv8>): Stream {
    RawStream(buf, 0, |buf|)
  }

  /** `new ByteArrayInputStream(buf, offset, length)`: reading starts at `offset` and stops at the smaller of `offset + length` and the buffer's end. */
  function OpenAt(buf: seq<bv8>, offset: nat, length: int): Stream {
    RawStream(buf, offset, if offset + length < |buf| then (if offset + length < 0 then 0 else offset + length) else |buf|)
  }

  /** `available()`: the bytes left, negative once the read position lies past `count`. */
  function Available(s: Stream): int {
    s.count - s.pos
  }

  /** `t` reads the same data as `s`, from the same position or further on. */
  predicate Advanced(s: Stream, t: Stream) {
    t.buf == s.buf && t.count == s.count && s.pos <= t.pos && (s.pos <= s.count ==> t.pos <= s.count)
  }

  /** `read()`: the next byte as 0..255, or -1 (and no movement) at the end. */
  function Read(s: Stream): (r: (int, Stream))
    ensures -1 <= r.0 < 256 && Advanced(s, r.1)
    ensures r.0 == -1 <==> s.pos >= s.count
    ensures r.0 != -1 ==> r.0 == s.buf[s.pos] as int && r.1.pos == s.pos + 1
    ensures r.0 == -1 ==> r.1 == s
  {
    if s.pos < s.count then (s.buf[s.pos] as int, s.(pos := s.pos + 1)) else (-1, s)
  }

  function Zeros(n: nat): (z: seq<bv8>)
    ensures |z| == n && forall i :: 0 <= i < n ==> z[i] == 0
  {
    seq(n, _ => 0)
  }

  /** `read(b)` into a fresh `byte[len]`: copies what is left, up to `len` bytes; the rest of `b` stays zero. */
  function ReadBytes(s: Stream, len: nat): (r: (seq<bv8>, Stream))
    ensures |r.0| == len && Advanced(s, r.1)
    ensures s.pos < s.count ==> r.1.pos == s.pos + (if len < s.count - s.pos then len else s.count - s.pos)
    ensures s.pos >= s.count ==> r.1 == s
  {
    if s.pos >= s.count then (Zeros(len), s)
    else
      var n := if len < s.count - s.pos then len else s.count - s.pos;
      (s.buf[s.pos..s.pos + n] + Zeros(len - n), s.(pos := s.pos + n))
  }

  /** `skip(n)`: moves by `n` bytes but never past `count`; a negative `n` skips nothing, and a position past `count` is moved back to it. */
  function Skip(s: Stream, n: int): (r: Stream)
    ensures r.buf == s.buf && r.count == s.count
    ensures s.pos <= s.count ==> Advanced(s, r)
    ensures s.pos <= s.count && 0 <= n ==> r.pos == (if s.pos + n < s.count then s.pos + n else s.count)
  {
    var k := s.count - s.pos;
    var skipped := if n < k then (if n < 0 then 0 else n) else k;
    s.(pos := s.pos + skipped)
  }
}
