/** Shared vocabulary of the codec: byte and integer widths, the error kinds of
    the resolver, big-endian conversions, and the description of what a writer
    emits into a packet buffer. */
module Wire {

  /** Capacity of every packet buffer: the 512-byte UDP message limit of
      section 2.3.4 of RFC 1035. */
  const BufferSize: nat := 512

  /** Go's `byte` (uint8). */
  type byte = x: int | 0 <= x < 0x100
  type u16 = x: int | 0 <= x < 0x1_0000
  type u32 = x: int | 0 <= x < 0x1_0000_0000

  datatype Option<T> = None | Some(value: T)

  /** The error values the Go code returns (each `fmt.Errorf` site is one kind). */
  datatype Error =
    | PosTooLarge                  // Seek, ReadByteAt or SetByte past the last byte
    | BufferOverflow(at: nat)      // ReadAtRange or WriteByte past the end
    | TooManyJumps                 // more than five compression pointers in one name
    | LabelTooLong                 // a label of more than 63 bytes on write
    | InvalidDataLength(qtype: u16) // an A record whose length is not 4, AAAA not 16
    | InvalidIP                    // NewIPv4 / NewIPv6 given the wrong number of bytes
    | TransportFailed              // the network collaborator failed
    | LookupUnfinished             // the model's fuel ran out (the Go loop has no bound)

  datatype Result<T> = Ok(value: T) | Err(error: Error)

  /** A status for operations that return only an error. */
  datatype Outcome = Pass | Fail(error: Error)

  /** The value an infallible read returns and the cursor it leaves. */
  datatype Got<T> = Got(value: T, next: nat)

  /** The result of a fallible read and the cursor it leaves, on success and on
      error alike. */
  datatype Decoded<T> = Decoded(result: Result<T>, next: nat)

  /** The byte pair `(hi, lo)` read as a big-endian 16-bit number. */
  function U16Of(hi: byte, lo: byte): u16 {
    hi * 256 + lo
  }

  /** `v` as two big-endian bytes. */
  function U16Bytes(v: u16): (r: seq<byte>)
    ensures |r| == 2
  {
    [v / 256, v % 256]
  }

  /** Reading back the two bytes of `v` gives `v`. */
  lemma U16BytesRoundTrip(v: u16)
    ensures U16Of(U16Bytes(v)[0], U16Bytes(v)[1]) == v
  {
  }

  /** Writing the number two bytes denote gives those bytes back. */
  lemma U16OfBytes(hi: byte, lo: byte)
    ensures U16Bytes(U16Of(hi, lo)) == [hi, lo]
  {
  }

  /** Four bytes read as a big-endian 32-bit number: the high half first. */
  function U32Of(b0: byte, b1: byte, b2: byte, b3: byte): u32 {
    U16Of(b0, b1) * 0x1_0000 + U16Of(b2, b3)
  }

  /** `v` as four big-endian bytes. */
  function U32Bytes(v: u32): (r: seq<byte>)
    ensures |r| == 4
  {
    U16Bytes(v / 0x1_0000) + U16Bytes(v % 0x1_0000)
  }

  /** Reading back the four bytes of `v` gives `v`. */
  lemma U32BytesRoundTrip(v: u32)
    ensures U32Of(U32Bytes(v)[0], U32Bytes(v)[1], U32Bytes(v)[2], U32Bytes(v)[3]) == v
  {
    U16BytesRoundTrip(v / 0x1_0000);
    U16BytesRoundTrip(v % 0x1_0000);
  }

  lemma U16BytesInjective(a: u16, b: u16)
    requires U16Bytes(a) == U16Bytes(b)
    ensures a == b
  {
    U16BytesRoundTrip(a);
    U16BytesRoundTrip(b);
  }

  /** What a writer emits: the bytes it writes, in order, and whether it ends
      without an error of its own (a label longer than 63 bytes). Running out
      of buffer space is accounted for separately, by the buffer's write
      outcome. */
  datatype Emission = Emission(bytes: seq<byte>, ok: bool)

  /** A writer that emits `bs` and cannot fail by itself. */
  function Emit(bs: seq<byte>): Emission {
    Emission(bs, true)
  }

  /** Two writers in sequence: the second runs only if the first ended
      without error, as every Go writer returns at its first error. */
  function Then(a: Emission, b: Emission): (r: Emission)
    ensures r.ok <==> a.ok && b.ok
    ensures a.ok ==> r.bytes == a.bytes + b.bytes
    ensures !a.ok ==> r == a
  {
    if a.ok then Emission(a.bytes + b.bytes, b.ok) else a
  }

  /** Entry `x`, emitted by `enc` anywhere inside `buf`, is read back by
      `dec` as itself, with the cursor just past its bytes. */
  ghost predicate ReadsBackAt<T>(dec: (seq<byte>, nat) --> Decoded<T>, enc: T --> Emission, buf: seq<byte>, x: T) {
    && enc.requires(x) && enc(x).ok
    && forall q: nat | q + |enc(x).bytes| < |buf| && buf[q..q + |enc(x).bytes|] == enc(x).bytes
         :: dec.requires(buf, q) && dec(buf, q) == Decoded(Ok(x), q + |enc(x).bytes|)
  }

  lemma ThenAssociative(a: Emission, b: Emission, c: Emission)
    ensures Then(Then(a, b), c) == Then(a, Then(b, c))
  {
    if a.ok && b.ok {
      assert (a.bytes + b.bytes) + c.bytes == a.bytes + (b.bytes + c.bytes);
    }
  }

  /** `uint16(x)`: the low 16 bits of `x`. */
  function Truncate16(x: nat): (r: u16)
    ensures x < 0x1_0000 ==> r == x
  {
    if x < 0x1_0000 then x else x % 0x1_0000
  }

  /** The 2-byte big-endian length of what `inner` emits, then `inner` itself:
      the shape `PrependDataLength` produces. The length is truncated to 16
      bits as `uint16(size)` does. */
  function Prefixed(inner: Emission): (r: Emission)
    ensures r.ok == inner.ok && |r.bytes| == |inner.bytes| + 2
    ensures r.bytes[2..] == inner.bytes
    ensures |inner.bytes| < 0x1_0000 ==> U16Of(r.bytes[0], r.bytes[1]) == |inner.bytes|
  {
    var n := Truncate16(|inner.bytes|);
    var h := U16Bytes(n);
    U16BytesRoundTrip(n);
    var bs := h + inner.bytes;
    assert bs[0] == h[0] && bs[1] == h[1] && bs[2..] == inner.bytes;
    assert U16Of(bs[0], bs[1]) == n;
    Emission(bs, inner.ok)
  }

  /** Bytes `i` to `j` of what was written at `p` sit at `p + i` to `p + j`. */
  lemma SliceAt(buf: seq<byte>, p: nat, e: seq<byte>, i: nat, j: nat)
    requires p + |e| <= |buf| && buf[p..p + |e|] == e && i <= j <= |e|
    ensures buf[p + i..p + j] == e[i..j]
  {
    forall k | 0 <= k < j - i
      ensures buf[p + i..p + j][k] == e[i..j][k]
    {
      assert buf[p..p + |e|][i + k] == buf[p + i + k];
    }
  }

  /** Two consecutive parts of what sits at `p`. */
  lemma Split2(buf: seq<byte>, p: nat, e: seq<byte>, e1: seq<byte>, e2: seq<byte>)
    requires p + |e| <= |buf| && buf[p..p + |e|] == e && e == e1 + e2
    ensures buf[p..p + |e1|] == e1 && buf[p + |e1|..p + |e1| + |e2|] == e2
  {
    SliceAt(buf, p, e, 0, |e1|);
    SliceAt(buf, p, e, |e1|, |e|);
    assert e[0..|e1|] == e1 && e[|e1|..|e|] == e2;
  }

  function Zeros(n: nat): (r: seq<byte>)
    ensures |r| == n && forall i :: 0 <= i < n ==> r[i] == 0
  {
    seq(n, _ => 0)
  }
}
