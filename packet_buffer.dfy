/** The 512-byte packet buffer with a single cursor that every codec reads
    and writes through. The reading and writing methods are proved against
    the pure descriptions below: the `Read*` functions for reads and
    `WriteOutcome` for writes. */
module PacketBuffer {
  import opened Wire
  import opened Names

  /** Where `ReadByte` leaves a cursor at `p`: one further on, except on the
      last byte, where it stays. */
  function NextPos(p: nat): nat {
    if p + 1 < BufferSize then p + 1 else p
  }

  /** `ReadByte` with the cursor at `p`. */
  function ReadU8(buf: seq<byte>, p: nat): (r: Got<byte>)
    requires |buf| == BufferSize && p < BufferSize
    ensures r.next < BufferSize
  {
    Got(buf[p], NextPos(p))
  }

  /** `ReadUint16` with the cursor at `p`: two `ReadByte`s, high byte first. */
  function ReadU16(buf: seq<byte>, p: nat): (r: Got<u16>)
    requires |buf| == BufferSize && p < BufferSize
    ensures r.next < BufferSize
  {
    var hi := ReadU8(buf, p);
    var lo := ReadU8(buf, hi.next);
    Got(U16Of(hi.value, lo.value), lo.next)
  }

  /** Within the buffer `ReadUint16` reads `buf[p]` and `buf[p + 1]`
      big-endian and advances by two (by one when it ends on the last byte);
      from the last byte it reads that byte twice and stays. */
  lemma ReadU16Value(buf: seq<byte>, p: nat)
    requires |buf| == BufferSize && p < BufferSize
    ensures p + 2 <= BufferSize ==> ReadU16(buf, p).value == U16Of(buf[p], buf[p + 1])
    ensures p + 2 < BufferSize ==> ReadU16(buf, p).next == p + 2
    ensures p + 2 == BufferSize ==> ReadU16(buf, p).next == p + 1
    ensures p == BufferSize - 1 ==> ReadU16(buf, p) == Got(U16Of(buf[p], buf[p]), p)
  {
  }

  /** `ReadUint32` with the cursor at `p`: two `ReadUint16`s, high half first. */
  function ReadU32(buf: seq<byte>, p: nat): (r: Got<u32>)
    requires |buf| == BufferSize && p < BufferSize
    ensures r.next < BufferSize
  {
    var hi := ReadU16(buf, p);
    var lo := ReadU16(buf, hi.next);
    Got(hi.value * 0x1_0000 + lo.value, lo.next)
  }

  /** When the four bytes at `p` lie in the buffer `ReadUint32` reads them
      big-endian; it advances by four, or by three when they end on the last
      byte, where the cursor stops. */
  lemma ReadU32Value(buf: seq<byte>, p: nat)
    requires |buf| == BufferSize && p < BufferSize
    ensures p + 4 <= BufferSize ==> ReadU32(buf, p).value == U32Of(buf[p], buf[p + 1], buf[p + 2], buf[p + 3])
    ensures p + 4 < BufferSize ==> ReadU32(buf, p).next == p + 4
    ensures p + 4 == BufferSize ==> ReadU32(buf, p).next == p + 3
  {
    ReadU16Value(buf, p);
    if p + 2 < BufferSize {
      ReadU16Value(buf, p + 2);
    }
  }

  /** `n` successive `ReadByte`s from cursor `p`, as the record readers do
      for raw data and addresses. */
  function ReadBytes(buf: seq<byte>, p: nat, n: nat): (r: Got<seq<byte>>)
    requires |buf| == BufferSize && p < BufferSize
    ensures |r.value| == n && r.next < BufferSize
    ensures p + n <= BufferSize ==> r.value == buf[p..p + n]
    ensures p + n < BufferSize ==> r.next == p + n
    decreases n
  {
    if n == 0 then Got([], p)
    else
      var b := ReadU8(buf, p);
      var rest := ReadBytes(buf, b.next, n - 1);
      Got([b.value] + rest.value, rest.next)
  }

  /** A 16-bit number written big-endian reads back. */
  lemma ReadU16RoundTrip(buf: seq<byte>, p: nat, v: u16)
    requires |buf| == BufferSize && p + 2 < BufferSize && buf[p..p + 2] == U16Bytes(v)
    ensures ReadU16(buf, p) == Got(v, p + 2)
  {
    assert buf[p] == U16Bytes(v)[0] && buf[p + 1] == U16Bytes(v)[1];
    ReadU16Value(buf, p);
  }

  /** A 32-bit number written big-endian reads back. */
  lemma ReadU32RoundTrip(buf: seq<byte>, p: nat, v: u32)
    requires |buf| == BufferSize && p + 4 < BufferSize && buf[p..p + 4] == U32Bytes(v)
    ensures ReadU32(buf, p) == Got(v, p + 4)
  {
    var bs := U32Bytes(v);
    assert buf[p] == bs[0] && buf[p + 1] == bs[1] && buf[p + 2] == bs[2] && buf[p + 3] == bs[3];
    ReadU32Value(buf, p);
    U32BytesRoundTrip(v);
  }

  /** How a writer that starts with the cursor at `s` and emits `e` leaves the
      buffer `before` as `after`, with the cursor at `p`. It succeeds (`ok`)
      exactly when `e` does and ends before the last byte, since `WriteByte`
      refuses index 511; then the bytes of `e` follow `s`, the cursor is just
      past them and nothing else has changed. Whatever happens, the bytes
      before `s` are untouched and the cursor has not moved back. */
  ghost predicate WriteOutcome(before: seq<byte>, after: seq<byte>, s: nat, p: nat, e: Emission, ok: bool) {
    && |before| == BufferSize && |after| == BufferSize && s <= p < BufferSize
    && after[..s] == before[..s]
    && (ok <==> e.ok && s + |e.bytes| < BufferSize)
    && (ok ==> p == s + |e.bytes| && after == before[..s] + e.bytes + before[p..])
  }

  /** A successful writer followed by a second one is the writer of both
      emissions in sequence. */
  lemma WriteThen(b0: seq<byte>, b1: seq<byte>, b2: seq<byte>, s: nat, p1: nat, p2: nat, e1: Emission, e2: Emission, ok: bool)
    requires WriteOutcome(b0, b1, s, p1, e1, true) && WriteOutcome(b1, b2, p1, p2, e2, ok)
    ensures WriteOutcome(b0, b2, s, p2, Then(e1, e2), ok)
  {
    assert b1[..p1] == b0[..s] + e1.bytes;
    assert b2[..s] == b2[..p1][..s];
    if ok {
      assert b1[p2..] == b0[p2..] by {
        assert b1[p1..] == b0[p1..];
        assert b1[p2..] == b1[p1..][p2 - p1..];
      }
      assert b2 == b0[..s] + (e1.bytes + e2.bytes) + b0[p2..];
    }
  }

  /** A failed write is also a failed write of any emission that succeeds
      only when the failed one does and is at least as long. */
  lemma WriteFail(b0: seq<byte>, b1: seq<byte>, s: nat, p: nat, e1: Emission, e2: Emission)
    requires WriteOutcome(b0, b1, s, p, e1, false)
    requires e2.ok ==> e1.ok && |e2.bytes| >= |e1.bytes|
    ensures WriteOutcome(b0, b1, s, p, e2, false)
  {
  }

  /** Writing nothing changes nothing. */
  lemma WriteNothing(b: seq<byte>, s: nat)
    requires |b| == BufferSize && s < BufferSize
    ensures WriteOutcome(b, b, s, s, Emit([]), true)
  {
    assert b == b[..s] + [] + b[s..];
  }

  /** The closures handed to `PrependDataLength` by the NS and CNAME records
      (their host name), the MX record and the SOA record. */
  datatype DataWriter =
    | HostWriter(host: Name)
    | MxWriter(priority: u16, exchange: Name)
    | SoaWriter(mName: Name, rName: Name, serial: u32, refresh: u32, retry: u32, expire: u32, minimum: u32)

  /** What each closure emits: its writes in the order it makes them. */
  function DataEmission(w: DataWriter): Emission {
    match w
    case HostWriter(host) => EncodeName(host)
    case MxWriter(priority, exchange) => Then(Emit(U16Bytes(priority)), EncodeName(exchange))
    case SoaWriter(m, r, serial, refresh, retry, expire, minimum) =>
      Then(Then(EncodeName(m), EncodeName(r)), Emit(SoaNumbers(serial, refresh, retry, expire, minimum)))
  }

  /** The five 32-bit numbers that close an SOA record, big-endian and in
      order. */
  function SoaNumbers(serial: u32, refresh: u32, retry: u32, expire: u32, minimum: u32): (r: seq<byte>)
    ensures |r| == 20
  {
    U32Bytes(serial) + U32Bytes(refresh) + U32Bytes(retry) + U32Bytes(expire) + U32Bytes(minimum)
  }

  class BytePacketBuffer {
    var buffer: array<byte>
    var pos: nat

    /** The buffer holds 512 bytes and the cursor is on one of them. */
    ghost predicate Valid()
      reads this
    {
      buffer.Length == BufferSize && pos < BufferSize
    }

    /** `NewBytePacketBuffer`: a zeroed buffer with the cursor at 0. */
    constructor ()
      ensures Valid() && fresh(buffer) && pos == 0 && buffer[..] == Zeros(BufferSize)
    {
      buffer := new byte[BufferSize](_ => 0);
      pos := 0;
    }

    /** `BytePacketBufferFromRawBuffer`: reads and writes go to `raw` itself. */
    constructor FromRawBuffer(raw: array<byte>)
      requires raw.Length == BufferSize
      ensures Valid() && buffer == raw && pos == 0
    {
      buffer := raw;
      pos := 0;
    }

    /** The bytes before the cursor: what has been written so far. */
    method GetBytes() returns (r: seq<byte>)
      requires Valid()
      ensures |r| == pos && r == buffer[..pos]
    {
      r := buffer[..pos];
    }

    method Seek(p: nat) returns (o: Outcome)
      requires Valid()
      modifies this`pos
      ensures Valid()
      ensures o.Pass? <==> p < BufferSize
      ensures o.Pass? ==> pos == p
      ensures o.Fail? ==> pos == old(pos) && o.error == PosTooLarge
    {
      if p > BufferSize - 1 {
        return Fail(PosTooLarge);
      }
      pos := p;
      return Pass;
    }

    method ReadByteAt(p: nat) returns (r: Result<byte>)
      requires Valid()
      ensures r.Ok? <==> p < BufferSize
      ensures r.Ok? ==> r.value == buffer[p]
      ensures r.Err? ==> r.error == PosTooLarge
    {
      if p > BufferSize - 1 {
        return Err(PosTooLarge);
      }
      return Ok(buffer[p]);
    }

    /** The `len` bytes from `p` on, without moving the cursor; an error
        naming the end offset when they run past the buffer. */
    method ReadAtRange(p: nat, len: nat) returns (r: Result<seq<byte>>)
      requires Valid()
      ensures r.Ok? <==> p + len <= BufferSize
      ensures r.Ok? ==> r.value == buffer[p..p + len]
      ensures r.Err? ==> r.error == BufferOverflow(p + len)
    {
      if p + len > BufferSize {
        return Err(BufferOverflow(p + len));
      }
      var result: seq<byte> := [];
      var i := 0;
      while i < len
        invariant 0 <= i <= len
        invariant result == buffer[p..p + i]
      {
        // within the checked range, so this read cannot fail
        var b := ReadByteAt(p + i);
        result := result + [b.value];
        i := i + 1;
      }
      return Ok(result);
    }

    method ReadByte() returns (b: byte)
      requires Valid()
      modifies this`pos
      ensures Valid() && Got(b, pos) == ReadU8(buffer[..], old(pos))
    {
      b := buffer[pos];
      if pos + 1 < BufferSize {
        pos := pos + 1;
      }
    }

    method ReadUint16() returns (v: u16)
      requires Valid()
      modifies this`pos
      ensures Valid() && Got(v, pos) == ReadU16(buffer[..], old(pos))
    {
      var hi := ReadByte();
      var lo := ReadByte();
      v := U16Of(hi, lo);
    }

    method ReadUint32() returns (v: u32)
      requires Valid()
      modifies this`pos
      ensures Valid() && Got(v, pos) == ReadU32(buffer[..], old(pos))
    {
      var hi := ReadUint16();
      var lo := ReadUint16();
      v := hi as int * 0x1_0000 + lo as int;
    }

    /** `n` successive `ReadByte`s. */
    method ReadBytesAhead(n: nat) returns (bs: seq<byte>)
      requires Valid()
      modifies this`pos
      ensures Valid() && Got(bs, pos) == ReadBytes(buffer[..], old(pos), n)
    {
      ghost var buf := buffer[..];
      bs := [];
      var i := 0;
      assert bs + ReadBytes(buf, pos, n).value == ReadBytes(buf, pos, n).value;
      while i < n
        invariant Valid() && 0 <= i <= n && buffer[..] == buf
        invariant ReadBytes(buf, old(pos), n) == Got(bs + ReadBytes(buf, pos, n - i).value, ReadBytes(buf, pos, n - i).next)
      {
        ghost var p := pos;
        var b := ReadByte();
        assert ReadBytes(buf, p, n - i).value == [b] + ReadBytes(buf, pos, n - i - 1).value;
        assert bs + ([b] + ReadBytes(buf, pos, n - i - 1).value) == (bs + [b]) + ReadBytes(buf, pos, n - i - 1).value;
        bs := bs + [b];
        i := i + 1;
      }
      assert bs + ReadBytes(buf, pos, 0).value == bs;
    }

    /** Reads a possibly compressed name starting at the cursor, as the pure
        `ReadName` describes: the name or the error, and where the cursor is
        left (after the first pointer once one was followed). */
    method ReadLabel() returns (r: Result<Name>)
      requires Valid()
      modifies this`pos
      ensures Valid() && Decoded(r, pos) == ReadName(buffer[..], old(pos))
    {
      ghost var s, buf := pos, buffer[..];
      var result: Name := [];
      var local: nat := pos;
      var delim: Name := [];
      var jumps := 0;
      while true
        invariant Valid() && jumps <= MaxJumps + 1 && buffer[..] == buf
        invariant jumps == 0 ==> pos == s
        invariant ReadNameLoop(buf, local, jumps, result, delim, pos) == ReadName(buf, s)
        decreases MaxJumps + 1 - jumps, BufferSize - local
      {
        if jumps > MaxJumps {
          return Err(TooManyJumps);
        }
        ghost var p0 := pos;
        var lengthByte := ReadByteAt(local);
        if lengthByte.Err? {
          return Err(lengthByte.error);
        }
        if IsPointer(lengthByte.value) {
          var target := Jump(local, jumps, result, delim);
          if target.Err? {
            return Err(target.error);
          }
          local, jumps := target.value, jumps + 1;
        } else {
          ghost var here := local;
          local := local + 1;
          if lengthByte.value == 0 {
            break;
          }
          var chunk := ReadAtRange(local, lengthByte.value);
          if chunk.Err? {
            return Err(chunk.error);
          }
          assert ReadNameLoop(buf, here, jumps, result, delim, p0)
              == ReadNameLoop(buf, local + lengthByte.value, jumps, result + delim + chunk.value, [Dot], pos);
          result := result + delim + chunk.value;
          local := local + lengthByte.value;
          delim := [Dot];
        }
      }
      if jumps == 0 {
        var o := Seek(local);
        if o.Fail? {
          return Err(o.error);
        }
      }
      return Ok(result);
    }

    /** The pointer branch of `ReadLabel`'s loop: on the first jump the
        cursor moves past the 2-byte pointer, then the pointer's second byte
        is read and its target returned. The name read from the target, one
        jump later, is the name read from the pointer. */
    method Jump(local: nat, jumps: nat, ghost acc: Name, ghost delim: Name) returns (r: Result<nat>)
      requires Valid() && jumps <= MaxJumps && local < BufferSize && IsPointer(buffer[local])
      modifies this`pos
      ensures Valid()
      ensures r.Ok? ==>
        ReadNameLoop(buffer[..], local, jumps, acc, delim, old(pos)) == ReadNameLoop(buffer[..], r.value, jumps + 1, acc, delim, pos)
      ensures r.Err? ==> ReadNameLoop(buffer[..], local, jumps, acc, delim, old(pos)) == Decoded(Err(r.error), pos)
      ensures jumps > 0 ==> pos == old(pos)
    {
      if jumps == 0 {
        var o := Seek(local + 2);
        if o.Fail? {
          return Err(o.error);
        }
      }
      var jumpByte := ReadByteAt(local + 1);
      if jumpByte.Err? {
        return Err(jumpByte.error);
      }
      return Ok(PointerTarget(buffer[local], jumpByte.value));
    }

    method SetByte(p: nat, b: byte) returns (o: Outcome)
      requires Valid()
      modifies buffer
      ensures o.Pass? <==> p < BufferSize
      ensures o.Pass? ==> buffer[..] == old(buffer[..])[p := b]
      ensures o.Fail? ==> buffer[..] == old(buffer[..]) && o.error == PosTooLarge
    {
      if p > BufferSize - 1 {
        return Fail(PosTooLarge);
      }
      buffer[p] := b;
      return Pass;
    }

    /** Overwrites two bytes at `p` with `v`, high byte first. At the last
        offset the high byte is written before the low one fails. */
    method SetUint16(p: nat, v: u16) returns (o: Outcome)
      requires Valid()
      modifies buffer
      ensures o.Pass? <==> p + 1 < BufferSize
      ensures o.Pass? ==> buffer[..] == old(buffer[..])[p := U16Bytes(v)[0]][p + 1 := U16Bytes(v)[1]]
      ensures p == BufferSize - 1 ==> buffer[..] == old(buffer[..])[p := U16Bytes(v)[0]]
      ensures p >= BufferSize ==> buffer[..] == old(buffer[..])
      ensures o.Fail? ==> o.error == PosTooLarge
    {
      var bytes := U16Bytes(v);
      o := SetByte(p, bytes[0]);
      if o.Fail? {
        return;
      }
      o := SetByte(p + 1, bytes[1]);
    }

    /** Appends `b` at the cursor; refuses once the cursor is on the last byte. */
    method WriteByte(b: byte) returns (o: Outcome)
      requires Valid()
      modifies this`pos, buffer
      ensures Valid()
      ensures WriteOutcome(old(buffer[..]), buffer[..], old(pos), pos, Emit([b]), o.Pass?)
      ensures o.Fail? ==> o.error == BufferOverflow(old(pos) + 1) && buffer[..] == old(buffer[..]) && pos == old(pos)
    {
      if pos >= BufferSize - 1 {
        return Fail(BufferOverflow(pos + 1));
      }
      buffer[pos] := b;
      pos := pos + 1;
      return Pass;
    }

    method WriteUint16(v: u16) returns (o: Outcome)
      requires Valid()
      modifies this`pos, buffer
      ensures Valid()
      ensures WriteOutcome(old(buffer[..]), buffer[..], old(pos), pos, Emit(U16Bytes(v)), o.Pass?)
    {
      var bytes := U16Bytes(v);
      ghost var b0, s := buffer[..], pos;
      o := WriteByte(bytes[0]);
      if o.Fail? {
        WriteFail(b0, buffer[..], s, pos, Emit([bytes[0]]), Emit(bytes));
        return;
      }
      ghost var b1, p1 := buffer[..], pos;
      o := WriteByte(bytes[1]);
      WriteThen(b0, b1, buffer[..], s, p1, pos, Emit([bytes[0]]), Emit([bytes[1]]), o.Pass?);
      assert [bytes[0]] + [bytes[1]] == bytes;
    }

    method WriteUint32(v: u32) returns (o: Outcome)
      requires Valid()
      modifies this`pos, buffer
      ensures Valid()
      ensures WriteOutcome(old(buffer[..]), buffer[..], old(pos), pos, Emit(U32Bytes(v)), o.Pass?)
    {
      ghost var b0, s := buffer[..], pos;
      o := WriteUint16(v / 0x1_0000);
      if o.Fail? {
        WriteFail(b0, buffer[..], s, pos, Emit(U16Bytes(v / 0x1_0000)), Emit(U32Bytes(v)));
        return;
      }
      ghost var b1, p1 := buffer[..], pos;
      o := WriteUint16(v % 0x1_0000);
      WriteThen(b0, b1, buffer[..], s, p1, pos, Emit(U16Bytes(v / 0x1_0000)), Emit(U16Bytes(v % 0x1_0000)), o.Pass?);
    }

    /** Writes `name` uncompressed: each dot-separated label as a length
        byte and its bytes, then a zero byte; a label over 63 bytes stops it
        with the earlier labels already written. */
    method WriteLabel(name: Name) returns (o: Outcome)
      requires Valid()
      modifies this`pos, buffer
      ensures Valid()
      ensures WriteOutcome(old(buffer[..]), buffer[..], old(pos), pos, EncodeName(name), o.Pass?)
    {
      ghost var before, s := buffer[..], pos;
      var labels := Split(name);
      var i := 0;
      while i < |labels|
        invariant Valid() && 0 <= i <= |labels|
        invariant EncodeLabels(labels[..i]).ok
        invariant WriteOutcome(before, buffer[..], s, pos, EncodeLabels(labels[..i]), true)
      {
        var part := labels[i];
        if |part| > MaxLabelLength {
          assert !LabelsFit(labels) by {
            assert |labels[i]| > MaxLabelLength;
          }
          return Fail(LabelTooLong);
        }
        ghost var b1, p1 := buffer[..], pos;
        o := WritePart(part);
        LabelStep(before, b1, buffer[..], s, p1, pos, name, i, o.Pass?);
        if o.Fail? {
          return;
        }
        i := i + 1;
      }
      assert labels[..i] == labels;
      ghost var b2, p2 := buffer[..], pos;
      o := WriteByte(0);
      WriteThen(before, b2, buffer[..], s, p2, pos, EncodeLabels(labels), Emit([0]), o.Pass?);
    }

    /** One label of `WriteLabel`: its length byte, then its bytes. */
    method WritePart(part: Name) returns (o: Outcome)
      requires Valid() && |part| <= MaxLabelLength
      modifies this`pos, buffer
      ensures Valid()
      ensures WriteOutcome(old(buffer[..]), buffer[..], old(pos), pos, Emit(LabelBytes(part)), o.Pass?)
    {
      ghost var before, s := buffer[..], pos;
      ghost var bytes := LabelBytes(part);
      o := WriteByte(|part|);
      if o.Fail? {
        WriteFail(before, buffer[..], s, pos, Emit([|part|]), Emit(bytes));
        return;
      }
      assert bytes[..1] == [|part|];
      var j := 0;
      while j < |part|
        invariant Valid() && 0 <= j <= |part| && o.Pass?
        invariant WriteOutcome(before, buffer[..], s, pos, Emit(bytes[..j + 1]), true)
      {
        assert bytes[j + 1] == bytes[1..][j] == part[j];
        assert bytes[..j + 2] == bytes[..j + 1] + [part[j]];
        ghost var b1, p1 := buffer[..], pos;
        o := WriteByte(part[j]);
        WriteThen(before, b1, buffer[..], s, p1, pos, Emit(bytes[..j + 1]), Emit([part[j]]), o.Pass?);
        if o.Fail? {
          WriteFail(before, buffer[..], s, pos, Emit(bytes[..j + 2]), Emit(bytes));
          return;
        }
        j := j + 1;
      }
      assert bytes[..j + 1] == bytes;
    }

    /** Runs the closure that `w` names. */
    method WriteData(w: DataWriter) returns (o: Outcome)
      requires Valid()
      modifies this`pos, buffer
      ensures Valid()
      ensures WriteOutcome(old(buffer[..]), buffer[..], old(pos), pos, DataEmission(w), o.Pass?)
    {
      match w {
        case HostWriter(host) =>
          o := WriteLabel(host);
        case MxWriter(priority, exchange) =>
          o := WriteMx(priority, exchange);
        case SoaWriter(m, r, serial, refresh, retry, expire, minimum) =>
          o := WriteSoa(m, r, serial, refresh, retry, expire, minimum);
      }
    }

    /** The MX closure: the priority, then the exchange's name. */
    method WriteMx(priority: u16, exchange: Name) returns (o: Outcome)
      requires Valid()
      modifies this`pos, buffer
      ensures Valid()
      ensures WriteOutcome(old(buffer[..]), buffer[..], old(pos), pos, DataEmission(MxWriter(priority, exchange)), o.Pass?)
    {
      ghost var b0, s := buffer[..], pos;
      o := WriteUint16(priority);
      if o.Fail? {
        WriteFail(b0, buffer[..], s, pos, Emit(U16Bytes(priority)), DataEmission(MxWriter(priority, exchange)));
        return;
      }
      ghost var b1, p1 := buffer[..], pos;
      o := WriteLabel(exchange);
      WriteThen(b0, b1, buffer[..], s, p1, pos, Emit(U16Bytes(priority)), EncodeName(exchange), o.Pass?);
    }

    /** The SOA closure: both names, then the five numbers. */
    method WriteSoa(m: Name, r: Name, serial: u32, refresh: u32, retry: u32, expire: u32, minimum: u32) returns (o: Outcome)
      requires Valid()
      modifies this`pos, buffer
      ensures Valid()
      ensures WriteOutcome(old(buffer[..]), buffer[..], old(pos), pos,
                           DataEmission(SoaWriter(m, r, serial, refresh, retry, expire, minimum)), o.Pass?)
    {
      ghost var whole := DataEmission(SoaWriter(m, r, serial, refresh, retry, expire, minimum));
      ghost var b0, s := buffer[..], pos;
      o := WriteLabel(m);
      if o.Fail? {
        WriteFail(b0, buffer[..], s, pos, EncodeName(m), whole);
        return;
      }
      ghost var b1, p1 := buffer[..], pos;
      o := WriteLabel(r);
      WriteThen(b0, b1, buffer[..], s, p1, pos, EncodeName(m), EncodeName(r), o.Pass?);
      ghost var names := Then(EncodeName(m), EncodeName(r));
      if o.Fail? {
        WriteFail(b0, buffer[..], s, pos, names, whole);
        return;
      }
      ghost var b2, p2 := buffer[..], pos;
      o := WriteSoaNumbers(serial, refresh, retry, expire, minimum);
      WriteThen(b0, b2, buffer[..], s, p2, pos, names, Emit(SoaNumbers(serial, refresh, retry, expire, minimum)), o.Pass?);
    }

    /** The five numbers that close the SOA closure, in order. */
    method WriteSoaNumbers(serial: u32, refresh: u32, retry: u32, expire: u32, minimum: u32) returns (o: Outcome)
      requires Valid()
      modifies this`pos, buffer
      ensures Valid()
      ensures WriteOutcome(old(buffer[..]), buffer[..], old(pos), pos, Emit(SoaNumbers(serial, refresh, retry, expire, minimum)), o.Pass?)
    {
      ghost var whole := Emit(SoaNumbers(serial, refresh, retry, expire, minimum));
      ghost var b0, s := buffer[..], pos;
      o := WriteUint32(serial);
      ghost var done := U32Bytes(serial);
      if o.Fail? {
        WriteFail(b0, buffer[..], s, pos, Emit(done), whole);
        return;
      }
      ghost var b1, p1 := buffer[..], pos;
      o := WriteUint32(refresh);
      WriteThen(b0, b1, buffer[..], s, p1, pos, Emit(done), Emit(U32Bytes(refresh)), o.Pass?);
      done := done + U32Bytes(refresh);
      if o.Fail? {
        WriteFail(b0, buffer[..], s, pos, Emit(done), whole);
        return;
      }
      ghost var b2, p2 := buffer[..], pos;
      o := WriteUint32(retry);
      WriteThen(b0, b2, buffer[..], s, p2, pos, Emit(done), Emit(U32Bytes(retry)), o.Pass?);
      done := done + U32Bytes(retry);
      if o.Fail? {
        WriteFail(b0, buffer[..], s, pos, Emit(done), whole);
        return;
      }
      ghost var b3, p3 := buffer[..], pos;
      o := WriteUint32(expire);
      WriteThen(b0, b3, buffer[..], s, p3, pos, Emit(done), Emit(U32Bytes(expire)), o.Pass?);
      done := done + U32Bytes(expire);
      if o.Fail? {
        WriteFail(b0, buffer[..], s, pos, Emit(done), whole);
        return;
      }
      ghost var b4, p4 := buffer[..], pos;
      o := WriteUint32(minimum);
      WriteThen(b0, b4, buffer[..], s, p4, pos, Emit(done), Emit(U32Bytes(minimum)), o.Pass?);
      done := done + U32Bytes(minimum);
    }

    /** Writes a 2-byte placeholder, runs the closure `w`, then patches the
        placeholder with the number of bytes the closure wrote. */
    method PrependDataLength(w: DataWriter) returns (o: Outcome)
      requires Valid()
      modifies this`pos, buffer
      ensures Valid()
      ensures WriteOutcome(old(buffer[..]), buffer[..], old(pos), pos, Prefixed(DataEmission(w)), o.Pass?)
    {
      ghost var b0 := buffer[..];
      var dataLengthPos := pos;
      o := WriteUint16(0);
      if o.Fail? {
        WriteFail(b0, buffer[..], dataLengthPos, pos, Emit(U16Bytes(0)), Prefixed(DataEmission(w)));
        return;
      }
      ghost var b1, p1 := buffer[..], pos;
      o := WriteData(w);
      WriteThen(b0, b1, buffer[..], dataLengthPos, p1, pos, Emit(U16Bytes(0)), DataEmission(w), o.Pass?);
      if o.Fail? {
        WriteFail(b0, buffer[..], dataLengthPos, pos, Then(Emit(U16Bytes(0)), DataEmission(w)), Prefixed(DataEmission(w)));
        return;
      }
      var size := pos - (dataLengthPos + 2);
      assert size == |DataEmission(w).bytes| && dataLengthPos + 1 < BufferSize;
      ghost var b2 := buffer[..];
      // the placeholder lies before the cursor, so patching it cannot fail
      o := SetUint16(dataLengthPos, Truncate16(size));
      PatchLength(b0, b2, buffer[..], dataLengthPos, pos, DataEmission(w));
    }
  }

  /** One pass of `WriteLabel`'s loop: writing label `i` after the labels
      before it has written the labels up to and including `i`, and a failure
      there is a failure of the whole name. */
  lemma LabelStep(b0: seq<byte>, b1: seq<byte>, b2: seq<byte>, s: nat, p1: nat, p2: nat, name: Name, i: nat, ok: bool)
    requires i < |Split(name)| && |Split(name)[i]| <= MaxLabelLength
    requires WriteOutcome(b0, b1, s, p1, EncodeLabels(Split(name)[..i]), true)
    requires WriteOutcome(b1, b2, p1, p2, Emit(LabelBytes(Split(name)[i])), ok)
    ensures ok ==> WriteOutcome(b0, b2, s, p2, EncodeLabels(Split(name)[..i + 1]), true)
    ensures ok ==> EncodeLabels(Split(name)[..i + 1]).ok
    ensures !ok ==> WriteOutcome(b0, b2, s, p2, EncodeName(name), false)
  {
    var labels := Split(name);
    EncodeLabelsPrefix(labels, i);
    WriteThen(b0, b1, b2, s, p1, p2, EncodeLabels(labels[..i]), Emit(LabelBytes(labels[i])), ok);
    if !ok {
      WriteFail(b0, b2, s, p2, EncodeLabels(labels[..i + 1]), EncodeName(name));
    }
  }

  /** Patching the placeholder of a successful `PrependDataLength` yields the
      prefixed emission. */
  lemma PatchLength(b0: seq<byte>, b2: seq<byte>, b3: seq<byte>, at: nat, p: nat, inner: Emission)
    requires WriteOutcome(b0, b2, at, p, Then(Emit(U16Bytes(0)), inner), true)
    requires b3 == b2[at := U16Bytes(Truncate16(p - (at + 2)))[0]][at + 1 := U16Bytes(Truncate16(p - (at + 2)))[1]]
    ensures WriteOutcome(b0, b3, at, p, Prefixed(inner), true)
  {
    var h := U16Bytes(Truncate16(|inner.bytes|));
    assert Prefixed(inner).bytes == h + inner.bytes;
    var want := b0[..at] + (h + inner.bytes) + b0[p..];
    assert b2 == b0[..at] + (U16Bytes(0) + inner.bytes) + b0[p..];
    forall i | 0 <= i < |b3|
      ensures b3[i] == want[i]
    {
      if i < at {
        assert b3[i] == b2[i] == b0[i];
      } else if i < at + 2 {
        assert want[i] == h[i - at];
      } else {
        assert b3[i] == b2[i];
      }
    }
    assert b3 == want;
  }
}
