/** The 12-byte message header (section 4.1.1 of RFC 1035): the identifier,
    two flag bytes and four section counts. The flag bytes are packed and
    unpacked with the Go code's shifts and masks on 8-bit values. */
module Header {
  import opened Wire
  import opened Common
  import opened PacketBuffer

  datatype DnsHeader = DnsHeader(
    id: u16,
    isResponse: bool,
    opcode: u8,
    authoritativeAnswer: bool,
    truncatedMessage: bool,
    recursionDesired: bool,
    recursionAvailable: bool,
    dnssecAvailable: bool,
    authedData: bool,
    checkingDisabled: bool,
    resultCode: u8,
    questionsCount: u16,
    answersCount: u16,
    authoritiesCount: u16,
    resourcesCount: u16)

  /** The header of a fresh packet: every field zero or false. */
  const EmptyHeader := DnsHeader(0, false, 0, false, false, false, false, false, false, false, 0, 0, 0, 0, 0)

  /** A boolean as a one-bit byte. */
  function BoolBit(b: bool): bv8 {
    if b then 1 else 0
  }

  /** The first flag byte as `Write` packs it: RD in bit 0, TC in bit 1, AA
      in bit 2, the operation code shifted to bit 3 and QR in bit 7, all
      ORed together, so an operation code of 16 or more spills into QR. */
  function FlagsOne(h: DnsHeader): bv8 {
    BoolBit(h.recursionDesired) | (BoolBit(h.truncatedMessage) << 1) | (BoolBit(h.authoritativeAnswer) << 2)
      | (h.opcode << 3) | (BoolBit(h.isResponse) << 7)
  }

  /** The second flag byte as `Write` packs it: the response code ORed with
      CD in bit 4, AD in bit 5, the Z bit (`DNSSECAvailable`) in bit 6 and RA
      in bit 7; a response code of 16 or more spills into those bits. */
  function FlagsTwo(h: DnsHeader): bv8 {
    h.resultCode | (BoolBit(h.checkingDisabled) << 4) | (BoolBit(h.authedData) << 5)
      | (BoolBit(h.dnssecAvailable) << 6) | (BoolBit(h.recursionAvailable) << 7)
  }

  /** `h` with its flag fields replaced by the ones `Read` unpacks from the
      two flag bytes. */
  function WithFlags(h: DnsHeader, one: bv8, two: bv8): DnsHeader {
    h.(isResponse := one >> 7 > 0,
       opcode := (one << 1) >> 4,
       authoritativeAnswer := (one << 5) >> 7 > 0,
       truncatedMessage := (one << 6) >> 7 > 0,
       recursionDesired := (one << 7) >> 7 > 0,
       recursionAvailable := two >> 7 > 0,
       dnssecAvailable := (two << 1) >> 7 > 0,
       authedData := (two << 2) >> 7 > 0,
       checkingDisabled := (two << 3) >> 7 > 0,
       resultCode := (two << 4) >> 4)
  }

  /** Unpacking loses nothing: packing the fields unpacked from any two flag
      bytes gives the same two bytes back. */
  lemma FlagBytesRoundTrip(h: DnsHeader, one: bv8, two: bv8)
    ensures FlagsOne(WithFlags(h, one, two)) == one
    ensures FlagsTwo(WithFlags(h, one, two)) == two
  {
  }

  /** Packing loses nothing while the operation and response codes fit
      their 4-bit fields: the unpacked fields are the packed ones. */
  lemma FlagFieldsRoundTrip(h: DnsHeader)
    requires h.opcode < 16 && h.resultCode < 16
    ensures WithFlags(h, FlagsOne(h), FlagsTwo(h)) == h
  {
  }

  /** Operation code 16 is packed into the QR bit: the header reads back as
      a response with operation code 0. */
  lemma OpcodeSpillsIntoQR(h: DnsHeader)
    requires h.opcode == 16 && !h.isResponse
    ensures WithFlags(h, FlagsOne(h), FlagsTwo(h)).isResponse
    ensures WithFlags(h, FlagsOne(h), FlagsTwo(h)).opcode == 0
  {
  }

  /** The four section counts, in header order. */
  datatype Counts = Counts(questions: u16, answers: u16, authorities: u16, resources: u16)

  function CountsOf(h: DnsHeader): Counts {
    Counts(h.questionsCount, h.answersCount, h.authoritiesCount, h.resourcesCount)
  }

  /** The twelve bytes `Write` emits: identifier, the two flag bytes, then
      the four counts, each 16-bit value big-endian. */
  function HeaderBytes(h: DnsHeader): (r: seq<byte>)
    ensures |r| == 12
  {
    U16Bytes(h.id) + FlagBytes(h) + CountBytes(CountsOf(h))
  }

  function FlagBytes(h: DnsHeader): (r: seq<byte>)
    ensures |r| == 2
  {
    [FlagsOne(h) as int, FlagsTwo(h) as int]
  }

  function CountBytes(c: Counts): (r: seq<byte>)
    ensures |r| == 8
  {
    U16Bytes(c.questions) + U16Bytes(c.answers) + U16Bytes(c.authorities) + U16Bytes(c.resources)
  }

  /** The header `Read` assembles from the identifier, the two flag bytes
      and the counts. */
  function Assemble(id: u16, one: byte, two: byte, c: Counts): DnsHeader {
    var h := DnsHeader(id, false, 0, false, false, false, false, false, false, false, 0,
                       c.questions, c.answers, c.authorities, c.resources);
    WithFlags(h, one as bv8, two as bv8)
  }

  /** The four counts read at `p`. */
  function CountsAt(buf: seq<byte>, p: nat): (r: Got<Counts>)
    requires |buf| == BufferSize && p < BufferSize
    ensures r.next < BufferSize
  {
    var qd := ReadU16(buf, p);
    var an := ReadU16(buf, qd.next);
    var ns := ReadU16(buf, an.next);
    var ar := ReadU16(buf, ns.next);
    Got(Counts(qd.value, an.value, ns.value, ar.value), ar.next)
  }

  /** `Read` with the cursor at `p`: identifier, two flag bytes and four
      counts through the saturating readers; it cannot fail. */
  function HeaderAt(buf: seq<byte>, p: nat): (r: Got<DnsHeader>)
    requires |buf| == BufferSize && p < BufferSize
    ensures r.next < BufferSize
  {
    var id := ReadU16(buf, p);
    var one := ReadU8(buf, id.next);
    var two := ReadU8(buf, one.next);
    var c := CountsAt(buf, two.next);
    Got(Assemble(id.value, one.value, two.value, c.value), c.next)
  }

  lemma CountsConsume(buf: seq<byte>, p: nat)
    requires |buf| == BufferSize && p + 8 < BufferSize
    ensures CountsAt(buf, p).next == p + 8
    ensures CountBytes(CountsAt(buf, p).value) == buf[p..p + 8]
  {
    ReadU16Value(buf, p);
    ReadU16Value(buf, p + 2);
    ReadU16Value(buf, p + 4);
    ReadU16Value(buf, p + 6);
    U16OfBytes(buf[p], buf[p + 1]);
    U16OfBytes(buf[p + 2], buf[p + 3]);
    U16OfBytes(buf[p + 4], buf[p + 5]);
    U16OfBytes(buf[p + 6], buf[p + 7]);
  }

  lemma CountsRoundTrip(buf: seq<byte>, p: nat, c: Counts)
    requires |buf| == BufferSize && p + 8 < BufferSize && buf[p..p + 8] == CountBytes(c)
    ensures CountsAt(buf, p) == Got(c, p + 8)
  {
    var bs := CountBytes(c);
    var q, a, n, r := U16Bytes(c.questions), U16Bytes(c.answers), U16Bytes(c.authorities), U16Bytes(c.resources);
    assert buf[p + 0] == bs[0] == q[0] && buf[p + 1] == bs[1] == q[1];
    assert buf[p + 2] == bs[2] == a[0] && buf[p + 3] == bs[3] == a[1];
    assert buf[p + 4] == bs[4] == n[0] && buf[p + 5] == bs[5] == n[1];
    assert buf[p + 6] == bs[6] == r[0] && buf[p + 7] == bs[7] == r[1];
    assert buf[p..p + 2] == q;
    assert buf[p + 2..p + 4] == a;
    assert buf[p + 4..p + 6] == n;
    assert buf[p + 6..p + 8] == r;
    ReadU16RoundTrip(buf, p, c.questions);
    ReadU16RoundTrip(buf, p + 2, c.answers);
    ReadU16RoundTrip(buf, p + 4, c.authorities);
    ReadU16RoundTrip(buf, p + 6, c.resources);
  }

  /** An 8-bit value survives the trip through a byte and back. */
  lemma BitsByte(v: bv8)
    ensures (v as int) as bv8 == v
  {
  }

  /** Within the buffer `Read` takes the identifier from the first two
      bytes, the flags from the next two and the counts from the last eight. */
  lemma HeaderAtShape(buf: seq<byte>, p: nat)
    requires |buf| == BufferSize && p + 12 < BufferSize
    ensures HeaderAt(buf, p) == Got(Assemble(U16Of(buf[p], buf[p + 1]), buf[p + 2], buf[p + 3], CountsAt(buf, p + 4).value), p + 12)
  {
    ReadU16Value(buf, p);
    CountsConsume(buf, p + 4);
  }

  /** Within the buffer `Read` consumes exactly twelve bytes; writing the
      identifier and counts of the header it returns reproduces their
      bytes, and packing its flags reproduces the two flag bytes. */
  lemma HeaderAtConsumes(buf: seq<byte>, p: nat)
    requires |buf| == BufferSize && p + 12 < BufferSize
    ensures HeaderAt(buf, p).next == p + 12
    ensures U16Bytes(HeaderAt(buf, p).value.id) == buf[p..p + 2]
    ensures FlagsOne(HeaderAt(buf, p).value) == buf[p + 2] as bv8
    ensures FlagsTwo(HeaderAt(buf, p).value) == buf[p + 3] as bv8
    ensures CountBytes(CountsOf(HeaderAt(buf, p).value)) == buf[p + 4..p + 12]
  {
    HeaderAtShape(buf, p);
    U16OfBytes(buf[p], buf[p + 1]);
    CountsConsume(buf, p + 4);
    var c := CountsAt(buf, p + 4).value;
    var base := DnsHeader(U16Of(buf[p], buf[p + 1]), false, 0, false, false, false, false, false, false, false, 0,
                          c.questions, c.answers, c.authorities, c.resources);
    FlagBytesRoundTrip(base, buf[p + 2] as bv8, buf[p + 3] as bv8);
  }

  /** Round trip of `Write` and `Read`: a header whose codes fit their
      fields, written at `p`, reads back unchanged twelve bytes later. */
  lemma HeaderRoundTrip(buf: seq<byte>, p: nat, h: DnsHeader)
    requires |buf| == BufferSize && p + 12 < BufferSize && buf[p..p + 12] == HeaderBytes(h)
    requires h.opcode < 16 && h.resultCode < 16
    ensures HeaderAt(buf, p) == Got(h, p + 12)
  {
    var bs := HeaderBytes(h);
    var id, counts := U16Bytes(h.id), CountBytes(CountsOf(h));
    assert buf[p] == bs[0] == id[0] && buf[p + 1] == bs[1] == id[1];
    assert buf[p..p + 2] == id;
    assert buf[p + 4..p + 12] == bs[4..] == counts;
    assert buf[p + 2] == bs[2] == FlagsOne(h) as int && buf[p + 3] == bs[3] == FlagsTwo(h) as int;
    ReadU16RoundTrip(buf, p, h.id);
    CountsRoundTrip(buf, p + 4, CountsOf(h));
    BitsByte(FlagsOne(h));
    BitsByte(FlagsTwo(h));
    FlagFieldsRoundTrip(h);
  }

  /** `DnsHeader.Read`: the fields come from the twelve bytes at the cursor. */
  method ReadHeader(b: BytePacketBuffer) returns (h: DnsHeader)
    requires b.Valid()
    modifies b`pos
    ensures b.Valid() && Got(h, b.pos) == HeaderAt(b.buffer[..], old(b.pos))
  {
    var id := b.ReadUint16();
    var one := b.ReadByte();
    var two := b.ReadByte();
    var c := ReadCounts(b);
    h := Assemble(id, one, two, c);
  }

  method ReadCounts(b: BytePacketBuffer) returns (c: Counts)
    requires b.Valid()
    modifies b`pos
    ensures b.Valid() && Got(c, b.pos) == CountsAt(b.buffer[..], old(b.pos))
  {
    var qd := b.ReadUint16();
    var an := b.ReadUint16();
    var ns := b.ReadUint16();
    var ar := b.ReadUint16();
    c := Counts(qd, an, ns, ar);
  }

  /** `DnsHeader.Write`: the twelve header bytes at the cursor. It succeeds
      exactly when the cursor starts at 499 or before, since the last byte
      of the buffer is never written. */
  method WriteHeader(b: BytePacketBuffer, h: DnsHeader) returns (o: Outcome)
    requires b.Valid()
    modifies b`pos, b.buffer
    ensures b.Valid()
    ensures WriteOutcome(old(b.buffer[..]), b.buffer[..], old(b.pos), b.pos, Emit(HeaderBytes(h)), o.Pass?)
    ensures o.Pass? <==> old(b.pos) <= BufferSize - 13
  {
    ghost var whole := Emit(HeaderBytes(h));
    ghost var b0, s := b.buffer[..], b.pos;
    o := b.WriteUint16(h.id);
    if o.Fail? {
      WriteFail(b0, b.buffer[..], s, b.pos, Emit(U16Bytes(h.id)), whole);
      return;
    }
    ghost var b1, p1 := b.buffer[..], b.pos;
    o := WriteFlags(b, h);
    WriteThen(b0, b1, b.buffer[..], s, p1, b.pos, Emit(U16Bytes(h.id)), Emit(FlagBytes(h)), o.Pass?);
    ghost var done := U16Bytes(h.id) + FlagBytes(h);
    if o.Fail? {
      WriteFail(b0, b.buffer[..], s, b.pos, Emit(done), whole);
      return;
    }
    ghost var b2, p2 := b.buffer[..], b.pos;
    o := WriteCounts(b, CountsOf(h));
    WriteThen(b0, b2, b.buffer[..], s, p2, b.pos, Emit(done), Emit(CountBytes(CountsOf(h))), o.Pass?);
  }

  /** The two flag bytes of `DnsHeader.Write`. */
  method WriteFlags(b: BytePacketBuffer, h: DnsHeader) returns (o: Outcome)
    requires b.Valid()
    modifies b`pos, b.buffer
    ensures b.Valid()
    ensures WriteOutcome(old(b.buffer[..]), b.buffer[..], old(b.pos), b.pos, Emit(FlagBytes(h)), o.Pass?)
  {
    var one, two := FlagsOne(h) as int, FlagsTwo(h) as int;
    assert FlagBytes(h) == [one, two];
    ghost var b0, s := b.buffer[..], b.pos;
    o := b.WriteByte(one);
    if o.Fail? {
      WriteFail(b0, b.buffer[..], s, b.pos, Emit([one]), Emit([one, two]));
      return;
    }
    ghost var b1, p1 := b.buffer[..], b.pos;
    o := b.WriteByte(two);
    WriteThen(b0, b1, b.buffer[..], s, p1, b.pos, Emit([one]), Emit([two]), o.Pass?);
    assert [one] + [two] == [one, two];
  }

  /** The four section counts of `DnsHeader.Write`, in order. */
  method WriteCounts(b: BytePacketBuffer, c: Counts) returns (o: Outcome)
    requires b.Valid()
    modifies b`pos, b.buffer
    ensures b.Valid()
    ensures WriteOutcome(old(b.buffer[..]), b.buffer[..], old(b.pos), b.pos, Emit(CountBytes(c)), o.Pass?)
  {
    ghost var whole := Emit(CountBytes(c));
    ghost var b0, s := b.buffer[..], b.pos;
    o := b.WriteUint16(c.questions);
    ghost var done := U16Bytes(c.questions);
    if o.Fail? {
      WriteFail(b0, b.buffer[..], s, b.pos, Emit(done), whole);
      return;
    }
    ghost var b1, p1 := b.buffer[..], b.pos;
    o := b.WriteUint16(c.answers);
    WriteThen(b0, b1, b.buffer[..], s, p1, b.pos, Emit(done), Emit(U16Bytes(c.answers)), o.Pass?);
    done := done + U16Bytes(c.answers);
    if o.Fail? {
      WriteFail(b0, b.buffer[..], s, b.pos, Emit(done), whole);
      return;
    }
    ghost var b2, p2 := b.buffer[..], b.pos;
    o := b.WriteUint16(c.authorities);
    WriteThen(b0, b2, b.buffer[..], s, p2, b.pos, Emit(done), Emit(U16Bytes(c.authorities)), o.Pass?);
    done := done + U16Bytes(c.authorities);
    if o.Fail? {
      WriteFail(b0, b.buffer[..], s, b.pos, Emit(done), whole);
      return;
    }
    ghost var b3, p3 := b.buffer[..], b.pos;
    o := b.WriteUint16(c.resources);
    WriteThen(b0, b3, b.buffer[..], s, p3, b.pos, Emit(done), Emit(U16Bytes(c.resources)), o.Pass?);
  }
}
