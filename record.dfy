/** Resource records: the common preamble (owner name, type, class, TTL and
    data length, section 4.1.3 of RFC 1035), the record variants the codec
    knows (A, AAAA, NS, CNAME, MX, SOA) and the opaque fallback that keeps the
    raw data of any other type. */
module Record {
  import opened Wire
  import opened Names
  import opened Common
  import opened PacketBuffer
  import opened Ip

  /** The fields of `AbstractDnsRecord` that every record shares. */
  datatype Preamble = Preamble(name: Name, queryType: u16, rclass: u16, ttl: u32, dataLength: u16)

  /** What follows the preamble, one constructor per Go record type; the
      opaque fallback is `AbstractDnsRecord` itself with its raw `data`. */
  datatype RecordData =
    | AData(ipv4: IPv4)
    | AaaaData(ipv6: IPv6)
    | NsData(host: Name)
    | CnameData(host: Name)
    | MxData(priority: u16, host: Name)
    | SoaData(mName: Name, rName: Name, serial: u32, refresh: u32, retry: u32, expire: u32, minimum: u32)
    | OpaqueData(bytes: seq<byte>)

  datatype DnsRecord = DnsRecord(preamble: Preamble, data: RecordData)

  /** `NewAbstractRecord`: the Internet class, every other field zero or
      empty. */
  function NewAbstractRecord(): (r: DnsRecord)
    ensures r.preamble.rclass == IN && r.data == OpaqueData([])
    ensures r.preamble.name == [] && r.preamble.queryType == 0 && r.preamble.ttl == 0 && r.preamble.dataLength == 0
  {
    DnsRecord(Preamble([], 0, IN, 0, 0), OpaqueData([]))
  }

  /** The variant `ReadDnsRecord` picks for a type: the six known types
      have their own, every other type the opaque fallback; an address read
      for type A has four bytes. */
  predicate VariantOf(t: u16, d: RecordData) {
    if t == A then d.AData? && |d.ipv4.octets| == 4
    else if t == NS then d.NsData?
    else if t == CNAME then d.CnameData?
    else if t == SOA then d.SoaData?
    else if t == MX then d.MxData?
    else if t == AAAA then d.AaaaData?
    else d.OpaqueData?
  }

  // Reading.

  /** `ReadPreamble` with the cursor at `p`: name, type, class, TTL and data
      length. Only the name can fail. */
  function PreambleAt(buf: seq<byte>, p: nat): (r: Decoded<Preamble>)
    requires |buf| == BufferSize && p < BufferSize
    ensures r.next < BufferSize
  {
    var name := ReadName(buf, p);
    if name.result.Err? then Decoded(Err(name.result.error), name.next)
    else
      var t := ReadU16(buf, name.next);
      var c := ReadU16(buf, t.next);
      var ttl := ReadU32(buf, c.next);
      var len := ReadU16(buf, ttl.next);
      Decoded(Ok(Preamble(name.result.value, t.value, c.value, ttl.value, len.value)), len.next)
  }

  /** A name read as a record's whole data. */
  function HostAt(buf: seq<byte>, p: nat, cname: bool): (r: Decoded<RecordData>)
    requires |buf| == BufferSize && p < BufferSize
    ensures r.next < BufferSize
  {
    var h := ReadName(buf, p);
    if h.result.Err? then Decoded(Err(h.result.error), h.next)
    else if cname then Decoded(Ok(CnameData(h.result.value)), h.next)
    else Decoded(Ok(NsData(h.result.value)), h.next)
  }

  /** `MX.ReadData`: the priority, then the exchange name. */
  function MxAt(buf: seq<byte>, p: nat): (r: Decoded<RecordData>)
    requires |buf| == BufferSize && p < BufferSize
    ensures r.next < BufferSize
  {
    var priority := ReadU16(buf, p);
    var h := ReadName(buf, priority.next);
    if h.result.Err? then Decoded(Err(h.result.error), h.next)
    else Decoded(Ok(MxData(priority.value, h.result.value)), h.next)
  }

  /** `SOA.ReadData`: two names, then five 32-bit numbers. */
  function SoaAt(buf: seq<byte>, p: nat): (r: Decoded<RecordData>)
    requires |buf| == BufferSize && p < BufferSize
    ensures r.next < BufferSize
  {
    var m := ReadName(buf, p);
    if m.result.Err? then Decoded(Err(m.result.error), m.next)
    else
      var rn := ReadName(buf, m.next);
      if rn.result.Err? then Decoded(Err(rn.result.error), rn.next)
      else
        var serial := ReadU32(buf, rn.next);
        var refresh := ReadU32(buf, serial.next);
        var retry := ReadU32(buf, refresh.next);
        var expire := ReadU32(buf, retry.next);
        var minimum := ReadU32(buf, expire.next);
        Decoded(Ok(SoaData(m.result.value, rn.result.value, serial.value, refresh.value,
                           retry.value, expire.value, minimum.value)), minimum.next)
  }

  /** `ReadData` of the variant chosen for `pre.queryType`, with the cursor
      at `p`. A and AAAA check the declared length first and then read that
      many bytes; NS, CNAME, MX and SOA read their fields whatever the
      declared length; any other type reads the declared number of raw
      bytes. */
  function DataAt(buf: seq<byte>, p: nat, pre: Preamble): (r: Decoded<RecordData>)
    requires |buf| == BufferSize && p < BufferSize
    ensures r.next < BufferSize
  {
    var t := pre.queryType;
    if t == A then
      if pre.dataLength != 4 then Decoded(Err(InvalidDataLength(A)), p)
      else
        var bs := ReadBytes(buf, p, pre.dataLength);
        Decoded(Ok(AData(NewIPv4(bs.value).value)), bs.next)
    else if t == NS then HostAt(buf, p, false)
    else if t == CNAME then HostAt(buf, p, true)
    else if t == SOA then SoaAt(buf, p)
    else if t == MX then MxAt(buf, p)
    else if t == AAAA then
      if pre.dataLength != 16 then Decoded(Err(InvalidDataLength(AAAA)), p)
      else
        var bs := ReadBytes(buf, p, pre.dataLength);
        Decoded(Ok(AaaaData(NewIPv6(bs.value).value)), bs.next)
    else
      var bs := ReadBytes(buf, p, pre.dataLength);
      Decoded(Ok(OpaqueData(bs.value)), bs.next)
  }

  /** `ReadDnsRecord` with the cursor at `p`: the preamble, then the data of
      the variant its type selects; either error is returned as is. */
  function RecordAt(buf: seq<byte>, p: nat): (r: Decoded<DnsRecord>)
    requires |buf| == BufferSize && p < BufferSize
    ensures r.next < BufferSize
  {
    var pre := PreambleAt(buf, p);
    if pre.result.Err? then Decoded(Err(pre.result.error), pre.next)
    else
      var d := DataAt(buf, pre.next, pre.result.value);
      if d.result.Err? then Decoded(Err(d.result.error), d.next)
      else Decoded(Ok(DnsRecord(pre.result.value, d.result.value)), d.next)
  }

  // Writing.

  /** What `WritePreamble` emits: name, type, class and TTL; the data length
      is left to `WriteData`. */
  function PreambleEmission(pre: Preamble): Emission {
    Then(EncodeName(pre.name), Emit(FixedFields(pre)))
  }

  /** What `WriteData` can write without a Go panic: four address bytes for
      A, sixteen for AAAA, and no fewer raw bytes than the declared length
      for the fallback. */
  predicate Writable(pre: Preamble, d: RecordData) {
    match d
    case AData(ip) => |ip.octets| == 4
    case AaaaData(ip) => |ip.data| == 16
    case OpaqueData(bs) => pre.dataLength <= |bs|
    case _ => true
  }

  /** What each variant's `WriteData` emits: A and AAAA a fixed length and
      the address, NS, CNAME, MX and SOA their fields behind the measured
      length `PrependDataLength` patches in, and the fallback the length of
      its raw data followed by the declared number of those bytes. */
  function DataEmissionOf(pre: Preamble, d: RecordData): Emission
    requires Writable(pre, d)
  {
    match d
    case AData(ip) => Emit(U16Bytes(4) + ip.octets)
    case AaaaData(ip) => Emit(U16Bytes(16) + ip.data)
    case NsData(host) => Prefixed(DataEmission(HostWriter(host)))
    case CnameData(host) => Prefixed(DataEmission(HostWriter(host)))
    case MxData(priority, host) => Prefixed(DataEmission(MxWriter(priority, host)))
    case SoaData(m, rn, serial, refresh, retry, expire, minimum) =>
      Prefixed(DataEmission(SoaWriter(m, rn, serial, refresh, retry, expire, minimum)))
    case OpaqueData(bs) => Emit(U16Bytes(Truncate16(|bs|)) + bs[..pre.dataLength])
  }

  /** A record as the packet writer emits it: preamble, then data. */
  function RecordEmission(r: DnsRecord): Emission
    requires Writable(r.preamble, r.data)
  {
    Then(PreambleEmission(r.preamble), DataEmissionOf(r.preamble, r.data))
  }

  // The readers.

  /** `AbstractDnsRecord.ReadPreamble`. */
  method ReadPreamble(b: BytePacketBuffer) returns (r: Result<Preamble>)
    requires b.Valid()
    modifies b`pos
    ensures b.Valid() && Decoded(r, b.pos) == PreambleAt(b.buffer[..], old(b.pos))
  {
    var name := b.ReadLabel();
    if name.Err? {
      return Err(name.error);
    }
    var queryType := b.ReadUint16();
    var rclass := b.ReadUint16();
    var ttl := b.ReadUint32();
    var dataLength := b.ReadUint16();
    r := Ok(Preamble(name.value, queryType, rclass, ttl, dataLength));
  }

  /** `A.ReadData`: the length check, then the byte loop, then `NewIPv4`,
      which cannot fail on the four bytes read. */
  method ReadAData(b: BytePacketBuffer, pre: Preamble) returns (r: Result<RecordData>)
    requires b.Valid() && pre.queryType == A
    modifies b`pos
    ensures b.Valid() && Decoded(r, b.pos) == DataAt(b.buffer[..], old(b.pos), pre)
  {
    if pre.dataLength != 4 {
      return Err(InvalidDataLength(A));
    }
    var data := b.ReadBytesAhead(pre.dataLength);
    var ip := NewIPv4(data);
    r := Ok(AData(ip.value));
  }

  /** `AAAA.ReadData`: as for A, with sixteen bytes and `NewIPv6`. */
  method ReadAaaaData(b: BytePacketBuffer, pre: Preamble) returns (r: Result<RecordData>)
    requires b.Valid() && pre.queryType == AAAA
    modifies b`pos
    ensures b.Valid() && Decoded(r, b.pos) == DataAt(b.buffer[..], old(b.pos), pre)
  {
    if pre.dataLength != 16 {
      return Err(InvalidDataLength(AAAA));
    }
    r := ReadIPv6(b, pre);
  }

  /** The byte loop of `AAAA.ReadData` and `NewIPv6`, which cannot fail on
      the sixteen bytes read. */
  method ReadIPv6(b: BytePacketBuffer, pre: Preamble) returns (r: Result<RecordData>)
    requires b.Valid() && pre.queryType == AAAA && pre.dataLength == 16
    modifies b`pos
    ensures b.Valid() && Decoded(r, b.pos) == DataAt(b.buffer[..], old(b.pos), pre)
  {
    AaaaDataAt(b.buffer[..], b.pos, pre);
    var data := b.ReadBytesAhead(pre.dataLength);
    var ip := NewIPv6(data);
    r := Ok(AaaaData(ip.value));
  }

  /** The AAAA branch of `DataAt`. */
  lemma AaaaDataAt(buf: seq<byte>, p: nat, pre: Preamble)
    requires |buf| == BufferSize && p < BufferSize && pre.queryType == AAAA && pre.dataLength == 16
    ensures DataAt(buf, p, pre) == Decoded(Ok(AaaaData(NewIPv6(ReadBytes(buf, p, 16).value).value)), ReadBytes(buf, p, 16).next)
  {
  }

  /** `NS.ReadData` (and `CNAME.ReadData` when `cname`): one name. */
  method ReadHostData(b: BytePacketBuffer, cname: bool) returns (r: Result<RecordData>)
    requires b.Valid()
    modifies b`pos
    ensures b.Valid() && Decoded(r, b.pos) == HostAt(b.buffer[..], old(b.pos), cname)
  {
    var host := b.ReadLabel();
    if host.Err? {
      return Err(host.error);
    }
    r := if cname then Ok(CnameData(host.value)) else Ok(NsData(host.value));
  }

  /** `MX.ReadData`. */
  method ReadMxData(b: BytePacketBuffer) returns (r: Result<RecordData>)
    requires b.Valid()
    modifies b`pos
    ensures b.Valid() && Decoded(r, b.pos) == MxAt(b.buffer[..], old(b.pos))
  {
    var priority := b.ReadUint16();
    var host := b.ReadLabel();
    if host.Err? {
      return Err(host.error);
    }
    r := Ok(MxData(priority, host.value));
  }

  /** `SOA.ReadData`. */
  method ReadSoaData(b: BytePacketBuffer) returns (r: Result<RecordData>)
    requires b.Valid()
    modifies b`pos
    ensures b.Valid() && Decoded(r, b.pos) == SoaAt(b.buffer[..], old(b.pos))
  {
    var m := b.ReadLabel();
    if m.Err? {
      return Err(m.error);
    }
    var rn := b.ReadLabel();
    if rn.Err? {
      return Err(rn.error);
    }
    var serial := b.ReadUint32();
    var refresh := b.ReadUint32();
    var retry := b.ReadUint32();
    var expire := b.ReadUint32();
    var minimum := b.ReadUint32();
    r := Ok(SoaData(m.value, rn.value, serial, refresh, retry, expire, minimum));
  }

  /** `AbstractDnsRecord.ReadData`: the declared number of raw bytes. */
  method ReadOpaqueData(b: BytePacketBuffer, pre: Preamble) returns (r: Result<RecordData>)
    requires b.Valid() && !KnownQueryType(pre.queryType)
    modifies b`pos
    ensures b.Valid() && Decoded(r, b.pos) == DataAt(b.buffer[..], old(b.pos), pre)
  {
    var data := b.ReadBytesAhead(pre.dataLength);
    r := Ok(OpaqueData(data));
  }

  /** The type switch of `ReadDnsRecord` followed by the chosen `ReadData`. */
  method ReadRecordData(b: BytePacketBuffer, pre: Preamble) returns (r: Result<RecordData>)
    requires b.Valid()
    modifies b`pos
    ensures b.Valid() && Decoded(r, b.pos) == DataAt(b.buffer[..], old(b.pos), pre)
  {
    var t := pre.queryType;
    if t == A {
      r := ReadAData(b, pre);
    } else if t == NS {
      r := ReadHostData(b, false);
    } else if t == CNAME {
      r := ReadHostData(b, true);
    } else if t == SOA {
      r := ReadSoaData(b);
    } else if t == MX {
      r := ReadMxData(b);
    } else if t == AAAA {
      r := ReadAaaaData(b, pre);
    } else {
      r := ReadOpaqueData(b, pre);
    }
  }

  /** `ReadDnsRecord`: no record on either error. */
  method ReadDnsRecord(b: BytePacketBuffer) returns (r: Result<DnsRecord>)
    requires b.Valid()
    modifies b`pos
    ensures b.Valid() && Decoded(r, b.pos) == RecordAt(b.buffer[..], old(b.pos))
  {
    var pre := ReadPreamble(b);
    if pre.Err? {
      return Err(pre.error);
    }
    var data := ReadRecordData(b, pre.value);
    if data.Err? {
      return Err(data.error);
    }
    r := Ok(DnsRecord(pre.value, data.value));
  }

  // The writers.

  /** `AbstractDnsRecord.WritePreamble`: stops at the first error. */
  method WritePreamble(b: BytePacketBuffer, pre: Preamble) returns (o: Outcome)
    requires b.Valid()
    modifies b`pos, b.buffer
    ensures b.Valid()
    ensures WriteOutcome(old(b.buffer[..]), b.buffer[..], old(b.pos), b.pos, PreambleEmission(pre), o.Pass?)
  {
    ghost var b0, s := b.buffer[..], b.pos;
    o := b.WriteLabel(pre.name);
    if o.Fail? {
      return;
    }
    ghost var b1, p1 := b.buffer[..], b.pos;
    o := WriteFixedFields(b, pre);
    WriteThen(b0, b1, b.buffer[..], s, p1, b.pos, EncodeName(pre.name), Emit(FixedFields(pre)), o.Pass?);
  }

  /** Type, class and TTL, big-endian. */
  function FixedFields(pre: Preamble): seq<byte> {
    U16Bytes(pre.queryType) + U16Bytes(pre.rclass) + U32Bytes(pre.ttl)
  }

  /** The type, class and TTL writes of `WritePreamble`. */
  method WriteFixedFields(b: BytePacketBuffer, pre: Preamble) returns (o: Outcome)
    requires b.Valid()
    modifies b`pos, b.buffer
    ensures b.Valid()
    ensures WriteOutcome(old(b.buffer[..]), b.buffer[..], old(b.pos), b.pos, Emit(FixedFields(pre)), o.Pass?)
  {
    ghost var b0, s := b.buffer[..], b.pos;
    ghost var whole := Emit(FixedFields(pre));
    o := b.WriteUint16(pre.queryType);
    ghost var done := U16Bytes(pre.queryType);
    if o.Fail? {
      WriteFail(b0, b.buffer[..], s, b.pos, Emit(done), whole);
      return;
    }
    ghost var b1, p1 := b.buffer[..], b.pos;
    o := b.WriteUint16(pre.rclass);
    WriteThen(b0, b1, b.buffer[..], s, p1, b.pos, Emit(done), Emit(U16Bytes(pre.rclass)), o.Pass?);
    done := done + U16Bytes(pre.rclass);
    if o.Fail? {
      WriteFail(b0, b.buffer[..], s, b.pos, Emit(done), whole);
      return;
    }
    ghost var b2, p2 := b.buffer[..], b.pos;
    o := b.WriteUint32(pre.ttl);
    WriteThen(b0, b2, b.buffer[..], s, p2, b.pos, Emit(done), Emit(U32Bytes(pre.ttl)), o.Pass?);
  }

  /** The byte loops of `A.WriteData`, `AAAA.WriteData` and
      `AbstractDnsRecord.WriteData`: `WriteByte` of `bs[i]` for each `i`
      below `n`, stopping at the first error. */
  method WriteEach(b: BytePacketBuffer, bs: seq<byte>, n: nat) returns (o: Outcome)
    requires b.Valid() && n <= |bs|
    modifies b`pos, b.buffer
    ensures b.Valid()
    ensures WriteOutcome(old(b.buffer[..]), b.buffer[..], old(b.pos), b.pos, Emit(bs[..n]), o.Pass?)
  {
    ghost var b0, s := b.buffer[..], b.pos;
    o := Pass;
    var i := 0;
    while i < n
      invariant b.Valid() && 0 <= i <= n && o == Pass
      invariant WriteOutcome(b0, b.buffer[..], s, b.pos, Emit(bs[..i]), true)
    {
      ghost var b1, p1 := b.buffer[..], b.pos;
      o := b.WriteByte(bs[i]);
      WriteThen(b0, b1, b.buffer[..], s, p1, b.pos, Emit(bs[..i]), Emit([bs[i]]), o.Pass?);
      assert bs[..i] + [bs[i]] == bs[..i + 1];
      if o.Fail? {
        WriteFail(b0, b.buffer[..], s, b.pos, Emit(bs[..i + 1]), Emit(bs[..n]));
        return;
      }
      i := i + 1;
    }
  }

  /** A 16-bit length followed by the first `n` bytes of `bs`: the shape of
      the A, AAAA and fallback `WriteData`. */
  method WriteLengthAndBytes(b: BytePacketBuffer, len: u16, bs: seq<byte>, n: nat) returns (o: Outcome)
    requires b.Valid() && n <= |bs|
    modifies b`pos, b.buffer
    ensures b.Valid()
    ensures WriteOutcome(old(b.buffer[..]), b.buffer[..], old(b.pos), b.pos, Emit(U16Bytes(len) + bs[..n]), o.Pass?)
  {
    ghost var b0, s := b.buffer[..], b.pos;
    o := b.WriteUint16(len);
    if o.Fail? {
      WriteFail(b0, b.buffer[..], s, b.pos, Emit(U16Bytes(len)), Emit(U16Bytes(len) + bs[..n]));
      return;
    }
    ghost var b1, p1 := b.buffer[..], b.pos;
    o := WriteEach(b, bs, n);
    WriteThen(b0, b1, b.buffer[..], s, p1, b.pos, Emit(U16Bytes(len)), Emit(bs[..n]), o.Pass?);
  }

  /** `WriteData` of each variant. */
  method WriteRecordData(b: BytePacketBuffer, pre: Preamble, d: RecordData) returns (o: Outcome)
    requires b.Valid() && Writable(pre, d)
    modifies b`pos, b.buffer
    ensures b.Valid()
    ensures WriteOutcome(old(b.buffer[..]), b.buffer[..], old(b.pos), b.pos, DataEmissionOf(pre, d), o.Pass?)
  {
    match d
    case AData(ip) =>
      o := WriteLengthAndBytes(b, 4, ip.octets, 4);
      assert ip.octets[..4] == ip.octets;
    case AaaaData(ip) =>
      o := WriteLengthAndBytes(b, 16, ip.data, 16);
      assert ip.data[..16] == ip.data;
    case NsData(host) =>
      o := b.PrependDataLength(HostWriter(host));
    case CnameData(host) =>
      o := b.PrependDataLength(HostWriter(host));
    case MxData(priority, host) =>
      o := b.PrependDataLength(MxWriter(priority, host));
    case SoaData(m, rn, serial, refresh, retry, expire, minimum) =>
      o := b.PrependDataLength(SoaWriter(m, rn, serial, refresh, retry, expire, minimum));
    case OpaqueData(bs) =>
      o := WriteLengthAndBytes(b, Truncate16(|bs|), bs, pre.dataLength);
  }

  /** One record as `DnsPacket.Write` emits it: `WritePreamble`, then
      `WriteData`. */
  method WriteRecord(b: BytePacketBuffer, r: DnsRecord) returns (o: Outcome)
    requires b.Valid() && Writable(r.preamble, r.data)
    modifies b`pos, b.buffer
    ensures b.Valid()
    ensures WriteOutcome(old(b.buffer[..]), b.buffer[..], old(b.pos), b.pos, RecordEmission(r), o.Pass?)
  {
    ghost var b0, s := b.buffer[..], b.pos;
    o := WritePreamble(b, r.preamble);
    if o.Fail? {
      WriteFail(b0, b.buffer[..], s, b.pos, PreambleEmission(r.preamble), RecordEmission(r));
      return;
    }
    ghost var b1, p1 := b.buffer[..], b.pos;
    o := WriteRecordData(b, r.preamble, r.data);
    WriteThen(b0, b1, b.buffer[..], s, p1, b.pos, PreambleEmission(r.preamble), DataEmissionOf(r.preamble, r.data), o.Pass?);
  }

  // Properties of the readers.

  /** The data read back has the variant the record type selects. */
  lemma DataAtVariant(buf: seq<byte>, p: nat, pre: Preamble)
    requires |buf| == BufferSize && p < BufferSize
    ensures DataAt(buf, p, pre).result.Ok? ==> VariantOf(pre.queryType, DataAt(buf, p, pre).result.value)
  {
  }

  /** `A.ReadData` fails exactly when the declared length is not 4, and then
      before consuming any byte; otherwise the address is the next four
      bytes, in order. */
  lemma ALengthCheck(buf: seq<byte>, p: nat, pre: Preamble)
    requires |buf| == BufferSize && p < BufferSize && pre.queryType == A
    ensures DataAt(buf, p, pre).result.Err? <==> pre.dataLength != 4
    ensures pre.dataLength != 4 ==> DataAt(buf, p, pre) == Decoded(Err(InvalidDataLength(A)), p)
    ensures pre.dataLength == 4 && p + 4 < BufferSize ==> DataAt(buf, p, pre) == Decoded(Ok(AData(IPv4(buf[p..p + 4]))), p + 4)
  {
  }

  /** `AAAA.ReadData` fails exactly when the declared length is not 16, and
      then before consuming any byte; otherwise the address is the next
      sixteen bytes, in order. */
  lemma AaaaLengthCheck(buf: seq<byte>, p: nat, pre: Preamble)
    requires |buf| == BufferSize && p < BufferSize && pre.queryType == AAAA
    ensures DataAt(buf, p, pre).result.Err? <==> pre.dataLength != 16
    ensures pre.dataLength != 16 ==> DataAt(buf, p, pre) == Decoded(Err(InvalidDataLength(AAAA)), p)
    ensures pre.dataLength == 16 && p + 16 < BufferSize ==> DataAt(buf, p, pre) == Decoded(Ok(AaaaData(IPv6(buf[p..p + 16]))), p + 16)
  {
  }

  /** NS, CNAME, MX and SOA data is read the same whatever length the
      preamble declares. */
  lemma DeclaredLengthIgnored(buf: seq<byte>, p: nat, pre: Preamble, n: u16)
    requires |buf| == BufferSize && p < BufferSize
    requires pre.queryType == NS || pre.queryType == CNAME || pre.queryType == MX || pre.queryType == SOA
    ensures DataAt(buf, p, pre) == DataAt(buf, p, pre.(dataLength := n))
  {
  }

  /** A record of any other type keeps exactly the declared number of raw
      bytes, and writing it back emits that length and those bytes. */
  lemma OpaqueKeepsBytes(buf: seq<byte>, p: nat, pre: Preamble)
    requires |buf| == BufferSize && !KnownQueryType(pre.queryType) && p + pre.dataLength < BufferSize
    ensures DataAt(buf, p, pre) == Decoded(Ok(OpaqueData(buf[p..p + pre.dataLength])), p + pre.dataLength)
    ensures DataEmissionOf(pre, OpaqueData(buf[p..p + pre.dataLength])) == Emit(U16Bytes(pre.dataLength) + buf[p..p + pre.dataLength])
  {
    var bs := buf[p..p + pre.dataLength];
    assert bs[..pre.dataLength] == bs;
  }

  /** `ReadDnsRecord` returns the preamble fields exactly as read, and a
      preamble error is returned without reading any data. */
  lemma RecordCarriesPreamble(buf: seq<byte>, p: nat)
    requires |buf| == BufferSize && p < BufferSize
    ensures PreambleAt(buf, p).result.Err? ==> RecordAt(buf, p) == Decoded(Err(PreambleAt(buf, p).result.error), PreambleAt(buf, p).next)
    ensures RecordAt(buf, p).result.Ok? ==> RecordAt(buf, p).result.value.preamble == PreambleAt(buf, p).result.value
    ensures RecordAt(buf, p).result.Ok? ==> VariantOf(RecordAt(buf, p).result.value.preamble.queryType, RecordAt(buf, p).result.value.data)
  {
    if PreambleAt(buf, p).result.Ok? {
      DataAtVariant(buf, PreambleAt(buf, p).next, PreambleAt(buf, p).result.value);
    }
  }

  // Properties of the writers.

  /** The names a record's data holds all have labels of 1 to 63 bytes. */
  predicate NamesValid(d: RecordData) {
    match d
    case NsData(host) => ValidName(host)
    case CnameData(host) => ValidName(host)
    case MxData(_, host) => ValidName(host)
    case SoaData(m, rn, _, _, _, _, _) => ValidName(m) && ValidName(rn)
    case _ => true
  }

  /** The bytes `WriteData` emits after its 2-byte length field. */
  function Payload(pre: Preamble, d: RecordData): seq<byte>
    requires Writable(pre, d)
  {
    match d
    case AData(ip) => ip.octets
    case AaaaData(ip) => ip.data
    case NsData(host) => EncodeName(host).bytes
    case CnameData(host) => EncodeName(host).bytes
    case MxData(priority, host) => U16Bytes(priority) + EncodeName(host).bytes
    case SoaData(m, rn, serial, refresh, retry, expire, minimum) =>
      EncodeName(m).bytes + EncodeName(rn).bytes + SoaNumbers(serial, refresh, retry, expire, minimum)
    case OpaqueData(bs) => bs[..pre.dataLength]
  }

  /** For the six known variants the length field `WriteData` emits is the
      exact number of data bytes that follow it: 4 for A, 16 for AAAA, and
      the measured size `PrependDataLength` patches in for NS, CNAME, MX
      (2 + the encoded host) and SOA (both encoded names + 20). */
  lemma LengthFieldIsExact(pre: Preamble, d: RecordData)
    requires Writable(pre, d) && NamesValid(d) && !d.OpaqueData?
    requires |Payload(pre, d)| < 0x1_0000
    ensures DataEmissionOf(pre, d) == Emit(U16Bytes(|Payload(pre, d)|) + Payload(pre, d))
  {
    match d
    case AData(_) =>
    case AaaaData(_) =>
    case NsData(host) => ValidNameEncodes(host);
    case CnameData(host) => ValidNameEncodes(host);
    case MxData(_, host) => ValidNameEncodes(host);
    case SoaData(m, rn, _, _, _, _, _) =>
      ValidNameEncodes(m);
      ValidNameEncodes(rn);
  }

  /** The fallback's length field counts all of its raw bytes, but only the
      declared number of them follow: the two differ whenever fewer bytes are
      declared than held. */
  lemma OpaqueLengthField(pre: Preamble, bs: seq<byte>)
    requires pre.dataLength <= |bs| < 0x1_0000
    ensures DataEmissionOf(pre, OpaqueData(bs)) == Emit(U16Bytes(|bs|) + bs[..pre.dataLength])
    ensures pre.dataLength < |bs| ==> |bs| != |Payload(pre, OpaqueData(bs))|
  {
  }

  // Round trips.

  /** The type, class, TTL and data length written at `m` read back. */
  lemma FixedFieldsAt(buf: seq<byte>, m: nat, pre: Preamble)
    requires |buf| == BufferSize && m + 10 < BufferSize
    requires buf[m..m + 10] == FixedFields(pre) + U16Bytes(pre.dataLength)
    ensures ReadU16(buf, m) == Got(pre.queryType, m + 2)
    ensures ReadU16(buf, m + 2) == Got(pre.rclass, m + 4)
    ensures ReadU32(buf, m + 4) == Got(pre.ttl, m + 8)
    ensures ReadU16(buf, m + 8) == Got(pre.dataLength, m + 10)
  {
    var e := FixedFields(pre) + U16Bytes(pre.dataLength);
    SliceAt(buf, m, e, 0, 2);
    SliceAt(buf, m, e, 2, 4);
    SliceAt(buf, m, e, 4, 8);
    SliceAt(buf, m, e, 8, 10);
    assert e[..2] == U16Bytes(pre.queryType) && e[2..4] == U16Bytes(pre.rclass);
    assert e[4..8] == U32Bytes(pre.ttl) && e[8..10] == U16Bytes(pre.dataLength);
    ReadU16RoundTrip(buf, m, pre.queryType);
    ReadU16RoundTrip(buf, m + 2, pre.rclass);
    ReadU32RoundTrip(buf, m + 4, pre.ttl);
    ReadU16RoundTrip(buf, m + 8, pre.dataLength);
  }

  /** A preamble written by `WritePreamble` and followed by the length field
      `WriteData` starts with reads back unchanged. */
  lemma PreambleRoundTrip(buf: seq<byte>, p: nat, pre: Preamble)
    requires |buf| == BufferSize && ValidName(pre.name)
    requires p + |PreambleEmission(pre).bytes| + 2 < BufferSize
    requires buf[p..p + |PreambleEmission(pre).bytes| + 2] == PreambleEmission(pre).bytes + U16Bytes(pre.dataLength)
    ensures PreambleAt(buf, p) == Decoded(Ok(pre), p + |PreambleEmission(pre).bytes| + 2)
  {
    var e := PreambleEmission(pre).bytes + U16Bytes(pre.dataLength);
    var n := EncodeName(pre.name).bytes;
    var rest := FixedFields(pre) + U16Bytes(pre.dataLength);
    assert e == n + rest;
    SliceAt(buf, p, e, 0, |n|);
    SliceAt(buf, p, e, |n|, |e|);
    assert e[..|n|] == n && e[|n|..] == rest;
    ReadNameRoundTrip(buf, p, pre.name);
    FixedFieldsAt(buf, p + |n|, pre);
  }

  /** A name written at `q` and read as NS or CNAME data. */
  lemma HostRoundTrip(buf: seq<byte>, q: nat, host: Name, cname: bool)
    requires |buf| == BufferSize && ValidName(host)
    requires q + |EncodeName(host).bytes| < BufferSize
    requires buf[q..q + |EncodeName(host).bytes|] == EncodeName(host).bytes
    ensures HostAt(buf, q, cname) == Decoded(Ok(if cname then CnameData(host) else NsData(host)), q + |EncodeName(host).bytes|)
  {
    ReadNameRoundTrip(buf, q, host);
  }

  lemma MxRoundTrip(buf: seq<byte>, q: nat, priority: u16, host: Name)
    requires |buf| == BufferSize && ValidName(host)
    requires q + 2 + |EncodeName(host).bytes| < BufferSize
    requires buf[q..q + 2 + |EncodeName(host).bytes|] == U16Bytes(priority) + EncodeName(host).bytes
    ensures MxAt(buf, q) == Decoded(Ok(MxData(priority, host)), q + 2 + |EncodeName(host).bytes|)
  {
    var e := U16Bytes(priority) + EncodeName(host).bytes;
    SliceAt(buf, q, e, 0, 2);
    SliceAt(buf, q, e, 2, |e|);
    assert e[..2] == U16Bytes(priority) && e[2..] == EncodeName(host).bytes;
    ReadU16RoundTrip(buf, q, priority);
    ReadNameRoundTrip(buf, q + 2, host);
  }

  /** The five SOA numbers written at `q` read back in order. */
  lemma SoaNumbersAt(buf: seq<byte>, q: nat, serial: u32, refresh: u32, retry: u32, expire: u32, minimum: u32)
    requires |buf| == BufferSize && q + 20 < BufferSize
    requires buf[q..q + 20] == SoaNumbers(serial, refresh, retry, expire, minimum)
    ensures ReadU32(buf, q) == Got(serial, q + 4)
    ensures ReadU32(buf, q + 4) == Got(refresh, q + 8)
    ensures ReadU32(buf, q + 8) == Got(retry, q + 12)
    ensures ReadU32(buf, q + 12) == Got(expire, q + 16)
    ensures ReadU32(buf, q + 16) == Got(minimum, q + 20)
  {
    var e := SoaNumbers(serial, refresh, retry, expire, minimum);
    SliceAt(buf, q, e, 0, 4);
    SliceAt(buf, q, e, 4, 8);
    SliceAt(buf, q, e, 8, 12);
    SliceAt(buf, q, e, 12, 16);
    SliceAt(buf, q, e, 16, 20);
    assert e[..4] == U32Bytes(serial) && e[4..8] == U32Bytes(refresh) && e[8..12] == U32Bytes(retry);
    assert e[12..16] == U32Bytes(expire) && e[16..20] == U32Bytes(minimum);
    ReadU32RoundTrip(buf, q, serial);
    ReadU32RoundTrip(buf, q + 4, refresh);
    ReadU32RoundTrip(buf, q + 8, retry);
    ReadU32RoundTrip(buf, q + 12, expire);
    ReadU32RoundTrip(buf, q + 16, minimum);
  }

  lemma SoaRoundTrip(buf: seq<byte>, q: nat, d: RecordData)
    requires |buf| == BufferSize && d.SoaData? && ValidName(d.mName) && ValidName(d.rName)
    requires q + |EncodeName(d.mName).bytes| + |EncodeName(d.rName).bytes| + 20 < BufferSize
    requires buf[q..q + |EncodeName(d.mName).bytes| + |EncodeName(d.rName).bytes| + 20]
          == EncodeName(d.mName).bytes + EncodeName(d.rName).bytes + SoaNumbers(d.serial, d.refresh, d.retry, d.expire, d.minimum)
    ensures SoaAt(buf, q) == Decoded(Ok(d), q + |EncodeName(d.mName).bytes| + |EncodeName(d.rName).bytes| + 20)
  {
    var m, rn := EncodeName(d.mName).bytes, EncodeName(d.rName).bytes;
    var nums := SoaNumbers(d.serial, d.refresh, d.retry, d.expire, d.minimum);
    Split2(buf, q, m + rn + nums, m + rn, nums);
    Split2(buf, q, m + rn, m, rn);
    ReadNameRoundTrip(buf, q, d.mName);
    ReadNameRoundTrip(buf, q + |m|, d.rName);
    SoaNumbersAt(buf, q + |m| + |rn|, d.serial, d.refresh, d.retry, d.expire, d.minimum);
    SoaFromParts(buf, q, d, q + |m|, q + |m| + |rn|);
  }

  /** `SOA.ReadData` of two names and five numbers that each read back. */
  lemma SoaFromParts(buf: seq<byte>, q: nat, d: RecordData, n1: nat, n2: nat)
    requires |buf| == BufferSize && q < BufferSize && d.SoaData? && n2 + 20 < BufferSize
    requires ReadName(buf, q) == Decoded(Ok(d.mName), n1)
    requires ReadName(buf, n1) == Decoded(Ok(d.rName), n2)
    requires ReadU32(buf, n2) == Got(d.serial, n2 + 4)
    requires ReadU32(buf, n2 + 4) == Got(d.refresh, n2 + 8)
    requires ReadU32(buf, n2 + 8) == Got(d.retry, n2 + 12)
    requires ReadU32(buf, n2 + 12) == Got(d.expire, n2 + 16)
    requires ReadU32(buf, n2 + 16) == Got(d.minimum, n2 + 20)
    ensures SoaAt(buf, q) == Decoded(Ok(d), n2 + 20)
  {
  }

  /** Address and raw data, written at `q`, read back unchanged. */
  lemma RawPayloadRoundTrip(buf: seq<byte>, q: nat, pre: Preamble, d: RecordData)
    requires |buf| == BufferSize && Writable(pre, d) && VariantOf(pre.queryType, d)
    requires d.AData? || d.AaaaData? || d.OpaqueData?
    requires pre.dataLength == |Payload(pre, d)| && (d.OpaqueData? ==> |d.bytes| == pre.dataLength)
    requires q + |Payload(pre, d)| < BufferSize && buf[q..q + |Payload(pre, d)|] == Payload(pre, d)
    ensures DataAt(buf, q, pre) == Decoded(Ok(d), q + |Payload(pre, d)|)
  {
    if d.OpaqueData? {
      assert d.bytes[..pre.dataLength] == d.bytes;
    }
  }

  /** A record that `ReadDnsRecord` could have produced: names with labels
      of 1 to 63 bytes, the variant its type selects, data `WriteData` can
      write, and a declared length equal to the data's true length. */
  predicate Consistent(r: DnsRecord) {
    var pre, d := r.preamble, r.data;
    && ValidName(pre.name) && VariantOf(pre.queryType, d) && Writable(pre, d) && NamesValid(d)
    && pre.dataLength == |Payload(pre, d)| && (d.OpaqueData? ==> |d.bytes| == pre.dataLength)
  }

  /** The data of every variant, written at `q`, reads back unchanged under
      the record's own preamble. */
  lemma PayloadRoundTrip(buf: seq<byte>, q: nat, r: DnsRecord)
    requires |buf| == BufferSize && Consistent(r)
    requires q + |Payload(r.preamble, r.data)| < BufferSize
    requires buf[q..q + |Payload(r.preamble, r.data)|] == Payload(r.preamble, r.data)
    ensures DataAt(buf, q, r.preamble) == Decoded(Ok(r.data), q + |Payload(r.preamble, r.data)|)
  {
    if r.data.NsData? || r.data.CnameData? {
      HostPayloadRoundTrip(buf, q, r);
    } else if r.data.MxData? || r.data.SoaData? {
      MxSoaPayloadRoundTrip(buf, q, r);
    } else {
      RawPayloadRoundTrip(buf, q, r.preamble, r.data);
    }
  }

  lemma HostPayloadRoundTrip(buf: seq<byte>, q: nat, r: DnsRecord)
    requires |buf| == BufferSize && Consistent(r) && (r.data.NsData? || r.data.CnameData?)
    requires q + |Payload(r.preamble, r.data)| < BufferSize
    requires buf[q..q + |Payload(r.preamble, r.data)|] == Payload(r.preamble, r.data)
    ensures DataAt(buf, q, r.preamble) == Decoded(Ok(r.data), q + |Payload(r.preamble, r.data)|)
  {
    var pre, d := r.preamble, r.data;
    if d.NsData? {
      assert pre.queryType == NS;
      HostRoundTrip(buf, q, d.host, false);
    } else {
      assert pre.queryType == CNAME;
      HostRoundTrip(buf, q, d.host, true);
    }
  }

  lemma MxSoaPayloadRoundTrip(buf: seq<byte>, q: nat, r: DnsRecord)
    requires |buf| == BufferSize && Consistent(r) && (r.data.MxData? || r.data.SoaData?)
    requires q + |Payload(r.preamble, r.data)| < BufferSize
    requires buf[q..q + |Payload(r.preamble, r.data)|] == Payload(r.preamble, r.data)
    ensures DataAt(buf, q, r.preamble) == Decoded(Ok(r.data), q + |Payload(r.preamble, r.data)|)
  {
    var pre, d := r.preamble, r.data;
    if d.MxData? {
      assert pre.queryType == MX;
      MxRoundTrip(buf, q, d.priority, d.host);
    } else {
      assert pre.queryType == SOA;
      SoaRoundTrip(buf, q, d);
    }
  }

  /** The bytes of a consistent record: its preamble, its declared length,
      its data. */
  lemma ConsistentEmission(r: DnsRecord)
    requires Consistent(r)
    ensures RecordEmission(r).ok
    ensures RecordEmission(r).bytes == PreambleEmission(r.preamble).bytes + U16Bytes(r.preamble.dataLength) + Payload(r.preamble, r.data)
  {
    ValidNameEncodes(r.preamble.name);
    var pre, d := r.preamble, r.data;
    match d
    case OpaqueData(bs) =>
      assert DataEmissionOf(pre, d) == Emit(U16Bytes(pre.dataLength) + Payload(pre, d));
    case _ =>
      LengthFieldIsExact(pre, d);
  }

  /** Round trip of `WritePreamble` + `WriteData` and `ReadDnsRecord`: a
      consistent record written at `p` reads back unchanged, with the cursor
      just past what was written. */
  lemma RecordRoundTrip(buf: seq<byte>, p: nat, r: DnsRecord)
    requires |buf| == BufferSize && Consistent(r)
    requires p + |RecordEmission(r).bytes| < BufferSize
    requires buf[p..p + |RecordEmission(r).bytes|] == RecordEmission(r).bytes
    ensures RecordAt(buf, p) == Decoded(Ok(r), p + |RecordEmission(r).bytes|)
  {
    ConsistentEmission(r);
    var body := Payload(r.preamble, r.data);
    PreambleThenBody(buf, p, r.preamble, RecordEmission(r).bytes, body);
    var n := p + |PreambleEmission(r.preamble).bytes| + 2;
    PayloadRoundTrip(buf, n, r);
    RecordFromParts(buf, p, r, n, n + |body|);
  }

  /** A preamble, its data length and then `body` written at `p`: the
      preamble reads back, and `body` sits where that read ends. */
  lemma PreambleThenBody(buf: seq<byte>, p: nat, pre: Preamble, e: seq<byte>, body: seq<byte>)
    requires |buf| == BufferSize && ValidName(pre.name)
    requires e == PreambleEmission(pre).bytes + U16Bytes(pre.dataLength) + body
    requires p + |e| < BufferSize && buf[p..p + |e|] == e
    ensures PreambleAt(buf, p) == Decoded(Ok(pre), p + |PreambleEmission(pre).bytes| + 2)
    ensures buf[p + |PreambleEmission(pre).bytes| + 2..p + |e|] == body
  {
    var head := PreambleEmission(pre).bytes + U16Bytes(pre.dataLength);
    Split2(buf, p, e, head, body);
    PreambleRoundTrip(buf, p, pre);
  }

  /** `ReadDnsRecord` of a preamble and data that each read back. */
  lemma RecordFromParts(buf: seq<byte>, p: nat, r: DnsRecord, n: nat, m: nat)
    requires |buf| == BufferSize && p < BufferSize && n < BufferSize
    requires PreambleAt(buf, p) == Decoded(Ok(r.preamble), n)
    requires DataAt(buf, n, r.preamble) == Decoded(Ok(r.data), m)
    ensures RecordAt(buf, p) == Decoded(Ok(r), m)
  {
  }

  /** Every consistent record reads back, wherever it is written in a
      receive buffer. */
  lemma ConsistentReadsBack(buf: seq<byte>, r: DnsRecord)
    requires |buf| == BufferSize && Consistent(r)
    ensures ReadsBackAt(RecordAt, RecordEmission, buf, r)
  {
    ConsistentEmission(r);
    forall q: nat | q + |RecordEmission(r).bytes| < |buf|
        && buf[q..q + |RecordEmission(r).bytes|] == RecordEmission(r).bytes
      ensures RecordAt(buf, q) == Decoded(Ok(r), q + |RecordEmission(r).bytes|)
    {
      RecordRoundTrip(buf, q, r);
    }
  }
}
