/** A question-section entry: the name asked about, the record type wanted
    and the class. */
module Question {
  import opened Wire
  import opened Names
  import opened Common
  import opened PacketBuffer

  datatype DnsQuestion = DnsQuestion(name: Name, queryType: u16, qclass: u16)

  /** `NewDnsQuestion`: an empty question in the Internet class. */
  function NewDnsQuestion(): (q: DnsQuestion)
    ensures q.qclass == IN && q.name == [] && q.queryType == 0
  {
    DnsQuestion([], 0, IN)
  }

  /** `DnsQuestion.Read` with the cursor at `p`: the name, then the type, then
      the class. Only the name can fail; the error is returned with the
      cursor where the name reader left it. */
  function QuestionAt(buf: seq<byte>, p: nat): (r: Decoded<DnsQuestion>)
    requires |buf| == BufferSize && p < BufferSize
    ensures r.next < BufferSize
  {
    var name := ReadName(buf, p);
    if name.result.Err? then Decoded(Err(name.result.error), name.next)
    else
      var t := ReadU16(buf, name.next);
      var c := ReadU16(buf, t.next);
      Decoded(Ok(DnsQuestion(name.result.value, t.value, c.value)), c.next)
  }

  /** What `DnsQuestion.Write` emits: the name, then type and class as
      16-bit big-endian numbers. */
  function QuestionEmission(q: DnsQuestion): Emission {
    Then(EncodeName(q.name), Emit(U16Bytes(q.queryType) + U16Bytes(q.qclass)))
  }

  /** Writing a question fails only on a label over 63 bytes; otherwise
      it takes the encoded name and four more bytes. */
  lemma QuestionEmissionShape(q: DnsQuestion)
    ensures QuestionEmission(q).ok <==> LabelsFit(Split(q.name))
    ensures QuestionEmission(q).ok ==> |QuestionEmission(q).bytes| == |q.name| + 6
  {
  }

  /** Round trip of `Write` and `Read`: a question whose name has labels of
      1 to 63 bytes, written at `p`, reads back unchanged just past what was
      written. */
  lemma QuestionRoundTrip(buf: seq<byte>, p: nat, q: DnsQuestion)
    requires |buf| == BufferSize && ValidName(q.name)
    requires p + |QuestionEmission(q).bytes| < BufferSize
    requires buf[p..p + |QuestionEmission(q).bytes|] == QuestionEmission(q).bytes
    ensures QuestionAt(buf, p) == Decoded(Ok(q), p + |QuestionEmission(q).bytes|)
  {
    var e := QuestionEmission(q).bytes;
    var n := EncodeName(q.name).bytes;
    var tc := U16Bytes(q.queryType) + U16Bytes(q.qclass);
    assert e == n + tc;
    SliceAt(buf, p, e, 0, |n|);
    SliceAt(buf, p, e, |n|, |e|);
    assert e[..|n|] == n && e[|n|..] == tc;
    ReadNameRoundTrip(buf, p, q.name);
    TypeAndClassAt(buf, p + |n|, q);
  }

  /** Every question whose name has labels of 1 to 63 bytes reads back,
      wherever it is written in a receive buffer. */
  lemma ValidQuestionReadsBack(buf: seq<byte>, q: DnsQuestion)
    requires |buf| == BufferSize && ValidName(q.name)
    ensures ReadsBackAt(QuestionAt, QuestionEmission, buf, q)
  {
    ValidNameEncodes(q.name);
    forall p: nat | p + |QuestionEmission(q).bytes| < |buf|
        && buf[p..p + |QuestionEmission(q).bytes|] == QuestionEmission(q).bytes
      ensures QuestionAt(buf, p) == Decoded(Ok(q), p + |QuestionEmission(q).bytes|)
    {
      QuestionRoundTrip(buf, p, q);
    }
  }

  /** The type and class of `q`, written at `m`, read back. */
  lemma TypeAndClassAt(buf: seq<byte>, m: nat, q: DnsQuestion)
    requires |buf| == BufferSize && m + 4 < BufferSize
    requires buf[m..m + 4] == U16Bytes(q.queryType) + U16Bytes(q.qclass)
    ensures ReadU16(buf, m) == Got(q.queryType, m + 2)
    ensures ReadU16(buf, m + 2) == Got(q.qclass, m + 4)
  {
    var tc := U16Bytes(q.queryType) + U16Bytes(q.qclass);
    SliceAt(buf, m, tc, 0, 2);
    SliceAt(buf, m, tc, 2, 4);
    assert tc[..2] == U16Bytes(q.queryType) && tc[2..4] == U16Bytes(q.qclass);
    ReadU16RoundTrip(buf, m, q.queryType);
    ReadU16RoundTrip(buf, m + 2, q.qclass);
  }

  /** `DnsQuestion.Read`. */
  method ReadQuestion(b: BytePacketBuffer) returns (r: Result<DnsQuestion>)
    requires b.Valid()
    modifies b`pos
    ensures b.Valid() && Decoded(r, b.pos) == QuestionAt(b.buffer[..], old(b.pos))
  {
    var name := b.ReadLabel();
    if name.Err? {
      return Err(name.error);
    }
    var queryType := b.ReadUint16();
    var qclass := b.ReadUint16();
    r := Ok(DnsQuestion(name.value, queryType, qclass));
  }

  /** `DnsQuestion.Write`: stops at the first error. */
  method WriteQuestion(b: BytePacketBuffer, q: DnsQuestion) returns (o: Outcome)
    requires b.Valid()
    modifies b`pos, b.buffer
    ensures b.Valid()
    ensures WriteOutcome(old(b.buffer[..]), b.buffer[..], old(b.pos), b.pos, QuestionEmission(q), o.Pass?)
  {
    ghost var b0, s := b.buffer[..], b.pos;
    ghost var whole := QuestionEmission(q);
    o := b.WriteLabel(q.name);
    if o.Fail? {
      return;
    }
    ghost var b1, p1 := b.buffer[..], b.pos;
    o := b.WriteUint16(q.queryType);
    WriteThen(b0, b1, b.buffer[..], s, p1, b.pos, EncodeName(q.name), Emit(U16Bytes(q.queryType)), o.Pass?);
    ghost var done := Then(EncodeName(q.name), Emit(U16Bytes(q.queryType)));
    if o.Fail? {
      WriteFail(b0, b.buffer[..], s, b.pos, done, whole);
      return;
    }
    ghost var b2, p2 := b.buffer[..], b.pos;
    o := b.WriteUint16(q.qclass);
    WriteThen(b0, b2, b.buffer[..], s, p2, b.pos, done, Emit(U16Bytes(q.qclass)), o.Pass?);
    assert Then(done, Emit(U16Bytes(q.qclass))) == whole;
  }
}
