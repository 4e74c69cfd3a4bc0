/** A whole DNS message: the header and the four sections (section 4.1 of
    RFC 1035), how it is read from and written to a packet buffer, the
    in-place additions the resolver makes while assembling a response, and
    the section searches that follow a delegation. */
module Packet {
  import opened Wire
  import opened Names
  import opened Common
  import opened PacketBuffer
  import opened Header
  import opened Question
  import opened Record

  /** The value a `DnsPacket` holds at one moment. */
  datatype Message = Message(
    header: DnsHeader,
    questions: seq<DnsQuestion>,
    answers: seq<DnsRecord>,
    authorities: seq<DnsRecord>,
    resources: seq<DnsRecord>)

  /** The three record sections `AddAnswer`, `AddAuthority` and
      `AddResource` append to. */
  datatype RecordSection = Answers | Authorities | Resources

  // Reading.

  /** What a count loop of `DnsPacketFromRawBuffer` leaves: the entries read
      so far, the cursor, and whether it stopped on an error. */
  datatype Section<T> = Section(items: seq<T>, next: nat, outcome: Outcome)

  /** Puts `items` in front of what a later part of a loop reads. */
  function Prepend<T>(items: seq<T>, s: Section<T>): Section<T> {
    Section(items + s.items, s.next, s.outcome)
  }

  /** An entry reader over `buf`: defined at every offset of the buffer,
      it leaves the cursor inside it. */
  ghost predicate Reader<T>(dec: (seq<byte>, nat) --> Decoded<T>, buf: seq<byte>) {
    && |buf| == BufferSize
    && forall q: nat {:trigger dec.requires(buf, q)} :: q < BufferSize ==> dec.requires(buf, q) && dec(buf, q).next < BufferSize
  }

  /** The count loop shared by every section of `DnsPacketFromRawBuffer`:
      `n` entries read by `dec` from `p` on, stopping at the first one that
      fails. */
  function SectionAt<T>(dec: (seq<byte>, nat) --> Decoded<T>, buf: seq<byte>, p: nat, n: nat): (r: Section<T>)
    requires p < BufferSize && Reader(dec, buf)
    ensures r.next < BufferSize && |r.items| <= n
    ensures r.outcome.Pass? ==> |r.items| == n
    decreases n
  {
    if n == 0 then Section([], p, Pass)
    else
      var d := dec(buf, p);
      if d.result.Err? then Section([], d.next, Fail(d.result.error))
      else Prepend([d.result.value], SectionAt(dec, buf, d.next, n - 1))
  }

  /** `ReadQuestion` is an entry reader. */
  lemma QuestionReader(buf: seq<byte>)
    requires |buf| == BufferSize
    ensures Reader(QuestionAt, buf)
  {
  }

  /** `ReadDnsRecord` is an entry reader. */
  lemma RecordReader(buf: seq<byte>)
    requires |buf| == BufferSize
    ensures Reader(RecordAt, buf)
  {
  }

  /** The question loop. */
  function QuestionsAt(buf: seq<byte>, p: nat, n: nat): Section<DnsQuestion>
    requires |buf| == BufferSize && p < BufferSize
  {
    QuestionReader(buf);
    SectionAt(QuestionAt, buf, p, n)
  }

  /** A record loop. */
  function RecordsAt(buf: seq<byte>, p: nat, n: nat): Section<DnsRecord>
    requires |buf| == BufferSize && p < BufferSize
  {
    RecordReader(buf);
    SectionAt(RecordAt, buf, p, n)
  }

  /** `items` in front of a section that reads nothing more. */
  lemma PrependEmpty<T>(items: seq<T>, next: nat, o: Outcome)
    ensures Prepend(items, Section([], next, o)) == Section(items, next, o)
  {
    assert items + [] == items;
  }

  /** Putting `a` and then `b` in front is putting `a + b` in front. */
  lemma PrependPrepend<T>(a: seq<T>, b: seq<T>, s: Section<T>)
    ensures Prepend(a, Prepend(b, s)) == Prepend(a + b, s)
  {
    assert a + (b + s.items) == (a + b) + s.items;
  }

  /** One turn of the question loop, reading `d` at `p`. */
  lemma QuestionsAtStep(buf: seq<byte>, p: nat, n: nat, d: Decoded<DnsQuestion>)
    requires |buf| == BufferSize && p < BufferSize && n > 0 && d == QuestionAt(buf, p)
    ensures d.next < BufferSize
    ensures d.result.Err? ==> QuestionsAt(buf, p, n) == Section([], d.next, Fail(d.result.error))
    ensures d.result.Ok? ==> QuestionsAt(buf, p, n) == Prepend([d.result.value], QuestionsAt(buf, d.next, n - 1))
  {
  }

  /** One turn of a record loop, reading `d` at `p`. */
  lemma RecordsAtStep(buf: seq<byte>, p: nat, n: nat, d: Decoded<DnsRecord>)
    requires |buf| == BufferSize && p < BufferSize && n > 0 && d == RecordAt(buf, p)
    ensures d.next < BufferSize
    ensures d.result.Err? ==> RecordsAt(buf, p, n) == Section([], d.next, Fail(d.result.error))
    ensures d.result.Ok? ==> RecordsAt(buf, p, n) == Prepend([d.result.value], RecordsAt(buf, d.next, n - 1))
  {
  }

  /** The packet `DnsPacketFromRawBuffer` returns and its error. */
  datatype Parsed = Parsed(message: Message, outcome: Outcome)

  /** `DnsPacketFromRawBuffer`: the header from offset 0, then as many
      questions, answers, authorities and resources as the header counts, in
      that order. The first error ends the reading and is returned with the
      packet as filled so far. */
  function MessageAt(buf: seq<byte>): (r: Parsed)
    requires |buf| == BufferSize
  {
    var h := HeaderAt(buf, 0);
    var c := h.value;
    var qs := QuestionsAt(buf, h.next, c.questionsCount);
    if qs.outcome.Fail? then Parsed(Message(c, qs.items, [], [], []), qs.outcome)
    else
      var an := RecordsAt(buf, qs.next, c.answersCount);
      if an.outcome.Fail? then Parsed(Message(c, qs.items, an.items, [], []), an.outcome)
      else
        var au := RecordsAt(buf, an.next, c.authoritiesCount);
        if au.outcome.Fail? then Parsed(Message(c, qs.items, an.items, au.items, []), au.outcome)
        else
          var rs := RecordsAt(buf, au.next, c.resourcesCount);
          Parsed(Message(c, qs.items, an.items, au.items, rs.items), rs.outcome)
  }

  /** Every record carries the variant its type selects, as `ReadDnsRecord`
      builds them. */
  predicate WellTypedRecords(rs: seq<DnsRecord>) {
    forall i :: 0 <= i < |rs| ==> VariantOf(rs[i].preamble.queryType, rs[i].data)
  }

  predicate WellTyped(m: Message) {
    WellTypedRecords(m.answers) && WellTypedRecords(m.authorities) && WellTypedRecords(m.resources)
  }

  // Writing.

  /** Every record of a section can be written without a Go panic. */
  predicate AllWritable(rs: seq<DnsRecord>) {
    forall i :: 0 <= i < |rs| ==> Writable(rs[i].preamble, rs[i].data)
  }

  predicate Writables(m: Message) {
    AllWritable(m.answers) && AllWritable(m.authorities) && AllWritable(m.resources)
  }

  /** What the question loop of `Write` emits: each question in order. */
  function QuestionsEmission(qs: seq<DnsQuestion>): Emission
    decreases |qs|
  {
    if qs == [] then Emit([])
    else Then(QuestionsEmission(qs[..|qs| - 1]), QuestionEmission(qs[|qs| - 1]))
  }

  /** What a record loop of `Write` emits: each record, preamble then data,
      in order. */
  function RecordsEmission(rs: seq<DnsRecord>): Emission
    requires AllWritable(rs)
    decreases |rs|
  {
    if rs == [] then Emit([])
    else Then(RecordsEmission(rs[..|rs| - 1]), RecordEmission(rs[|rs| - 1]))
  }

  /** `e` is what `Write` emits for the questions `qs`. */
  ghost predicate EmitsQuestions(qs: seq<DnsQuestion>, e: Emission) {
    e == QuestionsEmission(qs)
  }

  /** `e` is what `Write` emits for the records `rs`. */
  ghost predicate EmitsRecords(rs: seq<DnsRecord>, e: Emission) {
    AllWritable(rs) && e == RecordsEmission(rs)
  }

  /** The bytes of `e` sit at `p` in the receive buffer `buf`. */
  ghost predicate Placed(buf: seq<byte>, p: nat, e: Emission) {
    p + |e.bytes| < |buf| && buf[p..p + |e.bytes|] == e.bytes
  }

  /** The header counts `Write` stores before writing: the section lengths,
      truncated to 16 bits. */
  function WithCounts(m: Message): Message {
    m.(header := m.header.(questionsCount := Truncate16(|m.questions|),
                           answersCount := Truncate16(|m.answers|),
                           authoritiesCount := Truncate16(|m.authorities|),
                           resourcesCount := Truncate16(|m.resources|)))
  }

  /** What `Write` emits: the header with recomputed counts, then the
      questions, answers, authorities and resources. */
  function MessageEmission(m: Message): Emission
    requires Writables(m)
  {
    Then(Then(Then(Then(Emit(HeaderBytes(WithCounts(m).header)), QuestionsEmission(m.questions)),
                   RecordsEmission(m.answers)), RecordsEmission(m.authorities)), RecordsEmission(m.resources))
  }

  // Additions.

  /** `AddQuestion`: the question at the end, the question count one higher
      with 16-bit wrap-around. */
  function WithQuestion(m: Message, q: DnsQuestion): Message {
    m.(questions := m.questions + [q],
       header := m.header.(questionsCount := Truncate16(m.header.questionsCount + 1)))
  }

  /** `AddAnswer`, `AddAuthority` and `AddResource`. */
  function WithRecord(m: Message, s: RecordSection, r: DnsRecord): Message {
    match s
    case Answers =>
      m.(answers := m.answers + [r], header := m.header.(answersCount := Truncate16(m.header.answersCount + 1)))
    case Authorities =>
      m.(authorities := m.authorities + [r], header := m.header.(authoritiesCount := Truncate16(m.header.authoritiesCount + 1)))
    case Resources =>
      m.(resources := m.resources + [r], header := m.header.(resourcesCount := Truncate16(m.header.resourcesCount + 1)))
  }

  /** The records of one section. */
  function SectionOf(m: Message, s: RecordSection): seq<DnsRecord> {
    match s
    case Answers => m.answers
    case Authorities => m.authorities
    case Resources => m.resources
  }

  /** The header count of one record section. */
  function CountOf(m: Message, s: RecordSection): u16 {
    match s
    case Answers => m.header.answersCount
    case Authorities => m.header.authoritiesCount
    case Resources => m.header.resourcesCount
  }

  /** A run of additions to one section, in order. */
  function WithRecords(m: Message, s: RecordSection, rs: seq<DnsRecord>): Message
    decreases |rs|
  {
    if rs == [] then m else WithRecord(WithRecords(m, s, rs[..|rs| - 1]), s, rs[|rs| - 1])
  }

  // Delegation searches.

  /** `strings.HasSuffix(s, suffix)`: a plain byte suffix, with no regard
      for label boundaries. */
  predicate IsSuffix(suffix: Name, s: Name) {
    |suffix| <= |s| && s[|s| - |suffix|..] == suffix
  }

  /** An authority record `GetAuthorityNameServers` keeps for `qName`: of
      type NS, holding NS data, owned by a suffix of `qName`. */
  predicate Delegates(r: DnsRecord, qName: Name) {
    r.preamble.queryType == NS && r.data.NsData? && IsSuffix(r.preamble.name, qName)
  }

  /** The records of `rs` that delegate `qName`, in order. */
  function NameServersIn(rs: seq<DnsRecord>, qName: Name): seq<DnsRecord>
    decreases |rs|
  {
    if rs == [] then []
    else (if Delegates(rs[0], qName) then [rs[0]] else []) + NameServersIn(rs[1..], qName)
  }

  /** `GetAuthorityNameServers`. */
  function AuthorityNameServers(m: Message, qName: Name): seq<DnsRecord> {
    NameServersIn(m.authorities, qName)
  }

  /** A resources-section record that gives the address of `host`: of type
      A, holding A data, owned by exactly `host`. */
  predicate IsGlue(r: DnsRecord, host: Name) {
    r.preamble.queryType == A && r.data.AData? && r.preamble.name == host
  }

  /** The first glue record for `host` in `rs`. */
  function GlueIn(rs: seq<DnsRecord>, host: Name): Option<DnsRecord>
    decreases |rs|
  {
    if rs == [] then None
    else if IsGlue(rs[0], host) then Some(rs[0])
    else GlueIn(rs[1..], host)
  }

  /** The glue of the first name server in `nss` that has any. */
  function FirstGlue(nss: seq<DnsRecord>, rs: seq<DnsRecord>): Option<DnsRecord>
    requires forall i :: 0 <= i < |nss| ==> nss[i].data.NsData?
    decreases |nss|
  {
    if nss == [] then None
    else if GlueIn(rs, nss[0].data.host).Some? then GlueIn(rs, nss[0].data.host)
    else FirstGlue(nss[1..], rs)
  }

  /** `GetResolvedNS`. */
  function ResolvedNS(m: Message, qName: Name): Option<DnsRecord> {
    NameServersDelegate(m.authorities, qName);
    FirstGlue(AuthorityNameServers(m, qName), m.resources)
  }

  /** `GetUnresolvedNS`. */
  function UnresolvedNS(m: Message, qName: Name): Option<DnsRecord> {
    var nss := AuthorityNameServers(m, qName);
    if |nss| == 0 then None else Some(nss[0])
  }

  /** The first record of type A in `rs`. */
  function FirstOfTypeA(rs: seq<DnsRecord>): Option<DnsRecord>
    decreases |rs|
  {
    if rs == [] then None
    else if rs[0].preamble.queryType == A then Some(rs[0])
    else FirstOfTypeA(rs[1..])
  }

  /** `GetFirstARecord`; its type assertion holds for the well-typed
      answers `ReadDnsRecord` produces. */
  function FirstARecord(m: Message): Option<DnsRecord>
    requires WellTypedRecords(m.answers)
  {
    FirstOfTypeA(m.answers)
  }

  /** The records `NameServersIn` keeps are exactly the delegating records of
      `rs`. */
  lemma {:induction false} NameServersDelegate(rs: seq<DnsRecord>, qName: Name)
    ensures forall i :: 0 <= i < |NameServersIn(rs, qName)| ==>
      NameServersIn(rs, qName)[i] in rs && Delegates(NameServersIn(rs, qName)[i], qName)
    ensures forall r :: r in rs && Delegates(r, qName) ==> r in NameServersIn(rs, qName)
    decreases |rs|
  {
    if rs != [] {
      NameServersDelegate(rs[1..], qName);
      var head: seq<DnsRecord> := if Delegates(rs[0], qName) then [rs[0]] else [];
      var tail := NameServersIn(rs[1..], qName);
      assert NameServersIn(rs, qName) == head + tail;
      forall i | 0 <= i < |head + tail|
        ensures (head + tail)[i] in rs && Delegates((head + tail)[i], qName)
      {
        if i >= |head| {
          assert (head + tail)[i] == tail[i - |head|];
          assert tail[i - |head|] in rs[1..];
        }
      }
      forall r | r in rs && Delegates(r, qName) ensures r in head + tail {
        if r != rs[0] {
          assert r in rs[1..];
        }
      }
    }
  }

  // The packet object.

  class DnsPacket {
    var header: DnsHeader
    var questions: seq<DnsQuestion>
    var answers: seq<DnsRecord>
    var authorities: seq<DnsRecord>
    var resources: seq<DnsRecord>

    function Value(): Message
      reads this
    {
      Message(header, questions, answers, authorities, resources)
    }

    /** `NewDnsPacket`, with the random identifier given as `id`; an empty
        packet literal is `id` 0. */
    constructor (id: u16)
      ensures Value() == Message(EmptyHeader.(id := id), [], [], [], [])
    {
      header := EmptyHeader.(id := id);
      questions, answers, authorities, resources := [], [], [], [];
    }

    method AddQuestion(q: DnsQuestion)
      modifies this
      ensures Value() == WithQuestion(old(Value()), q)
    {
      questions := questions + [q];
      header := header.(questionsCount := Truncate16(header.questionsCount + 1));
    }

    method AddAnswer(r: DnsRecord)
      modifies this
      ensures Value() == WithRecord(old(Value()), Answers, r)
    {
      answers := answers + [r];
      header := header.(answersCount := Truncate16(header.answersCount + 1));
    }

    method AddAuthority(r: DnsRecord)
      modifies this
      ensures Value() == WithRecord(old(Value()), Authorities, r)
    {
      authorities := authorities + [r];
      header := header.(authoritiesCount := Truncate16(header.authoritiesCount + 1));
    }

    method AddResource(r: DnsRecord)
      modifies this
      ensures Value() == WithRecord(old(Value()), Resources, r)
    {
      resources := resources + [r];
      header := header.(resourcesCount := Truncate16(header.resourcesCount + 1));
    }

    /** `GetAuthorityNameServers`. */
    method GetAuthorityNameServers(qName: Name) returns (nss: seq<DnsRecord>)
      ensures nss == AuthorityNameServers(Value(), qName)
    {
      nss := [];
      var i := 0;
      while i < |authorities|
        invariant 0 <= i <= |authorities|
        invariant NameServersIn(authorities, qName) == nss + NameServersIn(authorities[i..], qName)
      {
        assert authorities[i..][1..] == authorities[i + 1..];
        if authorities[i].preamble.queryType == NS && IsSuffix(authorities[i].preamble.name, qName)
           && authorities[i].data.NsData? {
          nss := nss + [authorities[i]];
        }
        i := i + 1;
      }
      assert authorities[i..] == [];
    }

    /** `GetResolvedNS`: for each delegating name server in turn, the first
        glue record for its host. */
    method GetResolvedNS(qName: Name) returns (a: Option<DnsRecord>)
      ensures a == ResolvedNS(Value(), qName)
    {
      var nss := GetAuthorityNameServers(qName);
      NameServersDelegate(authorities, qName);
      var j := 0;
      while j < |nss|
        invariant 0 <= j <= |nss|
        invariant FirstGlue(nss, resources) == FirstGlue(nss[j..], resources)
      {
        assert nss[j..][1..] == nss[j + 1..];
        var glue := GlueFor(nss[j].data.host);
        if glue.Some? {
          return glue;
        }
        j := j + 1;
      }
      return None;
    }

    /** The inner loop of `GetResolvedNS`: the first glue record for
        `host` in the resources section. */
    method GlueFor(host: Name) returns (a: Option<DnsRecord>)
      ensures a == GlueIn(resources, host)
    {
      var k := 0;
      while k < |resources|
        invariant 0 <= k <= |resources|
        invariant GlueIn(resources, host) == GlueIn(resources[k..], host)
      {
        assert resources[k..][1..] == resources[k + 1..];
        if resources[k].preamble.queryType == A && resources[k].preamble.name == host && resources[k].data.AData? {
          return Some(resources[k]);
        }
        k := k + 1;
      }
      return None;
    }

    /** `GetUnresolvedNS`. */
    method GetUnresolvedNS(qName: Name) returns (ns: Option<DnsRecord>)
      ensures ns == UnresolvedNS(Value(), qName)
    {
      var nss := GetAuthorityNameServers(qName);
      if |nss| <= 0 {
        return None;
      }
      return Some(nss[0]);
    }

    /** `GetFirstARecord`. */
    method GetFirstARecord() returns (a: Option<DnsRecord>)
      requires WellTypedRecords(answers)
      ensures a == FirstARecord(Value())
    {
      var i := 0;
      while i < |answers|
        invariant 0 <= i <= |answers|
        invariant FirstOfTypeA(answers) == FirstOfTypeA(answers[i..])
      {
        assert answers[i..][1..] == answers[i + 1..];
        if answers[i].preamble.queryType == A {
          return Some(answers[i]);
        }
        i := i + 1;
      }
      return None;
    }

    /** `Write`: stores the section lengths in the header counts, then writes
        header, questions and the three record sections, stopping at the
        first error. The counts stay updated even when the writing fails. */
    method Write(b: BytePacketBuffer) returns (o: Outcome)
      requires b.Valid() && Writables(Value())
      modifies this, b`pos, b.buffer
      ensures b.Valid()
      ensures Value() == WithCounts(old(Value()))
      ensures WriteOutcome(old(b.buffer[..]), b.buffer[..], old(b.pos), b.pos, MessageEmission(old(Value())), o.Pass?)
    {
      var m := Message(header, questions, answers, authorities, resources);
      header := header.(questionsCount := Truncate16(|questions|),
                        answersCount := Truncate16(|answers|),
                        authoritiesCount := Truncate16(|authorities|),
                        resourcesCount := Truncate16(|resources|));
      o := WriteMessage(b, m);
    }
  }

  /** The writing part of `DnsPacket.Write`. */
  method WriteMessage(b: BytePacketBuffer, m: Message) returns (o: Outcome)
    requires b.Valid() && Writables(m)
    modifies b`pos, b.buffer
    ensures b.Valid()
    ensures WriteOutcome(old(b.buffer[..]), b.buffer[..], old(b.pos), b.pos, MessageEmission(m), o.Pass?)
  {
    ghost var b0, s := b.buffer[..], b.pos;
    ghost var eh := Emit(HeaderBytes(WithCounts(m).header));
    ghost var eq := Then(eh, QuestionsEmission(m.questions));
    o := WriteHeader(b, WithCounts(m).header);
    if o.Fail? {
      WriteFail(b0, b.buffer[..], s, b.pos, eh, MessageEmission(m));
      return;
    }
    ghost var b1, p1 := b.buffer[..], b.pos;
    o := WriteQuestions(b, m.questions);
    WriteThen(b0, b1, b.buffer[..], s, p1, b.pos, eh, QuestionsEmission(m.questions), o.Pass?);
    if o.Fail? {
      WriteFail(b0, b.buffer[..], s, b.pos, eq, MessageEmission(m));
      return;
    }
    o := WriteRecordSections(b, m, b0, s);
  }

  /** The three record loops of `Write`, after the header and questions. */
  method WriteRecordSections(b: BytePacketBuffer, m: Message, ghost b0: seq<byte>, ghost s: nat) returns (o: Outcome)
    requires b.Valid() && Writables(m)
    requires WriteOutcome(b0, b.buffer[..], s, b.pos, Then(Emit(HeaderBytes(WithCounts(m).header)), QuestionsEmission(m.questions)), true)
    modifies b`pos, b.buffer
    ensures b.Valid()
    ensures WriteOutcome(b0, b.buffer[..], s, b.pos, MessageEmission(m), o.Pass?)
  {
    ghost var eq := Then(Emit(HeaderBytes(WithCounts(m).header)), QuestionsEmission(m.questions));
    ghost var ea := Then(eq, RecordsEmission(m.answers));
    ghost var eu := Then(ea, RecordsEmission(m.authorities));
    ghost var b2, p2 := b.buffer[..], b.pos;
    o := WriteRecords(b, m.answers);
    WriteThen(b0, b2, b.buffer[..], s, p2, b.pos, eq, RecordsEmission(m.answers), o.Pass?);
    if o.Fail? {
      WriteFail(b0, b.buffer[..], s, b.pos, ea, MessageEmission(m));
      return;
    }
    ghost var b3, p3 := b.buffer[..], b.pos;
    o := WriteRecords(b, m.authorities);
    WriteThen(b0, b3, b.buffer[..], s, p3, b.pos, ea, RecordsEmission(m.authorities), o.Pass?);
    if o.Fail? {
      WriteFail(b0, b.buffer[..], s, b.pos, eu, MessageEmission(m));
      return;
    }
    ghost var b4, p4 := b.buffer[..], b.pos;
    o := WriteRecords(b, m.resources);
    WriteThen(b0, b4, b.buffer[..], s, p4, b.pos, eu, RecordsEmission(m.resources), o.Pass?);
  }

  /** `e2` is written only if `e1` is, and is at least as long: a failure
      writing `e1` is a failure writing `e2`. */
  predicate Extends(e1: Emission, e2: Emission) {
    e2.ok ==> e1.ok && |e2.bytes| >= |e1.bytes|
  }

  lemma {:induction false} QuestionsPrefix(qs: seq<DnsQuestion>, j: nat)
    requires j <= |qs|
    ensures Extends(QuestionsEmission(qs[..j]), QuestionsEmission(qs))
    decreases |qs|
  {
    if j < |qs| {
      var init := qs[..|qs| - 1];
      assert init[..j] == qs[..j];
      QuestionsPrefix(init, j);
    } else {
      assert qs[..j] == qs;
    }
  }

  lemma {:induction false} RecordsPrefix(rs: seq<DnsRecord>, j: nat)
    requires j <= |rs| && AllWritable(rs)
    ensures AllWritable(rs[..j])
    ensures Extends(RecordsEmission(rs[..j]), RecordsEmission(rs))
    decreases |rs|
  {
    if j < |rs| {
      var init := rs[..|rs| - 1];
      assert init[..j] == rs[..j];
      RecordsPrefix(init, j);
    } else {
      assert rs[..j] == rs;
    }
  }

  /** One more question appends its emission to that of the ones before. */
  lemma QuestionsGrow(qs: seq<DnsQuestion>, i: nat)
    requires i < |qs|
    ensures QuestionsEmission(qs[..i + 1]) == Then(QuestionsEmission(qs[..i]), QuestionEmission(qs[i]))
  {
    assert qs[..i + 1][..i] == qs[..i];
  }

  /** One more record appends its emission to that of the ones before. */
  lemma RecordsGrow(rs: seq<DnsRecord>, i: nat)
    requires i < |rs| && AllWritable(rs)
    ensures AllWritable(rs[..i]) && AllWritable(rs[..i + 1])
    ensures RecordsEmission(rs[..i + 1]) == Then(RecordsEmission(rs[..i]), RecordEmission(rs[i]))
  {
    assert rs[..i + 1][..i] == rs[..i];
  }

  /** The question loop of `Write`. */
  method WriteQuestions(b: BytePacketBuffer, qs: seq<DnsQuestion>) returns (o: Outcome)
    requires b.Valid()
    modifies b`pos, b.buffer
    ensures b.Valid()
    ensures WriteOutcome(old(b.buffer[..]), b.buffer[..], old(b.pos), b.pos, QuestionsEmission(qs), o.Pass?)
  {
    ghost var b0, s := b.buffer[..], b.pos;
    WriteNothing(b0, s);
    assert qs[..0] == [];
    o := Pass;
    var i := 0;
    while i < |qs|
      invariant 0 <= i <= |qs| && b.Valid() && o == Pass
      invariant WriteOutcome(b0, b.buffer[..], s, b.pos, QuestionsEmission(qs[..i]), true)
    {
      o := WriteNextQuestion(b, qs, i, b0, s);
      if o.Fail? {
        return;
      }
      i := i + 1;
    }
    assert qs[..i] == qs;
  }

  /** The body of the question loop: the questions written so far grow by
      one, or the failure is that of the whole loop. */
  method WriteNextQuestion(b: BytePacketBuffer, qs: seq<DnsQuestion>, i: nat, ghost b0: seq<byte>, ghost s: nat) returns (o: Outcome)
    requires b.Valid() && i < |qs|
    requires WriteOutcome(b0, b.buffer[..], s, b.pos, QuestionsEmission(qs[..i]), true)
    modifies b`pos, b.buffer
    ensures b.Valid()
    ensures o.Pass? ==> WriteOutcome(b0, b.buffer[..], s, b.pos, QuestionsEmission(qs[..i + 1]), true)
    ensures o.Fail? ==> WriteOutcome(b0, b.buffer[..], s, b.pos, QuestionsEmission(qs), false)
  {
    ghost var b1, p1 := b.buffer[..], b.pos;
    o := WriteQuestion(b, qs[i]);
    QuestionsStep(b0, b1, b.buffer[..], s, p1, b.pos, qs, i, o.Pass?);
  }

  /** One turn of the question loop: the questions written so far grow by
      one, or the failure is that of the whole loop. */
  lemma QuestionsStep(b0: seq<byte>, b1: seq<byte>, b2: seq<byte>, s: nat, p1: nat, p2: nat,
                      qs: seq<DnsQuestion>, i: nat, ok: bool)
    requires i < |qs|
    requires WriteOutcome(b0, b1, s, p1, QuestionsEmission(qs[..i]), true)
    requires WriteOutcome(b1, b2, p1, p2, QuestionEmission(qs[i]), ok)
    ensures ok ==> WriteOutcome(b0, b2, s, p2, QuestionsEmission(qs[..i + 1]), true)
    ensures !ok ==> WriteOutcome(b0, b2, s, p2, QuestionsEmission(qs), false)
  {
    QuestionsGrow(qs, i);
    WriteThen(b0, b1, b2, s, p1, p2, QuestionsEmission(qs[..i]), QuestionEmission(qs[i]), ok);
    if !ok {
      QuestionsPrefix(qs, i + 1);
      WriteFail(b0, b2, s, p2, QuestionsEmission(qs[..i + 1]), QuestionsEmission(qs));
    }
  }

  /** A record loop of `Write`: preamble then data for each record. */
  method WriteRecords(b: BytePacketBuffer, rs: seq<DnsRecord>) returns (o: Outcome)
    requires b.Valid() && AllWritable(rs)
    modifies b`pos, b.buffer
    ensures b.Valid()
    ensures WriteOutcome(old(b.buffer[..]), b.buffer[..], old(b.pos), b.pos, RecordsEmission(rs), o.Pass?)
  {
    ghost var b0, s := b.buffer[..], b.pos;
    WriteNothing(b0, s);
    assert rs[..0] == [];
    o := Pass;
    var i := 0;
    while i < |rs|
      invariant 0 <= i <= |rs| && b.Valid() && o == Pass
      invariant AllWritable(rs[..i])
      invariant WriteOutcome(b0, b.buffer[..], s, b.pos, RecordsEmission(rs[..i]), true)
    {
      o := WriteNextRecord(b, rs, i, b0, s);
      if o.Fail? {
        return;
      }
      i := i + 1;
    }
    assert rs[..i] == rs;
  }

  /** The body of a record loop: the records written so far grow by one,
      or the failure is that of the whole loop. */
  method WriteNextRecord(b: BytePacketBuffer, rs: seq<DnsRecord>, i: nat, ghost b0: seq<byte>, ghost s: nat) returns (o: Outcome)
    requires b.Valid() && i < |rs| && AllWritable(rs) && AllWritable(rs[..i])
    requires WriteOutcome(b0, b.buffer[..], s, b.pos, RecordsEmission(rs[..i]), true)
    modifies b`pos, b.buffer
    ensures b.Valid() && AllWritable(rs[..i + 1])
    ensures o.Pass? ==> WriteOutcome(b0, b.buffer[..], s, b.pos, RecordsEmission(rs[..i + 1]), true)
    ensures o.Fail? ==> WriteOutcome(b0, b.buffer[..], s, b.pos, RecordsEmission(rs), false)
  {
    ghost var b1, p1 := b.buffer[..], b.pos;
    o := WriteRecord(b, rs[i]);
    RecordsStep(b0, b1, b.buffer[..], s, p1, b.pos, rs, i, o.Pass?);
  }

  /** One turn of a record loop: the records written so far grow by one, or
      the failure is that of the whole loop. */
  lemma RecordsStep(b0: seq<byte>, b1: seq<byte>, b2: seq<byte>, s: nat, p1: nat, p2: nat,
                    rs: seq<DnsRecord>, i: nat, ok: bool)
    requires i < |rs| && AllWritable(rs) && AllWritable(rs[..i])
    requires WriteOutcome(b0, b1, s, p1, RecordsEmission(rs[..i]), true)
    requires WriteOutcome(b1, b2, p1, p2, RecordEmission(rs[i]), ok)
    ensures AllWritable(rs[..i + 1])
    ensures ok ==> WriteOutcome(b0, b2, s, p2, RecordsEmission(rs[..i + 1]), true)
    ensures !ok ==> WriteOutcome(b0, b2, s, p2, RecordsEmission(rs), false)
  {
    RecordsGrow(rs, i);
    WriteThen(b0, b1, b2, s, p1, p2, RecordsEmission(rs[..i]), RecordEmission(rs[i]), ok);
    if !ok {
      RecordsPrefix(rs, i + 1);
      WriteFail(b0, b2, s, p2, RecordsEmission(rs[..i + 1]), RecordsEmission(rs));
    }
  }

  /** The question loop of `DnsPacketFromRawBuffer`. */
  method ReadQuestions(b: BytePacketBuffer, n: u16) returns (qs: seq<DnsQuestion>, o: Outcome)
    requires b.Valid()
    modifies b`pos
    ensures b.Valid() && Section(qs, b.pos, o) == QuestionsAt(b.buffer[..], old(b.pos), n)
  {
    ghost var buf, s := b.buffer[..], b.pos;
    qs, o := [], Pass;
    var i: u16 := 0;
    while i < n
      invariant i <= n && b.Valid() && b.buffer[..] == buf
      invariant QuestionsAt(buf, s, n) == Prepend(qs, QuestionsAt(buf, b.pos, n - i))
    {
      ghost var p := b.pos;
      var q := ReadQuestion(b);
      QuestionsAtStep(buf, p, n - i, Decoded(q, b.pos));
      if q.Err? {
        o := Fail(q.error);
        PrependEmpty(qs, b.pos, o);
        return;
      }
      PrependPrepend(qs, [q.value], QuestionsAt(buf, b.pos, n - i - 1));
      qs := qs + [q.value];
      i := i + 1;
    }
    PrependEmpty(qs, b.pos, Pass);
  }

  /** A record loop of `DnsPacketFromRawBuffer`. */
  method ReadRecords(b: BytePacketBuffer, n: u16) returns (rs: seq<DnsRecord>, o: Outcome)
    requires b.Valid()
    modifies b`pos
    ensures b.Valid() && Section(rs, b.pos, o) == RecordsAt(b.buffer[..], old(b.pos), n)
  {
    ghost var buf, s := b.buffer[..], b.pos;
    rs, o := [], Pass;
    var i: u16 := 0;
    while i < n
      invariant i <= n && b.Valid() && b.buffer[..] == buf
      invariant RecordsAt(buf, s, n) == Prepend(rs, RecordsAt(buf, b.pos, n - i))
    {
      ghost var p := b.pos;
      var r := ReadDnsRecord(b);
      RecordsAtStep(buf, p, n - i, Decoded(r, b.pos));
      if r.Err? {
        o := Fail(r.error);
        PrependEmpty(rs, b.pos, o);
        return;
      }
      PrependPrepend(rs, [r.value], RecordsAt(buf, b.pos, n - i - 1));
      rs := rs + [r.value];
      i := i + 1;
    }
    PrependEmpty(rs, b.pos, Pass);
  }

  /** `DnsPacketFromRawBuffer` over the 512-byte receive buffer `raw`. */
  method FromRawBuffer(raw: array<byte>) returns (p: DnsPacket, o: Outcome)
    requires raw.Length == BufferSize
    ensures fresh(p) && Parsed(p.Value(), o) == MessageAt(raw[..])
  {
    var b := new BytePacketBuffer.FromRawBuffer(raw);
    p := new DnsPacket(0);
    var h := ReadHeader(b);
    p.header := h;
    var qs;
    qs, o := ReadQuestions(b, h.questionsCount);
    p.questions := qs;
    if o.Fail? {
      return;
    }
    var rs;
    rs, o := ReadRecords(b, h.answersCount);
    p.answers := rs;
    if o.Fail? {
      return;
    }
    rs, o := ReadRecords(b, h.authoritiesCount);
    p.authorities := rs;
    if o.Fail? {
      return;
    }
    rs, o := ReadRecords(b, h.resourcesCount);
    p.resources := rs;
  }

  /** `ToRawBuffer`: writes the packet into a fresh buffer and returns the
      bytes written, or fails with no bytes. */
  method ToRawBuffer(p: DnsPacket) returns (r: Result<seq<byte>>)
    requires Writables(p.Value())
    modifies p
    ensures p.Value() == WithCounts(old(p.Value()))
    ensures r.Ok? <==> MessageEmission(old(p.Value())).ok && |MessageEmission(old(p.Value())).bytes| < BufferSize
    ensures r.Ok? ==> r.value == MessageEmission(old(p.Value())).bytes
  {
    var b := new BytePacketBuffer();
    var o := p.Write(b);
    if o.Fail? {
      return Err(o.error);
    }
    var bytes := b.GetBytes();
    return Ok(bytes);
  }

  // Properties of the searches.

  /** `GlueIn` returns the earliest glue record for `host`, and nothing only
      when `rs` holds none. */
  lemma {:induction false} GlueInFirst(rs: seq<DnsRecord>, host: Name)
    ensures GlueIn(rs, host).Some? ==>
      exists i :: 0 <= i < |rs| && rs[i] == GlueIn(rs, host).value && IsGlue(rs[i], host)
                  && forall k :: 0 <= k < i ==> !IsGlue(rs[k], host)
    ensures GlueIn(rs, host).None? <==> forall k :: 0 <= k < |rs| ==> !IsGlue(rs[k], host)
    decreases |rs|
  {
    if rs != [] {
      GlueInFirst(rs[1..], host);
      if !IsGlue(rs[0], host) {
        if GlueIn(rs, host).Some? {
          var i :| 0 <= i < |rs[1..]| && rs[1..][i] == GlueIn(rs, host).value && IsGlue(rs[1..][i], host)
                   && forall k :: 0 <= k < i ==> !IsGlue(rs[1..][k], host);
          assert rs[i + 1] == rs[1..][i];
          forall k | 0 <= k < i + 1 ensures !IsGlue(rs[k], host) {
            if k > 0 {
              assert rs[k] == rs[1..][k - 1];
            }
          }
        } else {
          forall k | 0 <= k < |rs| ensures !IsGlue(rs[k], host) {
            if k > 0 {
              assert rs[k] == rs[1..][k - 1];
            }
          }
        }
      }
    }
  }

  /** `FirstGlue` returns glue for one of the name servers, from `rs`, and
      every earlier name server has none; it returns nothing only when no
      name server has glue. */
  lemma {:induction false} FirstGlueSound(nss: seq<DnsRecord>, rs: seq<DnsRecord>)
    requires forall i :: 0 <= i < |nss| ==> nss[i].data.NsData?
    ensures FirstGlue(nss, rs).Some? ==>
      exists j :: 0 <= j < |nss| && FirstGlue(nss, rs) == GlueIn(rs, nss[j].data.host)
                  && forall k :: 0 <= k < j ==> GlueIn(rs, nss[k].data.host).None?
    ensures FirstGlue(nss, rs).None? <==> forall j :: 0 <= j < |nss| ==> GlueIn(rs, nss[j].data.host).None?
    decreases |nss|
  {
    if nss != [] {
      FirstGlueSound(nss[1..], rs);
      if GlueIn(rs, nss[0].data.host).None? {
        if FirstGlue(nss, rs).Some? {
          var j :| 0 <= j < |nss[1..]| && FirstGlue(nss[1..], rs) == GlueIn(rs, nss[1..][j].data.host)
                   && forall k :: 0 <= k < j ==> GlueIn(rs, nss[1..][k].data.host).None?;
          assert nss[j + 1] == nss[1..][j];
          forall k | 0 <= k < j + 1 ensures GlueIn(rs, nss[k].data.host).None? {
            if k > 0 {
              assert nss[k] == nss[1..][k - 1];
            }
          }
        } else {
          forall k | 0 <= k < |nss| ensures GlueIn(rs, nss[k].data.host).None? {
            if k > 0 {
              assert nss[k] == nss[1..][k - 1];
            }
          }
        }
      }
    }
  }

  /** `GetResolvedNS` returns a resources-section A record owned by the host
      of an authority NS record that delegates `qName`; it returns nil
      exactly when no such name server has such a record. */
  lemma ResolvedNSSound(m: Message, qName: Name)
    ensures ResolvedNS(m, qName).Some? ==>
      ResolvedNS(m, qName).value in m.resources
      && exists ns :: ns in m.authorities && Delegates(ns, qName) && IsGlue(ResolvedNS(m, qName).value, ns.data.host)
    ensures ResolvedNS(m, qName).None? <==>
      forall ns, r :: ns in m.authorities && Delegates(ns, qName) && r in m.resources ==> !IsGlue(r, ns.data.host)
  {
    var nss := AuthorityNameServers(m, qName);
    NameServersDelegate(m.authorities, qName);
    FirstGlueSound(nss, m.resources);
    if ResolvedNS(m, qName).Some? {
      var j :| 0 <= j < |nss| && FirstGlue(nss, m.resources) == GlueIn(m.resources, nss[j].data.host)
               && forall k :: 0 <= k < j ==> GlueIn(m.resources, nss[k].data.host).None?;
      GlueInFirst(m.resources, nss[j].data.host);
      assert nss[j] in m.authorities && Delegates(nss[j], qName);
    } else {
      forall ns, r | ns in m.authorities && Delegates(ns, qName) && r in m.resources
        ensures !IsGlue(r, ns.data.host)
      {
        var j :| 0 <= j < |nss| && nss[j] == ns;
        GlueInFirst(m.resources, ns.data.host);
        var i :| 0 <= i < |m.resources| && m.resources[i] == r;
      }
    }
  }

  /** `GetUnresolvedNS` returns the first authority record that delegates
      `qName`, and nil exactly when there is none. */
  lemma {:induction false} UnresolvedNSFirst(rs: seq<DnsRecord>, qName: Name)
    ensures NameServersIn(rs, qName) == [] <==> forall r :: r in rs ==> !Delegates(r, qName)
    ensures NameServersIn(rs, qName) != [] ==>
      exists i :: 0 <= i < |rs| && rs[i] == NameServersIn(rs, qName)[0] && Delegates(rs[i], qName)
                  && forall k :: 0 <= k < i ==> !Delegates(rs[k], qName)
    decreases |rs|
  {
    if rs != [] {
      UnresolvedNSFirst(rs[1..], qName);
      if !Delegates(rs[0], qName) {
        assert NameServersIn(rs, qName) == NameServersIn(rs[1..], qName);
        if NameServersIn(rs, qName) != [] {
          var i :| 0 <= i < |rs[1..]| && rs[1..][i] == NameServersIn(rs[1..], qName)[0] && Delegates(rs[1..][i], qName)
                   && forall k :: 0 <= k < i ==> !Delegates(rs[1..][k], qName);
          assert rs[i + 1] == rs[1..][i];
          forall k | 0 <= k < i + 1 ensures !Delegates(rs[k], qName) {
            if k > 0 {
              assert rs[k] == rs[1..][k - 1];
            }
          }
        } else {
          forall r | r in rs ensures !Delegates(r, qName) {
            if r != rs[0] {
              assert r in rs[1..];
            }
          }
        }
      }
    }
  }

  lemma UnresolvedNSSound(m: Message, qName: Name)
    ensures UnresolvedNS(m, qName).None? <==> forall r :: r in m.authorities ==> !Delegates(r, qName)
    ensures UnresolvedNS(m, qName).Some? ==>
      exists i :: 0 <= i < |m.authorities| && m.authorities[i] == UnresolvedNS(m, qName).value
                  && Delegates(m.authorities[i], qName)
                  && forall k :: 0 <= k < i ==> !Delegates(m.authorities[k], qName)
  {
    UnresolvedNSFirst(m.authorities, qName);
  }

  /** `GetFirstARecord` returns the earliest answer of type A, which holds A
      data, and nil only when no answer has type A. */
  lemma {:induction false} FirstARecordSound(rs: seq<DnsRecord>)
    requires WellTypedRecords(rs)
    ensures FirstOfTypeA(rs).Some? ==>
      exists i :: 0 <= i < |rs| && rs[i] == FirstOfTypeA(rs).value && rs[i].preamble.queryType == A
                  && rs[i].data.AData? && forall k :: 0 <= k < i ==> rs[k].preamble.queryType != A
    ensures FirstOfTypeA(rs).None? <==> forall k :: 0 <= k < |rs| ==> rs[k].preamble.queryType != A
    decreases |rs|
  {
    if rs != [] {
      assert VariantOf(rs[0].preamble.queryType, rs[0].data);
      assert WellTypedRecords(rs[1..]) by {
        forall i | 0 <= i < |rs[1..]| ensures VariantOf(rs[1..][i].preamble.queryType, rs[1..][i].data) {
          assert rs[1..][i] == rs[i + 1];
        }
      }
      FirstARecordSound(rs[1..]);
      if rs[0].preamble.queryType != A {
        if FirstOfTypeA(rs).Some? {
          var i :| 0 <= i < |rs[1..]| && rs[1..][i] == FirstOfTypeA(rs[1..]).value && rs[1..][i].preamble.queryType == A
                   && rs[1..][i].data.AData? && forall k :: 0 <= k < i ==> rs[1..][k].preamble.queryType != A;
          assert rs[i + 1] == rs[1..][i];
          forall k | 0 <= k < i + 1 ensures rs[k].preamble.queryType != A {
            if k > 0 {
              assert rs[k] == rs[1..][k - 1];
            }
          }
        } else {
          forall k | 0 <= k < |rs| ensures rs[k].preamble.queryType != A {
            if k > 0 {
              assert rs[k] == rs[1..][k - 1];
            }
          }
        }
      }
    }
  }

  /** The owner test is a plain string suffix: any text `x` in front of
      the owner makes a delegated name, whether or not `x` ends with a dot
      (so an owner that starts in the middle of a label of `qName` still
      delegates it), and the empty owner delegates every name. */
  lemma SuffixIgnoresLabels(r: DnsRecord, qName: Name, x: Name)
    requires r.preamble.queryType == NS && r.data.NsData?
    ensures Delegates(r, x + r.preamble.name)
    ensures r.preamble.name == [] ==> Delegates(r, qName)
    ensures qName == [0x61, 0x62, 0x2E, 0x63] && r.preamble.name == [0x62, 0x2E, 0x63] ==> Delegates(r, qName)
  {
    assert (x + r.preamble.name)[|x|..] == r.preamble.name;
    if qName == [0x61, 0x62, 0x2E, 0x63] && r.preamble.name == [0x62, 0x2E, 0x63] {
      assert qName[1..] == r.preamble.name;
    }
  }

  // Properties of the additions.

  /** A header without its four counts. */
  function Flags(h: DnsHeader): DnsHeader {
    h.(questionsCount := 0, answersCount := 0, authoritiesCount := 0, resourcesCount := 0)
  }

  /** `uint16` arithmetic: adding one to a truncated count is adding one and
      then truncating. */
  lemma Truncate16Step(x: nat)
    ensures Truncate16(Truncate16(x) + 1) == Truncate16(x + 1)
  {
    if x >= 0x1_0000 {
      assert Truncate16(x) == x % 0x1_0000;
      assert x + 1 == (x % 0x1_0000 + 1) + (x / 0x1_0000) * 0x1_0000;
    }
  }

  /** `AddAnswer`, `AddAuthority` and `AddResource` append to their own
      section and add one to its count, wrapping at 16 bits; the questions,
      the other sections, their counts and the flags are unchanged. */
  lemma WithRecordEffect(m: Message, s: RecordSection, t: RecordSection, r: DnsRecord)
    ensures SectionOf(WithRecord(m, s, r), s) == SectionOf(m, s) + [r]
    ensures CountOf(WithRecord(m, s, r), s) == Truncate16(CountOf(m, s) + 1)
    ensures CountOf(m, s) == 0xFFFF ==> CountOf(WithRecord(m, s, r), s) == 0
    ensures t != s ==> SectionOf(WithRecord(m, s, r), t) == SectionOf(m, t) && CountOf(WithRecord(m, s, r), t) == CountOf(m, t)
    ensures WithRecord(m, s, r).questions == m.questions
    ensures WithRecord(m, s, r).header.questionsCount == m.header.questionsCount
    ensures Flags(WithRecord(m, s, r).header) == Flags(m.header)
  {
  }

  /** `AddQuestion` appends the question and adds one to its count, wrapping
      at 16 bits; nothing else changes. */
  lemma WithQuestionEffect(m: Message, q: DnsQuestion)
    ensures WithQuestion(m, q).questions == m.questions + [q]
    ensures WithQuestion(m, q).header.questionsCount == Truncate16(m.header.questionsCount + 1)
    ensures m.header.questionsCount == 0xFFFF ==> WithQuestion(m, q).header.questionsCount == 0
    ensures forall t :: SectionOf(WithQuestion(m, q), t) == SectionOf(m, t) && CountOf(WithQuestion(m, q), t) == CountOf(m, t)
    ensures Flags(WithQuestion(m, q).header) == Flags(m.header)
  {
  }

  /** A run of additions to one section appends the records in order and
      adds their number to the count, modulo 2^16; nothing else changes. */
  lemma {:induction false} WithRecordsEffect(m: Message, s: RecordSection, t: RecordSection, rs: seq<DnsRecord>)
    ensures SectionOf(WithRecords(m, s, rs), s) == SectionOf(m, s) + rs
    ensures CountOf(WithRecords(m, s, rs), s) == Truncate16(CountOf(m, s) + |rs|)
    ensures t != s ==> SectionOf(WithRecords(m, s, rs), t) == SectionOf(m, t) && CountOf(WithRecords(m, s, rs), t) == CountOf(m, t)
    ensures WithRecords(m, s, rs).questions == m.questions
    ensures WithRecords(m, s, rs).header.questionsCount == m.header.questionsCount
    ensures Flags(WithRecords(m, s, rs).header) == Flags(m.header)
    decreases |rs|
  {
    if rs != [] {
      var init, last := rs[..|rs| - 1], rs[|rs| - 1];
      var before := WithRecords(m, s, init);
      WithRecordsEffect(m, s, t, init);
      WithRecordEffect(before, s, t, last);
      assert init + [last] == rs;
      Truncate16Step(CountOf(m, s) + |init|);
    }
  }

  // Properties of reading.

  lemma {:induction false} RecordsAtWellTyped(buf: seq<byte>, p: nat, n: nat)
    requires |buf| == BufferSize && p < BufferSize
    ensures WellTypedRecords(RecordsAt(buf, p, n).items)
    decreases n
  {
    if n > 0 {
      RecordCarriesPreamble(buf, p);
      var rec := RecordAt(buf, p);
      if rec.result.Ok? {
        RecordsAtWellTyped(buf, rec.next, n - 1);
        WellTypedCons(rec.result.value, RecordsAt(buf, rec.next, n - 1).items);
      }
    }
  }

  lemma WellTypedCons(r: DnsRecord, rest: seq<DnsRecord>)
    requires VariantOf(r.preamble.queryType, r.data) && WellTypedRecords(rest)
    ensures WellTypedRecords([r] + rest)
  {
    forall i | 0 <= i < |[r] + rest|
      ensures VariantOf(([r] + rest)[i].preamble.queryType, ([r] + rest)[i].data)
    {
      if i > 0 {
        assert ([r] + rest)[i] == rest[i - 1];
      }
    }
  }

  /** Every record `DnsPacketFromRawBuffer` returns, even in a packet cut
      short by an error, carries the variant its type selects; a packet read
      without error has exactly as many entries in each section as its
      header counts. */
  lemma ParsedShape(buf: seq<byte>)
    requires |buf| == BufferSize
    ensures WellTyped(MessageAt(buf).message)
    ensures MessageAt(buf).message.header == HeaderAt(buf, 0).value
    ensures MessageAt(buf).outcome.Pass? ==>
      var m := MessageAt(buf).message;
      |m.questions| == m.header.questionsCount && |m.answers| == m.header.answersCount
      && |m.authorities| == m.header.authoritiesCount && |m.resources| == m.header.resourcesCount
  {
    var h := HeaderAt(buf, 0);
    var qs := QuestionsAt(buf, h.next, h.value.questionsCount);
    assert WellTypedRecords([]);
    if qs.outcome.Pass? {
      var an := RecordsAt(buf, qs.next, h.value.answersCount);
      RecordsAtWellTyped(buf, qs.next, h.value.answersCount);
      if an.outcome.Pass? {
        var au := RecordsAt(buf, an.next, h.value.authoritiesCount);
        RecordsAtWellTyped(buf, an.next, h.value.authoritiesCount);
        if au.outcome.Pass? {
          RecordsAtWellTyped(buf, au.next, h.value.resourcesCount);
        }
      }
    }
  }

  /** A reply is decoded from the 512-byte receive buffer, so bytes past the
      end of a short reply read as the buffer's zero padding: a reply whose
      one byte is 1 reads as identifier 0x0100 with no flags and empty
      sections, and without error. */
  lemma ShortReplyReadsPadding(buf: seq<byte>)
    requires |buf| == BufferSize && buf[0] == 1
    requires forall i :: 1 <= i < BufferSize ==> buf[i] == 0
    ensures MessageAt(buf).outcome == Pass
    ensures MessageAt(buf).message.header.id == 0x0100
    ensures !MessageAt(buf).message.header.isResponse && MessageAt(buf).message.header.resultCode == 0
    ensures MessageAt(buf).message.questions == [] && MessageAt(buf).message.answers == []
    ensures MessageAt(buf).message.authorities == [] && MessageAt(buf).message.resources == []
  {
    HeaderAtShape(buf, 0);
    CountsConsume(buf, 4);
    ReadU16Value(buf, 4);
    ReadU16Value(buf, 6);
    ReadU16Value(buf, 8);
    ReadU16Value(buf, 10);
  }

  // Round trip of `ToRawBuffer` and `DnsPacketFromRawBuffer`.

  lemma {:induction false} QuestionsEmissionCons(q: DnsQuestion, qs: seq<DnsQuestion>)
    ensures QuestionsEmission([q] + qs) == Then(QuestionEmission(q), QuestionsEmission(qs))
    decreases |qs|
  {
    var e := QuestionEmission(q);
    if qs == [] {
      assert [q] + qs == [q] && [q][..0] == [];
      assert [] + e.bytes == e.bytes && e.bytes + [] == e.bytes;
    } else {
      var init := qs[..|qs| - 1];
      assert ([q] + qs)[..|[q] + qs| - 1] == [q] + init;
      QuestionsEmissionCons(q, init);
      ThenAssociative(e, QuestionsEmission(init), QuestionEmission(qs[|qs| - 1]));
    }
  }

  lemma {:induction false} RecordsEmissionCons(r: DnsRecord, rs: seq<DnsRecord>)
    requires Writable(r.preamble, r.data) && AllWritable(rs)
    ensures AllWritable([r] + rs)
    ensures RecordsEmission([r] + rs) == Then(RecordEmission(r), RecordsEmission(rs))
    decreases |rs|
  {
    var e := RecordEmission(r);
    assert AllWritable([r] + rs) by {
      forall i | 0 <= i < |[r] + rs| ensures Writable(([r] + rs)[i].preamble, ([r] + rs)[i].data) {
        if i > 0 {
          assert ([r] + rs)[i] == rs[i - 1];
        }
      }
    }
    if rs == [] {
      assert [r] + rs == [r] && [r][..0] == [];
      assert [] + e.bytes == e.bytes && e.bytes + [] == e.bytes;
    } else {
      var init := rs[..|rs| - 1];
      assert ([r] + rs)[..|[r] + rs| - 1] == [r] + init;
      RecordsEmissionCons(r, init);
      ThenAssociative(e, RecordsEmission(init), RecordEmission(rs[|rs| - 1]));
    }
  }

  /** What two writers in sequence put at `p`, when the first succeeds:
      the first one's bytes, then the second one's. */
  lemma SplitThen(buf: seq<byte>, p: nat, e: Emission, e1: Emission, e2: Emission)
    requires e == Then(e1, e2) && e1.ok
    requires p + |e.bytes| <= |buf| && buf[p..p + |e.bytes|] == e.bytes
    ensures e.ok <==> e2.ok
    ensures |e.bytes| == |e1.bytes| + |e2.bytes|
    ensures buf[p..p + |e1.bytes|] == e1.bytes
    ensures buf[p + |e1.bytes|..p + |e1.bytes| + |e2.bytes|] == e2.bytes
  {
    Split2(buf, p, e.bytes, e1.bytes, e2.bytes);
  }

  /** The bytes of a run of entries seen from the front: the first entry,
      then the rest. */
  ghost function Forward<T>(enc: T --> Emission, xs: seq<T>): Emission
    requires forall i :: 0 <= i < |xs| ==> enc.requires(xs[i])
    decreases |xs|
  {
    if xs == [] then Emit([])
    else
      assert forall i :: 0 <= i < |xs[1..]| ==> xs[1..][i] == xs[i + 1];
      Then(enc(xs[0]), Forward(enc, xs[1..]))
  }

  /** Every entry of `xs` reads back wherever it sits in `buf`. */
  ghost predicate ReadBackIn<T>(dec: (seq<byte>, nat) --> Decoded<T>, enc: T --> Emission, buf: seq<byte>, xs: seq<T>) {
    forall i :: 0 <= i < |xs| ==> ReadsBackAt(dec, enc, buf, xs[i])
  }

  lemma ReadBackTail<T>(dec: (seq<byte>, nat) --> Decoded<T>, enc: T --> Emission, buf: seq<byte>, xs: seq<T>)
    requires xs != [] && ReadBackIn(dec, enc, buf, xs)
    ensures ReadBackIn(dec, enc, buf, xs[1..])
  {
    assert forall i :: 0 <= i < |xs[1..]| ==> xs[1..][i] == xs[i + 1];
  }

  /** Round trip of a section: the entries `e` a writer loop puts at `p`
      are the entries the count loop reads back from there, when each entry
      reads back on its own. */
  lemma {:induction false} SectionRoundTrip<T>(dec: (seq<byte>, nat) --> Decoded<T>, enc: T --> Emission, buf: seq<byte>,
                                               p: nat, xs: seq<T>, e: Emission)
    requires Reader(dec, buf) && ReadBackIn(dec, enc, buf, xs) && e == Forward(enc, xs)
    requires p + |e.bytes| < BufferSize && buf[p..p + |e.bytes|] == e.bytes
    ensures e.ok
    ensures SectionAt(dec, buf, p, |xs|) == Section(xs, p + |e.bytes|, Pass)
    decreases |xs|
  {
    if xs != [] {
      ReadBackTail(dec, enc, buf, xs);
      var e1, e2 := enc(xs[0]), Forward(enc, xs[1..]);
      SplitThen(buf, p, e, e1, e2);
      var next := p + |e1.bytes|;
      assert dec(buf, p) == Decoded(Ok(xs[0]), next);
      SectionRoundTrip(dec, enc, buf, next, xs[1..], e2);
      assert [xs[0]] + xs[1..] == xs;
    }
  }

  /** The question loop of `Write` emits the questions front to back. */
  lemma {:induction false} QuestionsFromFront(qs: seq<DnsQuestion>)
    ensures QuestionsEmission(qs) == Forward(QuestionEmission, qs)
    decreases |qs|
  {
    if qs != [] {
      assert qs == [qs[0]] + qs[1..];
      QuestionsEmissionCons(qs[0], qs[1..]);
      QuestionsFromFront(qs[1..]);
    }
  }

  /** A record loop of `Write` emits the records front to back. */
  lemma {:induction false} RecordsFromFront(rs: seq<DnsRecord>)
    requires AllWritable(rs)
    ensures forall i :: 0 <= i < |rs| ==> RecordEmission.requires(rs[i])
    ensures RecordsEmission(rs) == Forward(RecordEmission, rs)
    decreases |rs|
  {
    if rs != [] {
      var r, rest := rs[0], rs[1..];
      assert rs == [r] + rest;
      assert forall i :: 0 <= i < |rest| ==> rest[i] == rs[i + 1];
      RecordsEmissionCons(r, rest);
      RecordsFromFront(rest);
    }
  }

  /** Questions whose names have labels of 1 to 63 bytes each read back. */
  lemma QuestionsReadBack(buf: seq<byte>, qs: seq<DnsQuestion>)
    requires |buf| == BufferSize && forall i :: 0 <= i < |qs| ==> ValidName(qs[i].name)
    ensures ReadBackIn(QuestionAt, QuestionEmission, buf, qs)
  {
    forall i | 0 <= i < |qs|
      ensures ReadsBackAt(QuestionAt, QuestionEmission, buf, qs[i])
    {
      ValidQuestionReadsBack(buf, qs[i]);
    }
  }

  /** Every record carries a consistent preamble, payload and length. */
  predicate AllConsistent(rs: seq<DnsRecord>) {
    forall i :: 0 <= i < |rs| ==> Consistent(rs[i])
  }

  /** Consistent records each read back. */
  lemma RecordsReadBack(buf: seq<byte>, rs: seq<DnsRecord>)
    requires |buf| == BufferSize && AllConsistent(rs)
    ensures ReadBackIn(RecordAt, RecordEmission, buf, rs)
  {
    forall i | 0 <= i < |rs|
      ensures ReadsBackAt(RecordAt, RecordEmission, buf, rs[i])
    {
      ConsistentReadsBack(buf, rs[i]);
    }
  }

  /** The questions `e` that `Write` emits at `p` read back as the same
      questions, when every name has labels of 1 to 63 bytes. */
  lemma QuestionsRoundTrip(buf: seq<byte>, p: nat, qs: seq<DnsQuestion>, e: Emission)
    requires |buf| == BufferSize && forall i :: 0 <= i < |qs| ==> ValidName(qs[i].name)
    requires EmitsQuestions(qs, e) && Placed(buf, p, e)
    ensures e.ok
    ensures QuestionsAt(buf, p, |qs|) == Section(qs, p + |e.bytes|, Pass)
  {
    QuestionsReadBack(buf, qs);
    QuestionsSectionRoundTrip(buf, p, qs, e);
  }

  /** The question loop reads back the questions `e` the question loop of
      `Write` put at `p`, when each question reads back on its own. */
  lemma QuestionsSectionRoundTrip(buf: seq<byte>, p: nat, qs: seq<DnsQuestion>, e: Emission)
    requires |buf| == BufferSize && ReadBackIn(QuestionAt, QuestionEmission, buf, qs)
    requires e == QuestionsEmission(qs) && p + |e.bytes| < BufferSize && buf[p..p + |e.bytes|] == e.bytes
    ensures e.ok
    ensures QuestionsAt(buf, p, |qs|) == Section(qs, p + |e.bytes|, Pass)
  {
    QuestionReader(buf);
    QuestionsFromFront(qs);
    SectionRoundTrip(QuestionAt, QuestionEmission, buf, p, qs, e);
  }

  /** The records `e` that `Write` emits at `p` read back as the same
      records, when each is consistent. */
  lemma RecordsRoundTrip(buf: seq<byte>, p: nat, rs: seq<DnsRecord>, e: Emission)
    requires |buf| == BufferSize && AllConsistent(rs) && EmitsRecords(rs, e) && Placed(buf, p, e)
    ensures e.ok
    ensures RecordsAt(buf, p, |rs|) == Section(rs, p + |e.bytes|, Pass)
  {
    RecordsReadBack(buf, rs);
    RecordsSectionRoundTrip(buf, p, rs, e);
  }

  /** A record loop reads back the records `e` a record loop of `Write` put
      at `p`, when each record reads back on its own. */
  lemma RecordsSectionRoundTrip(buf: seq<byte>, p: nat, rs: seq<DnsRecord>, e: Emission)
    requires |buf| == BufferSize && AllWritable(rs) && ReadBackIn(RecordAt, RecordEmission, buf, rs)
    requires e == RecordsEmission(rs) && p + |e.bytes| < BufferSize && buf[p..p + |e.bytes|] == e.bytes
    ensures e.ok
    ensures RecordsAt(buf, p, |rs|) == Section(rs, p + |e.bytes|, Pass)
  {
    RecordReader(buf);
    RecordsFromFront(rs);
    SectionRoundTrip(RecordAt, RecordEmission, buf, p, rs, e);
  }

  /** What `ToRawBuffer` can write so that it reads back: flags that fit
      their header fields, names with labels of 1 to 63 bytes, consistent
      records, sections whose lengths fit the 16-bit counts. */
  predicate Encodable(m: Message) {
    && m.header.opcode < 16 && m.header.resultCode < 16
    && (forall i :: 0 <= i < |m.questions| ==> ValidName(m.questions[i].name))
    && (AllConsistent(m.answers))
    && (AllConsistent(m.authorities))
    && (AllConsistent(m.resources))
    && |m.questions| < 0x1_0000 && |m.answers| < 0x1_0000
    && |m.authorities| < 0x1_0000 && |m.resources| < 0x1_0000
  }

  /** Where each of five consecutive parts of a prefix of `buf` sits, the
      parts starting at `0`, `o1`, `o2`, `o3` and `o4`. */
  lemma Pieces5(buf: seq<byte>, h: seq<byte>, q: seq<byte>, an: seq<byte>, au: seq<byte>, rs: seq<byte>,
                o1: nat, o2: nat, o3: nat, o4: nat)
    requires o1 == |h| && o2 == o1 + |q| && o3 == o2 + |an| && o4 == o3 + |au|
    requires |h + q + an + au + rs| <= |buf| && buf[..|h + q + an + au + rs|] == h + q + an + au + rs
    ensures o4 + |rs| == |h + q + an + au + rs|
    ensures buf[0..o1] == h
    ensures buf[o1..o1 + |q|] == q
    ensures buf[o2..o2 + |an|] == an
    ensures buf[o3..o3 + |au|] == au
    ensures buf[o4..o4 + |rs|] == rs
  {
    var e := h + q + an + au + rs;
    assert buf[0..|e|] == e;
    SliceAt(buf, 0, e, 0, o1);
    SliceAt(buf, 0, e, o1, o2);
    SliceAt(buf, 0, e, o2, o3);
    SliceAt(buf, 0, e, o3, o4);
    SliceAt(buf, 0, e, o4, |e|);
    assert e[0..o1] == h;
    assert e[o1..o2] == q;
    assert e[o2..o3] == an;
    assert e[o3..o4] == au;
    assert e[o4..|e|] == rs;
  }

  /** What `Write` emits for an encodable packet: the header, then the four
      sections, none of them failing. */
  lemma MessageBytes(m: Message)
    requires Encodable(m) && Writables(m)
    ensures MessageEmission(m).ok
    ensures MessageEmission(m).bytes
            == HeaderBytes(WithCounts(m).header) + QuestionsEmission(m.questions).bytes
               + RecordsEmission(m.answers).bytes + RecordsEmission(m.authorities).bytes
               + RecordsEmission(m.resources).bytes
  {
    SectionsEncode(m);
  }

  /** The four section emissions whose bytes follow the header in what
      `Write` emits. */
  lemma MessageParts(m: Message) returns (hb: seq<byte>, q: Emission, an: Emission, au: Emission, rs: Emission)
    requires Encodable(m) && Writables(m)
    ensures hb == HeaderBytes(WithCounts(m).header) && |hb| == 12
    ensures EmitsQuestions(m.questions, q) && EmitsRecords(m.answers, an)
    ensures EmitsRecords(m.authorities, au) && EmitsRecords(m.resources, rs)
    ensures MessageEmission(m).ok
    ensures MessageEmission(m).bytes == hb + q.bytes + an.bytes + au.bytes + rs.bytes
  {
    hb := HeaderBytes(WithCounts(m).header);
    q, an, au, rs := QuestionsEmission(m.questions), RecordsEmission(m.answers),
                     RecordsEmission(m.authorities), RecordsEmission(m.resources);
    MessageBytes(m);
  }

  /** A header and four sections, emitted one after another at the start
      of `buf`, each sit where `Write` places them. */
  lemma PiecesPlaced(buf: seq<byte>, hb: seq<byte>, eq: Emission, ean: Emission, eau: Emission, ers: Emission)
    requires |hb| == 12
    requires |hb + eq.bytes + ean.bytes + eau.bytes + ers.bytes| < |buf|
    requires buf[..|hb + eq.bytes + ean.bytes + eau.bytes + ers.bytes|] == hb + eq.bytes + ean.bytes + eau.bytes + ers.bytes
    ensures buf[0..12] == hb
    ensures Placed(buf, 12, eq)
    ensures Placed(buf, 12 + |eq.bytes|, ean)
    ensures Placed(buf, 12 + |eq.bytes| + |ean.bytes|, eau)
    ensures Placed(buf, 12 + |eq.bytes| + |ean.bytes| + |eau.bytes|, ers)
  {
    var o2 := 12 + |eq.bytes|;
    var o3 := o2 + |ean.bytes|;
    Pieces5(buf, hb, eq.bytes, ean.bytes, eau.bytes, ers.bytes, 12, o2, o3, o3 + |eau.bytes|);
  }

  /** Round trip of `ToRawBuffer` and `DnsPacketFromRawBuffer`: the bytes
      written for an encodable packet, at the start of a 512-byte receive
      buffer, read back without error as the same packet, with the header
      counts equal to the section lengths. */
  lemma MessageRoundTrip(buf: seq<byte>, m: Message)
    requires |buf| == BufferSize && Encodable(m) && Writables(m)
    requires |MessageEmission(m).bytes| < BufferSize
    requires buf[..|MessageEmission(m).bytes|] == MessageEmission(m).bytes
    ensures MessageEmission(m).ok
    ensures MessageAt(buf) == Parsed(WithCounts(m), Pass)
  {
    var hb, q, an, au, rs := MessageParts(m);
    PiecesPlaced(buf, hb, q, an, au, rs);
    SectionsPlaced(buf, m, hb, q, an, au, rs);
  }

  /** A header followed by the four sections of an encodable packet, each
      laid out where `Write` places it, reads back as that packet with
      the header counts recomputed. */
  lemma SectionsPlaced(buf: seq<byte>, m: Message, hb: seq<byte>, eq: Emission, ean: Emission,
                       eau: Emission, ers: Emission)
    requires |buf| == BufferSize && Encodable(m)
    requires hb == HeaderBytes(WithCounts(m).header) && buf[0..12] == hb
    requires EmitsQuestions(m.questions, eq) && EmitsRecords(m.answers, ean)
    requires EmitsRecords(m.authorities, eau) && EmitsRecords(m.resources, ers)
    requires Placed(buf, 12, eq)
    requires Placed(buf, 12 + |eq.bytes|, ean)
    requires Placed(buf, 12 + |eq.bytes| + |ean.bytes|, eau)
    requires Placed(buf, 12 + |eq.bytes| + |ean.bytes| + |eau.bytes|, ers)
    ensures MessageAt(buf) == Parsed(WithCounts(m), Pass)
  {
    var h := WithCounts(m).header;
    var o2 := 12 + |eq.bytes|;
    var o3 := o2 + |ean.bytes|;
    var o4 := o3 + |eau.bytes|;
    HeadPlaced(buf, h, m.questions, eq);
    RecordSectionsPlaced(buf, m.answers, m.authorities, m.resources, ean, eau, ers, o2, o3, o4);
    MessageFromSections(buf, h, m.questions, m.answers, m.authorities, m.resources, o2, o3, o4, o4 + |ers.bytes|);
  }

  /** A header and the questions after it, laid out where `Write` places
      them, read back in full. */
  lemma HeadPlaced(buf: seq<byte>, h: DnsHeader, qs: seq<DnsQuestion>, eq: Emission)
    requires |buf| == BufferSize && buf[0..12] == HeaderBytes(h) && h.opcode < 16 && h.resultCode < 16
    requires forall i :: 0 <= i < |qs| ==> ValidName(qs[i].name)
    requires EmitsQuestions(qs, eq) && Placed(buf, 12, eq)
    ensures HeaderAt(buf, 0) == Got(h, 12)
    ensures QuestionsAt(buf, 12, |qs|) == Section(qs, 12 + |eq.bytes|, Pass)
  {
    HeaderRoundTrip(buf, 0, h);
    QuestionsRoundTrip(buf, 12, qs, eq);
  }

  /** Three record sections laid out one after another where `Write`
      places them read back in full. */
  lemma RecordSectionsPlaced(buf: seq<byte>, an: seq<DnsRecord>, au: seq<DnsRecord>, rs: seq<DnsRecord>,
                             ean: Emission, eau: Emission, ers: Emission, o2: nat, o3: nat, o4: nat)
    requires |buf| == BufferSize && AllConsistent(an) && AllConsistent(au) && AllConsistent(rs)
    requires EmitsRecords(an, ean) && EmitsRecords(au, eau) && EmitsRecords(rs, ers)
    requires Placed(buf, o2, ean) && o3 == o2 + |ean.bytes|
    requires Placed(buf, o3, eau) && o4 == o3 + |eau.bytes|
    requires Placed(buf, o4, ers)
    ensures o4 + |ers.bytes| < BufferSize
    ensures RecordsAt(buf, o2, |an|) == Section(an, o3, Pass)
    ensures RecordsAt(buf, o3, |au|) == Section(au, o4, Pass)
    ensures RecordsAt(buf, o4, |rs|) == Section(rs, o4 + |ers.bytes|, Pass)
  {
    RecordsRoundTrip(buf, o2, an, ean);
    RecordsRoundTrip(buf, o3, au, eau);
    RecordsRoundTrip(buf, o4, rs, ers);
  }

  /** `DnsPacketFromRawBuffer` over a buffer whose header and sections each
      read back in full. */
  lemma MessageFromSections(buf: seq<byte>, h: DnsHeader, qs: seq<DnsQuestion>, an: seq<DnsRecord>,
                            au: seq<DnsRecord>, rs: seq<DnsRecord>, o2: nat, o3: nat, o4: nat, o5: nat)
    requires |buf| == BufferSize && o2 < BufferSize && o3 < BufferSize && o4 < BufferSize
    requires HeaderAt(buf, 0) == Got(h, 12)
    requires h.questionsCount == |qs| && h.answersCount == |an|
    requires h.authoritiesCount == |au| && h.resourcesCount == |rs|
    requires QuestionsAt(buf, 12, |qs|) == Section(qs, o2, Pass)
    requires RecordsAt(buf, o2, |an|) == Section(an, o3, Pass)
    requires RecordsAt(buf, o3, |au|) == Section(au, o4, Pass)
    requires RecordsAt(buf, o4, |rs|) == Section(rs, o5, Pass)
    ensures MessageAt(buf) == Parsed(Message(h, qs, an, au, rs), Pass)
  {
  }

  /** An encodable packet's sections all encode. */
  lemma SectionsEncode(m: Message)
    requires Encodable(m)
    ensures Writables(m)
    ensures QuestionsEmission(m.questions).ok && RecordsEmission(m.answers).ok
    ensures RecordsEmission(m.authorities).ok && RecordsEmission(m.resources).ok
  {
    QuestionsEncode(m.questions);
    RecordsEncode(m.answers);
    RecordsEncode(m.authorities);
    RecordsEncode(m.resources);
  }

  lemma {:induction false} QuestionsEncode(qs: seq<DnsQuestion>)
    requires forall i :: 0 <= i < |qs| ==> ValidName(qs[i].name)
    ensures QuestionsEmission(qs).ok
    decreases |qs|
  {
    if qs != [] {
      var init := qs[..|qs| - 1];
      assert forall i :: 0 <= i < |init| ==> init[i] == qs[i];
      QuestionsEncode(init);
      ValidNameEncodes(qs[|qs| - 1].name);
    }
  }

  lemma {:induction false} RecordsEncode(rs: seq<DnsRecord>)
    requires AllConsistent(rs)
    ensures AllWritable(rs) && RecordsEmission(rs).ok
    decreases |rs|
  {
    if rs != [] {
      var init := rs[..|rs| - 1];
      assert forall i :: 0 <= i < |init| ==> init[i] == rs[i];
      RecordsEncode(init);
      ConsistentEmission(rs[|rs| - 1]);
    }
  }


}
