/** The resolver: answering a client's query by following delegations from
    a root server, and the packets it builds on the way. The UDP exchange
    of `Resolver.Lookup` is a parameter, `Transport`. */
module Resolver {
  import opened Wire
  import opened Names
  import opened Common
  import opened Ip
  import opened Header
  import opened Question
  import opened Record
  import opened Packet

  /** `Resolver.Lookup`: asks the server at an address for a name and a
      type, and returns the packet read from its reply or the error of the
      exchange. */
  type Transport = (string, Name, u16) -> Result<Message>

  /** Every reply the transport returns is well typed, as
      `DnsPacketFromRawBuffer` builds its packets. */
  ghost predicate SoundTransport(t: Transport) {
    forall server, name, qType :: t(server, name, qType).Ok? ==> WellTyped(t(server, name, qType).value)
  }

  // One turn of the `LookupRecursive` loop.

  /** What `LookupRecursive` does with a reply: return it, ask the next
      server, or first look up the address of a name server. */
  datatype Decision = Return | ContinueWith(server: string) | SubResolve(host: Name)

  /** `isFinalResultFound`: answers and no error. */
  predicate Answered(m: Message) {
    |m.answers| > 0 && m.header.resultCode == NOERROR
  }

  /** A reply the loop returns as it is: answered, or the name does not
      exist. */
  predicate Terminal(m: Message) {
    Answered(m) || m.header.resultCode == NXDOMAIN
  }

  /** The decision for the reply `m` to a query for `qName`. */
  function Step(m: Message, qName: Name): Decision
    requires WellTypedRecords(m.resources)
  {
    if Terminal(m) then Return
    else
      DelegationShape(m, qName);
      match ResolvedNS(m, qName)
      case Some(glue) => ContinueWith(IPv4String(glue.data.ipv4))
      case None =>
        match UnresolvedNS(m, qName)
        case None => Return
        case Some(ns) => SubResolve(ns.data.host)
  }

  /** The address in the first A record among the answers of `m`, as the
      loop turns it into the next server. */
  function FirstAddress(m: Message): Option<string>
    requires WellTypedRecords(m.answers)
  {
    FirstAShape(m.answers);
    match FirstARecord(m)
    case None => None
    case Some(a) => Some(IPv4String(a.data.ipv4))
  }

  /** The glue `GetResolvedNS` finds holds a four-byte address, and the
      record `GetUnresolvedNS` finds holds a host name. */
  lemma DelegationShape(m: Message, qName: Name)
    requires WellTypedRecords(m.resources)
    ensures ResolvedNS(m, qName).Some? ==>
      ResolvedNS(m, qName).value.data.AData? && |ResolvedNS(m, qName).value.data.ipv4.octets| == 4
    ensures UnresolvedNS(m, qName).Some? ==> UnresolvedNS(m, qName).value.data.NsData?
  {
    ResolvedNSSound(m, qName);
    UnresolvedNSSound(m, qName);
  }

  /** The record `GetFirstARecord` finds holds a four-byte address. */
  lemma FirstAShape(rs: seq<DnsRecord>)
    requires WellTypedRecords(rs)
    ensures FirstOfTypeA(rs).Some? ==> FirstOfTypeA(rs).value.data.AData? && |FirstOfTypeA(rs).value.data.ipv4.octets| == 4
  {
    FirstARecordSound(rs);
  }

  /** `LookupRecursive` from the server at `server`, with the configured
      root `root` for the name-server lookups. Both the next turn of the
      loop and a nested lookup get one less than `fuel`, so `fuel` bounds
      the depth of the whole tree of turns: loop turns and nesting
      together. */
  function Lookup(t: Transport, root: string, server: string, qName: Name, qType: u16, fuel: nat): (r: Result<Message>)
    requires SoundTransport(t)
    ensures r.Ok? ==> WellTyped(r.value)
    decreases fuel, 1
  {
    if fuel == 0 then Err(LookupUnfinished)
    else
      match t(server, qName, qType)
      case Err(e) => Err(e)
      case Ok(reply) => After(t, root, reply, qName, qType, fuel)
  }

  /** What the loop does with the reply `reply` on a turn with `fuel` turns
      left. */
  function After(t: Transport, root: string, reply: Message, qName: Name, qType: u16, fuel: nat): (r: Result<Message>)
    requires SoundTransport(t) && fuel > 0 && WellTyped(reply)
    ensures r.Ok? ==> WellTyped(r.value)
    decreases fuel, 0
  {
    match Step(reply, qName)
    case Return => Ok(reply)
    case ContinueWith(next) => Lookup(t, root, next, qName, qType, fuel - 1)
    case SubResolve(host) =>
      match Lookup(t, root, root, host, A, fuel - 1)
      case Err(e) => Err(e)
      case Ok(sub) =>
        match FirstAddress(sub)
        case None => Ok(reply)
        case Some(next) => Lookup(t, root, next, qName, qType, fuel - 1)
  }

  /** The packet object a reply arrives in. */
  method PacketOf(m: Message) returns (p: DnsPacket)
    ensures fresh(p) && p.Value() == m
  {
    p := new DnsPacket(m.header.id);
    p.header, p.questions, p.answers, p.authorities, p.resources :=
      m.header, m.questions, m.answers, m.authorities, m.resources;
  }

  /** `LookupRecursive`: the loop over servers, starting at the root, with a
      nested lookup of a name server's address when a delegation carries
      no glue. */
  method LookupRecursive(t: Transport, root: string, qName: Name, qType: u16, fuel: nat) returns (r: Result<Message>)
    requires SoundTransport(t)
    ensures r == Lookup(t, root, root, qName, qType, fuel)
    decreases fuel, 1
  {
    ghost var goal := Lookup(t, root, root, qName, qType, fuel);
    var ns := root;
    var f: nat := fuel;
    while true
      invariant f <= fuel
      invariant Lookup(t, root, ns, qName, qType, f) == goal
      decreases f
    {
      if f == 0 {
        return Err(LookupUnfinished);
      }
      var done, next := LookupTurn(t, root, ns, qName, qType, f);
      if done.Some? {
        return done.value;
      }
      ns, f := next, f - 1;
    }
  }

  /** One turn of the loop of `LookupRecursive` at the server `ns`: either
      the result of the whole lookup, or the server the loop goes on with. */
  method LookupTurn(t: Transport, root: string, ns: string, qName: Name, qType: u16, f: nat)
    returns (done: Option<Result<Message>>, next: string)
    requires SoundTransport(t) && f > 0
    ensures done.Some? ==> done.value == Lookup(t, root, ns, qName, qType, f)
    ensures done.None? ==> Lookup(t, root, next, qName, qType, f - 1) == Lookup(t, root, ns, qName, qType, f)
    decreases f, 0
  {
    next := ns;
    var reply := t(ns, qName, qType);
    if reply.Err? {
      return Some(Err(reply.error)), next;
    }
    var response := reply.value;
    if |response.answers| > 0 && response.header.resultCode == NOERROR {
      TurnReturns(t, root, ns, qName, qType, f, response);
      return Some(Ok(response)), next;
    }
    if response.header.resultCode == NXDOMAIN {
      TurnReturns(t, root, ns, qName, qType, f, response);
      return Some(Ok(response)), next;
    }
    var packet := PacketOf(response);
    var resolved := packet.GetResolvedNS(qName);
    if resolved.Some? {
      DelegationShape(response, qName);
      next := IPv4String(resolved.value.data.ipv4);
      TurnContinues(t, root, ns, qName, qType, f, response, next);
      return None, next;
    }
    var unresolved := packet.GetUnresolvedNS(qName);
    if unresolved.None? {
      TurnReturns(t, root, ns, qName, qType, f, response);
      return Some(Ok(response)), next;
    }
    DelegationShape(response, qName);
    var host := unresolved.value.data.host;
    var sub := LookupRecursive(t, root, host, A, f - 1);
    TurnDescends(t, root, ns, qName, qType, f, response, host);
    if sub.Err? {
      return Some(Err(sub.error)), next;
    }
    var subPacket := PacketOf(sub.value);
    var newNS := subPacket.GetFirstARecord();
    if newNS.None? {
      return Some(Ok(response)), next;
    }
    FirstAShape(sub.value.answers);
    next := IPv4String(newNS.value.data.ipv4);
    assert FirstAddress(sub.value) == Some(next);
    return None, next;
  }

  /** A turn on a reply the loop returns: the lookup ends with that reply. */
  lemma TurnReturns(t: Transport, root: string, server: string, qName: Name, qType: u16, fuel: nat, reply: Message)
    requires SoundTransport(t) && fuel > 0 && t(server, qName, qType) == Ok(reply)
    requires Step(reply, qName) == Return
    ensures Lookup(t, root, server, qName, qType, fuel) == Ok(reply)
  {
  }

  /** A turn on a reply with glue: the lookup goes on at the glue address. */
  lemma TurnContinues(t: Transport, root: string, server: string, qName: Name, qType: u16, fuel: nat,
                      reply: Message, next: string)
    requires SoundTransport(t) && fuel > 0 && t(server, qName, qType) == Ok(reply)
    requires Step(reply, qName) == ContinueWith(next)
    ensures Lookup(t, root, server, qName, qType, fuel) == Lookup(t, root, next, qName, qType, fuel - 1)
  {
  }

  /** A turn on a delegation without glue: the lookup fails with the nested
      lookup of the name server's address, returns the reply when that finds
      no A record, and otherwise goes on at the address found. */
  lemma TurnDescends(t: Transport, root: string, server: string, qName: Name, qType: u16, fuel: nat,
                     reply: Message, host: Name)
    requires SoundTransport(t) && fuel > 0 && t(server, qName, qType) == Ok(reply)
    requires Step(reply, qName) == SubResolve(host)
    ensures var sub := Lookup(t, root, root, host, A, fuel - 1);
      && (sub.Err? ==> Lookup(t, root, server, qName, qType, fuel) == Err(sub.error))
      && (sub.Ok? && FirstAddress(sub.value).None? ==> Lookup(t, root, server, qName, qType, fuel) == Ok(reply))
      && (sub.Ok? && FirstAddress(sub.value).Some? ==>
            Lookup(t, root, server, qName, qType, fuel)
            == Lookup(t, root, FirstAddress(sub.value).value, qName, qType, fuel - 1))
  {
  }

  /** The decision on a reply: return it when it answers or denies the
      name, or when no authority record delegates the name; go on at the
      address of glue for a delegating name server when there is any;
      otherwise look up the first delegating name server, for which no glue
      came. */
  lemma StepDecides(m: Message, qName: Name)
    requires WellTypedRecords(m.resources)
    ensures Step(m, qName).Return? <==> Terminal(m) || forall r :: r in m.authorities ==> !Delegates(r, qName)
    ensures Step(m, qName).ContinueWith? <==>
      !Terminal(m)
      && exists ns, g :: ns in m.authorities && Delegates(ns, qName) && g in m.resources && IsGlue(g, ns.data.host)
    ensures Step(m, qName).ContinueWith? ==>
      exists ns, g :: ns in m.authorities && Delegates(ns, qName) && g in m.resources && IsGlue(g, ns.data.host)
                      && |g.data.ipv4.octets| == 4 && Step(m, qName).server == IPv4String(g.data.ipv4)
    ensures Step(m, qName).SubResolve? ==>
      (forall ns, g :: ns in m.authorities && Delegates(ns, qName) && g in m.resources ==> !IsGlue(g, ns.data.host))
      && exists i :: 0 <= i < |m.authorities| && Delegates(m.authorities[i], qName)
                     && m.authorities[i].data.host == Step(m, qName).host
                     && forall k :: 0 <= k < i ==> !Delegates(m.authorities[k], qName)
  {
    ResolvedNSSound(m, qName);
    UnresolvedNSSound(m, qName);
  }

  /** The lookup returns only a reply that some server gave to the question
      asked, and never one that carried glue to follow. */
  lemma {:induction false} LookupReturnsReply(t: Transport, root: string, server: string, qName: Name, qType: u16, fuel: nat)
    requires SoundTransport(t)
    ensures var r := Lookup(t, root, server, qName, qType, fuel);
      r.Ok? ==> (exists s :: t(s, qName, qType) == Ok(r.value)) && !Step(r.value, qName).ContinueWith?
    decreases fuel
  {
    if fuel > 0 && t(server, qName, qType).Ok? {
      var reply := t(server, qName, qType).value;
      match Step(reply, qName)
      case Return =>
        TurnReturns(t, root, server, qName, qType, fuel, reply);
      case ContinueWith(next) =>
        TurnContinues(t, root, server, qName, qType, fuel, reply, next);
        LookupReturnsReply(t, root, next, qName, qType, fuel - 1);
      case SubResolve(host) =>
        TurnDescends(t, root, server, qName, qType, fuel, reply, host);
        var sub := Lookup(t, root, root, host, A, fuel - 1);
        if sub.Ok? && FirstAddress(sub.value).Some? {
          LookupReturnsReply(t, root, FirstAddress(sub.value).value, qName, qType, fuel - 1);
        }
    }
  }

  /** More fuel changes nothing once a lookup has finished: the result of a
      lookup that did not run out of turns is the result of the unbounded
      loop. */
  lemma {:induction false} LookupFuelMonotone(t: Transport, root: string, server: string, qName: Name, qType: u16,
                                              fuel: nat, more: nat)
    requires SoundTransport(t) && fuel <= more
    requires Lookup(t, root, server, qName, qType, fuel) != Err(LookupUnfinished)
    ensures Lookup(t, root, server, qName, qType, more) == Lookup(t, root, server, qName, qType, fuel)
    decreases fuel, 1
  {
    if t(server, qName, qType).Ok? {
      AfterFuelMonotone(t, root, t(server, qName, qType).value, qName, qType, fuel, more);
    }
  }

  /** `LookupFuelMonotone` for what the loop does with one reply. */
  lemma {:induction false} AfterFuelMonotone(t: Transport, root: string, reply: Message, qName: Name, qType: u16,
                                             fuel: nat, more: nat)
    requires SoundTransport(t) && 0 < fuel <= more && WellTyped(reply)
    requires After(t, root, reply, qName, qType, fuel) != Err(LookupUnfinished)
    ensures After(t, root, reply, qName, qType, more) == After(t, root, reply, qName, qType, fuel)
    decreases fuel, 0
  {
    match Step(reply, qName)
    case Return =>
    case ContinueWith(next) =>
      LookupFuelMonotone(t, root, next, qName, qType, fuel - 1, more - 1);
    case SubResolve(host) =>
      var sub := Lookup(t, root, root, host, A, fuel - 1);
      if sub.Err? {
        assert After(t, root, reply, qName, qType, fuel) == Err(sub.error);
      }
      LookupFuelMonotone(t, root, root, host, A, fuel - 1, more - 1);
      if sub.Ok? && FirstAddress(sub.value).Some? {
        LookupFuelMonotone(t, root, FirstAddress(sub.value).value, qName, qType, fuel - 1, more - 1);
      }
  }

  /** A transport that returns the packets `DnsPacketFromRawBuffer` reads
      from its receive buffer without error. */
  ghost predicate ParsesReplies(t: Transport) {
    forall server, name, qType :: t(server, name, qType).Ok? ==>
      exists buf :: |buf| == BufferSize && MessageAt(buf) == Parsed(t(server, name, qType).value, Pass)
  }

  /** Such a transport is sound: the lookup's assumption on its transport
      holds for the one `Lookup` is. */
  lemma ParsedRepliesSound(t: Transport)
    requires ParsesReplies(t)
    ensures SoundTransport(t)
  {
    forall server, name, qType | t(server, name, qType).Ok?
      ensures WellTyped(t(server, name, qType).value)
    {
      var buf :| |buf| == BufferSize && MessageAt(buf) == Parsed(t(server, name, qType).value, Pass);
      ParsedShape(buf);
    }
  }

  // Answering a client.

  /** The header `ResolveQuery` starts its response from: the query's
      identifier, and the response, recursion-desired and
      recursion-available bits. */
  function ResponseHeader(id: u16): DnsHeader {
    EmptyHeader.(id := id, isResponse := true, recursionDesired := true, recursionAvailable := true)
  }

  /** A query `ResolveQuery` refuses with FORMERR. */
  predicate Malformed(q: Message) {
    |q.questions| == 0 || q.header.questionsCount == 0 || q.header.isResponse
  }

  /** The response carrying the first question and the three record
      sections of the lookup result `l`, added one by one. */
  function Assembled(id: u16, question: DnsQuestion, l: Message): Message {
    var base := Message(ResponseHeader(id).(resultCode := NOERROR), [], [], [], []);
    WithRecords(WithRecords(WithRecords(WithQuestion(base, question), Answers, l.answers),
                            Authorities, l.authorities), Resources, l.resources)
  }

  /** `ResolveQuery` for the query `q`. */
  function Resolve(t: Transport, root: string, q: Message, fuel: nat): Result<Message>
    requires SoundTransport(t)
  {
    if Malformed(q) then
      Ok(Message(ResponseHeader(q.header.id).(resultCode := FORMERR), [], [], [], []))
    else
      match Lookup(t, root, root, q.questions[0].name, q.questions[0].queryType, fuel)
      case Err(e) => Err(e)
      case Ok(l) => Ok(Assembled(q.header.id, q.questions[0], l))
  }

  /** Sections short enough for their 16-bit counts. */
  predicate Small(m: Message) {
    |m.answers| < 0x1_0000 && |m.authorities| < 0x1_0000 && |m.resources| < 0x1_0000
  }

  /** A malformed query gets a response, not an error: FORMERR, the query's
      identifier, the response and recursion bits, and nothing else. */
  lemma ResolveRefuses(t: Transport, root: string, q: Message, fuel: nat)
    requires SoundTransport(t) && Malformed(q)
    ensures Resolve(t, root, q, fuel).Ok?
    ensures var m := Resolve(t, root, q, fuel).value;
      && m.header.id == q.header.id && m.header.resultCode == FORMERR
      && m.header.isResponse && m.header.recursionDesired && m.header.recursionAvailable
      && m.questions == [] && m.answers == [] && m.authorities == [] && m.resources == []
      && WithCounts(m) == m
  {
  }

  /** The response to a well-formed query: the lookup's error when it
      fails; otherwise the first question and the three sections of the
      lookup's result, in order, under NOERROR whatever code the last server
      gave, with header counts that agree with the sections. */
  lemma ResolveAnswers(t: Transport, root: string, q: Message, fuel: nat)
    requires SoundTransport(t) && !Malformed(q)
    ensures var l := Lookup(t, root, root, q.questions[0].name, q.questions[0].queryType, fuel);
      && (Resolve(t, root, q, fuel).Ok? <==> l.Ok?)
      && (l.Err? ==> Resolve(t, root, q, fuel).error == l.error)
      && (l.Ok? ==>
            var m := Resolve(t, root, q, fuel).value;
            && m.header.id == q.header.id && m.header.resultCode == NOERROR
            && m.header.isResponse && m.header.recursionDesired && m.header.recursionAvailable
            && m.questions == [q.questions[0]]
            && m.answers == l.value.answers && m.authorities == l.value.authorities
            && m.resources == l.value.resources
            && (Small(l.value) ==> WithCounts(m) == m))
  {
    var l := Lookup(t, root, root, q.questions[0].name, q.questions[0].queryType, fuel);
    if l.Ok? {
      AssembledShape(q.header.id, q.questions[0], l.value);
    }
  }

  lemma AssembledShape(id: u16, question: DnsQuestion, l: Message)
    ensures var m := Assembled(id, question, l);
      && Flags(m.header) == Flags(ResponseHeader(id).(resultCode := NOERROR))
      && m.questions == [question] && m.header.questionsCount == 1
      && m.answers == l.answers && m.header.answersCount == Truncate16(|l.answers|)
      && m.authorities == l.authorities && m.header.authoritiesCount == Truncate16(|l.authorities|)
      && m.resources == l.resources && m.header.resourcesCount == Truncate16(|l.resources|)
  {
    var base := Message(ResponseHeader(id).(resultCode := NOERROR), [], [], [], []);
    var m1 := WithQuestion(base, question);
    WithQuestionEffect(base, question);
    var m2 := WithRecords(m1, Answers, l.answers);
    WithRecordsEffect(m1, Answers, Authorities, l.answers);
    WithRecordsEffect(m1, Answers, Resources, l.answers);
    var m3 := WithRecords(m2, Authorities, l.authorities);
    WithRecordsEffect(m2, Authorities, Answers, l.authorities);
    WithRecordsEffect(m2, Authorities, Resources, l.authorities);
    WithRecordsEffect(m3, Resources, Answers, l.resources);
    WithRecordsEffect(m3, Resources, Authorities, l.resources);
  }

  /** The loops of `ResolveQuery` that copy one section of the lookup result
      into the response, through `AddAnswer`, `AddAuthority` or
      `AddResource`. */
  method AddAll(p: DnsPacket, s: RecordSection, rs: seq<DnsRecord>)
    modifies p
    ensures p.Value() == WithRecords(old(p.Value()), s, rs)
  {
    var i := 0;
    while i < |rs|
      invariant 0 <= i <= |rs|
      invariant p.Value() == WithRecords(old(p.Value()), s, rs[..i])
      decreases |rs| - i
    {
      assert rs[..i + 1][..i] == rs[..i];
      match s {
        case Answers => p.AddAnswer(rs[i]);
        case Authorities => p.AddAuthority(rs[i]);
        case Resources => p.AddResource(rs[i]);
      }
      i := i + 1;
    }
    assert rs[..i] == rs;
  }

  /** `ResolveQuery`: refuses a malformed query with FORMERR, otherwise
      resolves its first question and copies the result into a fresh
      response. */
  method ResolveQuery(t: Transport, root: string, query: DnsPacket, fuel: nat) returns (r: Result<DnsPacket>)
    requires SoundTransport(t)
    ensures r.Ok? <==> Resolve(t, root, query.Value(), fuel).Ok?
    ensures r.Ok? ==> fresh(r.value) && r.value.Value() == Resolve(t, root, query.Value(), fuel).value
    ensures r.Err? ==> r.error == Resolve(t, root, query.Value(), fuel).error
  {
    var response := new DnsPacket(query.header.id);
    response.header := response.header.(isResponse := true, recursionDesired := true, recursionAvailable := true);
    if |query.questions| == 0 || query.header.questionsCount == 0 {
      response.header := response.header.(resultCode := FORMERR);
      return Ok(response);
    }
    if query.header.isResponse {
      response.header := response.header.(resultCode := FORMERR);
      return Ok(response);
    }
    var question := query.questions[0];
    var lookup := LookupRecursive(t, root, question.name, question.queryType, fuel);
    if lookup.Err? {
      return Err(lookup.error);
    }
    response.header := response.header.(resultCode := NOERROR);
    response.AddQuestion(question);
    AddAll(response, Answers, lookup.value.answers);
    AddAll(response, Authorities, lookup.value.authorities);
    AddAll(response, Resources, lookup.value.resources);
    return Ok(response);
  }

  // Packets built from scratch.

  /** `QueryToErrResponse` on a copy of the query: the response and
      recursion-available bits and the given result code. */
  function ErrResponse(q: Message, code: u8): Message {
    q.(header := q.header.(isResponse := true, recursionAvailable := true, resultCode := code))
  }

  /** `QueryToErrResponse`: the query itself is left unchanged. */
  method QueryToErrResponse(query: DnsPacket, code: u8) returns (r: DnsPacket)
    ensures fresh(r) && r.Value() == ErrResponse(query.Value(), code)
  {
    r := PacketOf(query.Value());
    r.header := r.header.(isResponse := true, recursionAvailable := true, resultCode := code);
  }

  /** `buildQueryPacket` with the identifier `id`: one question for the name
      and type, in the Internet class, with recursion desired. */
  function QueryMessage(id: u16, qName: Name, qType: u16): Message {
    WithQuestion(Message(EmptyHeader.(id := id, recursionDesired := true), [], [], [], []),
                 NewDnsQuestion().(name := qName, queryType := qType))
  }

  /** `buildQueryPacket`; the identifier `NewDnsPacket` draws at random is
      the parameter `id`. */
  method BuildQueryPacket(id: u16, qName: Name, qType: u16) returns (p: DnsPacket)
    ensures fresh(p) && p.Value() == QueryMessage(id, qName, qType)
  {
    p := new DnsPacket(id);
    p.header := p.header.(recursionDesired := true);
    var question := NewDnsQuestion();
    question := question.(name := qName, queryType := qType);
    p.AddQuestion(question);
  }

  /** `QueryToErrResponse` sets the response bit, the recursion-available
      bit and the result code, and keeps everything else of the query;
      applying it again with the same code changes nothing. */
  lemma ErrResponseShape(q: Message, code: u8)
    ensures var r := ErrResponse(q, code);
      && r.header.isResponse && r.header.recursionAvailable && r.header.resultCode == code
      && r.header.(isResponse := q.header.isResponse, recursionAvailable := q.header.recursionAvailable,
                   resultCode := q.header.resultCode) == q.header
      && r.questions == q.questions && r.answers == q.answers
      && r.authorities == q.authorities && r.resources == q.resources
      && ErrResponse(r, code) == r
  {
  }

  /** The query `buildQueryPacket` makes: one question for the name and type
      in class IN, a query (not a response) with recursion desired, no
      records, and header counts that agree with its sections. */
  lemma QueryShape(id: u16, qName: Name, qType: u16)
    ensures var m := QueryMessage(id, qName, qType);
      && m.questions == [DnsQuestion(qName, qType, IN)]
      && m.answers == [] && m.authorities == [] && m.resources == []
      && m.header.id == id && m.header.recursionDesired && !m.header.isResponse
      && m.header.opcode == 0 && m.header.resultCode == NOERROR
      && WithCounts(m) == m
  {
  }

  /** What `Lookup` sends reads back as the query built: written by
      `ToBuffer` into a buffer it fits, the query parses without error to
      the same packet. */
  lemma QueryRoundTrip(buf: seq<byte>, id: u16, qName: Name, qType: u16)
    requires |buf| == BufferSize && ValidName(qName)
    requires |MessageEmission(QueryMessage(id, qName, qType)).bytes| < BufferSize
    requires buf[..|MessageEmission(QueryMessage(id, qName, qType)).bytes|] == MessageEmission(QueryMessage(id, qName, qType)).bytes
    ensures MessageEmission(QueryMessage(id, qName, qType)).ok
    ensures MessageAt(buf) == Parsed(QueryMessage(id, qName, qType), Pass)
  {
    var m := QueryMessage(id, qName, qType);
    QueryShape(id, qName, qType);
    MessageRoundTrip(buf, m);
  }
}
