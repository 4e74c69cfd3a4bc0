# dns-go: a verified model of the wire codec and the recursive resolver

This project models the core of the Go DNS resolver `wiktor-mazur/dns-go` in
Dafny and proves properties of the model. That core has four parts:

- **The 512-byte packet buffer** (`buffer/packet_buffer.go`). This is a class
  whose `pos` field and `buffer` array the methods update in place. It has
  big-endian reads and writes, a cursor that saturates at the last byte,
  `WriteByte`'s refusal of index 511, name compression with at most five
  pointer jumps, and uncompressed name writing. Labels are at most 63 bytes.
  `PrependDataLength` reserves a 2-byte length and patches it afterwards.
- **The message codec** (`protocol/`). This covers the header with its flag
  bit packing, questions, and the record preamble. It covers the six record
  variants (A, AAAA, NS, CNAME, MX and SOA) and the opaque fallback, the type
  dispatch of `ReadDnsRecord`, and whole packets. A packet is read section
  by section. When it is written, its counts are recomputed first.
- **The resolver** (`resolver/resolver.go`). It checks and answers a query,
  and follows delegations: to a glue address, or by resolving a name
  server's own address from the root.
- **The small helpers.** These are IP address construction and formatting
  (`utils/ip.go`), and the enumerations with their `String` maps (`common/`).

Decoders are specified by pure functions over the 512 buffer bytes and a
start cursor (`ReadName`, `HeaderAt`, `QuestionAt`, `RecordAt`,
`MessageAt`). Each returns the value or the error and the cursor where Go
leaves it. The imperative methods are proved equal to these functions.

Encoders are specified by an `Emission`: the bytes a writer emits, and
whether it stopped on an over-long label. `WriteOutcome` ties a method's
buffer before and after to its emission.

On these functions the model proves the following:

- the round trips, from a value through a write and a read back to the same
  value: name, header, question, each record variant and whole packet;
- the five-jump limit and the cursor rules of `ReadLabel`;
- the selectors the resolver uses to follow delegations;
- the resolver's decision for every response it can receive.

Go's value receivers are assigned only after every read has succeeded. The
model therefore returns a `Result` and leaves the receiver unchanged on
error. `DnsPacket` is a class, because `AddQuestion`, `AddAnswer`,
`AddAuthority`, `AddResource` and `Write` mutate it.

Some behaviour of the code is modelled as written, although one might expect
otherwise:

- On the 512-byte receive buffer, `ReadByte` never fails and stops
  advancing at index 511. On a received slice shorter than 512 bytes Go
  panics instead, which the model does not show (see "## Left out").
- An operation code or response code of 16 or more spills into the
  neighbouring flag bits.
- NS, CNAME, MX and SOA ignore the declared data length.
- The opaque writer's length field is `len(data)`, truncated to 16 bits.
- Delegation matches owner names by plain string suffix, so the owner `""`
  matches every name.
- `ResolveQuery` answers NOERROR even when the final response was NXDOMAIN.

## Model

| member | source | states |
|---|---|---|
| Wire.U16BytesRoundTrip | src/buffer/packet_buffer.go:90-102 | the big-endian 16-bit value built from the two bytes written for `v` is `v` |
| Wire.U16OfBytes | src/buffer/packet_buffer.go:221-233 | writing the value read from two bytes gives those two bytes back |
| Wire.U16BytesInjective | src/buffer/packet_buffer.go:221-233 | two 16-bit values with the same bytes are equal |
| Wire.U32BytesRoundTrip | src/buffer/packet_buffer.go:104-116 | the 32-bit value rebuilt from the four bytes written for `v` is `v` |
| Wire.Then | src/protocol/dns_packet.go:107-155 | two writers in sequence succeed iff both do; on success they emit both byte strings, and after a failure the second writes nothing |
| Wire.ThenAssociative | src/protocol/dns_packet.go:107-155 | the grouping of writers run in sequence does not matter |
| Wire.Truncate16 | src/protocol/dns_packet.go:102-105 | `uint16(n)` leaves every `n` below 65536 unchanged |
| Wire.Prefixed | src/buffer/packet_buffer.go:276-295 | a length-prefixed write is two bytes longer than its body, fails iff the body fails, and its prefix reads back as the body's length |
| Names.Split | src/buffer/packet_buffer.go:250 | `strings.Split` on ".": at least one part, no part holds a dot, and joining the parts with dots gives the name back |
| Names.LabelEmission | src/buffer/packet_buffer.go:251-265 | one label is written iff it has at most 63 bytes, as its length byte followed by its bytes |
| Names.EncodeLabels | src/buffer/packet_buffer.go:250-266 | the labels are written iff every one has at most 63 bytes; then the output is one byte longer than the joined name |
| Names.EncodeLabelsAppend | src/buffer/packet_buffer.go:250-266 | the encoding of two label lists in a row is the first list's encoding followed by the second's |
| Names.EncodeName | src/buffer/packet_buffer.go:249-274 | `WriteLabel` succeeds iff no label exceeds 63 bytes; then it emits two more bytes than the name has, ending in the zero byte |
| Names.EmptyNameEncoding | src/buffer/packet_buffer.go:249-274 | the empty name is written as two zero bytes |
| Names.ValidNameEncodes | src/buffer/packet_buffer.go:249-274 | a name whose labels all have 1 to 63 bytes is always written |
| Names.PointerBits | src/buffer/packet_buffer.go:146-155 | a length byte is a pointer iff both top bits are set, and its target is `((b ^ 0xC0) << 8) \| next`, as the Go shifts compute it |
| Names.PointerTarget | src/buffer/packet_buffer.go:151 | a pointer's target is below 0x4000 |
| Names.ReadNameLoop | src/buffer/packet_buffer.go:121-184 | the label loop terminates (its measure is the jumps left, then the bytes left), and its cursor stays inside the buffer |
| Names.ReadName | src/buffer/packet_buffer.go:119-184 | `ReadLabel` from any cursor inside the buffer leaves the cursor inside the buffer |
| Names.ReadNameRoundTrip | src/buffer/packet_buffer.go:119-184 | a name with labels of 1 to 63 bytes, written at `s`, reads back as itself with the cursor just past the terminating zero (also lines 249-274) |
| Names.ReadOneLabel | src/buffer/packet_buffer.go:157-172 | a literal label is appended after a dot (none before the first), and the local cursor moves past it |
| Names.SkipLabels | src/buffer/packet_buffer.go:157-172 | a run of encoded labels is read as those labels joined by dots |
| Names.ReadNameAfterJump | src/buffer/packet_buffer.go:139-181 | after a jump, the encoded name at the target is read, and the external cursor stays where the first jump put it |
| Names.PointerToName | src/buffer/packet_buffer.go:139-155 | a pointer to an encoded name reads as that name, with the cursor 2 bytes past the pointer |
| Names.FollowChain | src/buffer/packet_buffer.go:125-155 | following a chain of pointers is reading at its last target, having counted one jump per pointer |
| Names.FiveJumpsSucceed | src/buffer/packet_buffer.go:125-131 | a chain of up to five pointers ending at an encoded name reads as that name, with the cursor 2 bytes past the first pointer |
| Names.SixthJumpFails | src/buffer/packet_buffer.go:125-131 | a sixth pointer fails with the jump-limit error, and the cursor stays 2 bytes past the first pointer |
| Names.LaterJumpsKeepCursor | src/buffer/packet_buffer.go:139-144 | once a jump has been taken, the external cursor is never moved again, whatever follows (also lines 176-181) |
| Names.FirstPointerCursor | src/buffer/packet_buffer.go:139-144 | after labels followed by a pointer, the cursor ends exactly 2 bytes past that first pointer |
| Names.WideLengthIsLiteral | src/buffer/packet_buffer.go:146-172 | a length byte from 0x40 to 0xBF is not a pointer but a literal length |
| PacketBuffer.ReadU8 | src/buffer/packet_buffer.go:80-88 | `ReadByte` never fails and never moves the cursor past the last byte |
| PacketBuffer.ReadU16Value | src/buffer/packet_buffer.go:90-102 | `ReadUint16` is the big-endian pair of bytes at the cursor, and it advances by 2 except where the cursor saturates at 511 |
| PacketBuffer.ReadU32Value | src/buffer/packet_buffer.go:104-116 | when the four bytes at the cursor lie in the buffer, `ReadUint32` is their big-endian value; it advances by 4 from a cursor up to 507 and by 3 from 508, where the cursor stops at 511 |
| PacketBuffer.ReadU16 | src/buffer/packet_buffer.go:90-102 | `ReadUint16` as a function of the buffer and the cursor, which never leaves the buffer; its value and advance are stated by `ReadU16Value`, its round trip with `WriteUint16` by `ReadU16RoundTrip` |
| PacketBuffer.ReadU32 | src/buffer/packet_buffer.go:104-116 | `ReadUint32` as a function of the buffer and the cursor, which never leaves the buffer; its value and advance are stated by `ReadU32Value`, its round trip with `WriteUint32` by `ReadU32RoundTrip` |
| PacketBuffer.ReadBytes | src/buffer/packet_buffer.go:80-88 | `n` successive `ReadByte`s give `n` bytes; away from the end they are the buffer's bytes in order, and the cursor moves by `n` |
| PacketBuffer.ReadU16RoundTrip | src/buffer/packet_buffer.go:90-102 | the bytes `WriteUint16` emits for `v` are read back by `ReadUint16` as `v` (also lines 221-233) |
| PacketBuffer.ReadU32RoundTrip | src/buffer/packet_buffer.go:104-116 | the bytes `WriteUint32` emits for `v` are read back by `ReadUint32` as `v` (also lines 235-247) |
| PacketBuffer.WriteThen | src/buffer/packet_buffer.go:210-247 | a successful write followed by another leaves the buffer as the two emissions in sequence would |
| PacketBuffer.WriteFail | src/buffer/packet_buffer.go:210-219 | once a write has failed, a longer emission from the same writer fails too |
| PacketBuffer.SoaNumbers | src/protocol/dns_record/soa.go:79-102 | the five SOA numbers take 20 bytes |
| PacketBuffer.BytePacketBuffer.constructor | src/buffer/packet_buffer.go:21-26 | a new buffer is 512 zero bytes with the cursor at 0 |
| PacketBuffer.BytePacketBuffer.FromRawBuffer | src/buffer/packet_buffer.go:28-33 | the buffer wraps the received array, with the cursor at 0; the array is the zero-padded 512-byte receive buffer, not the shorter received slice |
| PacketBuffer.BytePacketBuffer.GetBytes | src/buffer/packet_buffer.go:39-41 | the bytes before the cursor |
| PacketBuffer.BytePacketBuffer.Seek | src/buffer/packet_buffer.go:43-51 | it succeeds iff the position is inside the buffer, and then moves the cursor there; on failure the cursor stays |
| PacketBuffer.BytePacketBuffer.ReadByteAt | src/buffer/packet_buffer.go:53-59 | it fails iff the position is past 511, otherwise it returns the byte there; the cursor does not move |
| PacketBuffer.BytePacketBuffer.ReadAtRange | src/buffer/packet_buffer.go:61-78 | it fails iff `p + len` exceeds 512, otherwise it returns the bytes `[p, p+len)`; the cursor does not move |
| PacketBuffer.BytePacketBuffer.ReadByte | src/buffer/packet_buffer.go:80-88 | the byte and the new cursor are those of `ReadU8` |
| PacketBuffer.BytePacketBuffer.ReadUint16 | src/buffer/packet_buffer.go:90-102 | the value and the new cursor are those of `ReadU16` |
| PacketBuffer.BytePacketBuffer.ReadUint32 | src/buffer/packet_buffer.go:104-116 | the value and the new cursor are those of `ReadU32` |
| PacketBuffer.BytePacketBuffer.ReadBytesAhead | src/protocol/dns_record/abstract_record.go:69-83 | the byte loop of the `ReadData` methods: the bytes and the cursor are those of `ReadBytes` |
| PacketBuffer.BytePacketBuffer.ReadLabel | src/buffer/packet_buffer.go:119-184 | the name or error and the new cursor are exactly those of `ReadName` |
| PacketBuffer.BytePacketBuffer.Jump | src/buffer/packet_buffer.go:139-155 | the pointer branch: the name read from the pointer is the name read from its target one jump later, and only the first jump moves the cursor |
| PacketBuffer.BytePacketBuffer.SetByte | src/buffer/packet_buffer.go:186-194 | it fails iff the position is past 511; on success exactly that byte changes |
| PacketBuffer.BytePacketBuffer.SetUint16 | src/buffer/packet_buffer.go:196-208 | it writes the two big-endian bytes in place without moving the cursor; at 511 it writes the high byte before failing |
| PacketBuffer.BytePacketBuffer.WriteByte | src/buffer/packet_buffer.go:210-219 | it fails iff the cursor is at 511 or beyond, and then changes nothing; otherwise it stores the byte at the cursor and advances |
| PacketBuffer.BytePacketBuffer.WriteUint16 | src/buffer/packet_buffer.go:221-233 | it writes the two big-endian bytes of the value |
| PacketBuffer.BytePacketBuffer.WriteUint32 | src/buffer/packet_buffer.go:235-247 | it writes the four big-endian bytes of the value |
| PacketBuffer.BytePacketBuffer.WriteLabel | src/buffer/packet_buffer.go:249-274 | the buffer changes as `EncodeName` says: every label as a length byte and its bytes, then a zero byte, or a failure at the first label over 63 bytes |
| PacketBuffer.BytePacketBuffer.WritePart | src/buffer/packet_buffer.go:255-265 | one label's length byte and bytes |
| PacketBuffer.BytePacketBuffer.WriteData | src/protocol/dns_record/ns.go:30-32 | the body of each length-prefixed record writer (host name, MX, SOA) |
| PacketBuffer.BytePacketBuffer.WriteMx | src/protocol/dns_record/mx.go:33-45 | the priority, then the exchange name |
| PacketBuffer.BytePacketBuffer.WriteSoa | src/protocol/dns_record/soa.go:68-105 | both names, then the five numbers, in order |
| PacketBuffer.BytePacketBuffer.WriteSoaNumbers | src/protocol/dns_record/soa.go:79-102 | serial, refresh, retry, expire and minimum as big-endian 32-bit values |
| PacketBuffer.BytePacketBuffer.PrependDataLength | src/buffer/packet_buffer.go:276-295 | the body behind a 2-byte field that holds the number of bytes the body emitted |
| PacketBuffer.LabelStep | src/buffer/packet_buffer.go:250-266 | one turn of `WriteLabel`'s loop extends the emitted labels by one, or fails as the whole name does |
| PacketBuffer.PatchLength | src/buffer/packet_buffer.go:288-292 | patching the reserved field with the distance written turns placeholder and body into a length-prefixed body |
| Common.QueryTypeString | src/common/query_types.go:14-31 | the name is "UNKNOWN" iff the type is not one of A=1, NS=2, CNAME=5, SOA=6, MX=15 and AAAA=28 |
| Common.QueryTypeStringInverse | src/common/query_types.go:5-31 | a known type is recovered from its name, so the map is injective on the six known values |
| Common.QueryTypeOf | src/common/query_types.go:14-31 | only a known type is recovered from a name |
| Common.ResultCodeString | src/common/result_code.go:14-31 | the name is "UNKNOWN" iff the code is not 0 to 5, and every named code fits the 4-bit header field; which name each code gets is pinned by `ResultCodeStringInverse` |
| Common.ResultCodeOf | src/common/result_code.go:16-27 | an independent table from "NOERROR", "FORMERR", "SERVFAIL", "NXDOMAIN", "NOTIMP" and "REFUSED" to the codes 0 to 5; it yields only defined codes |
| Common.ResultCodeStringInverse | src/common/result_code.go:14-31 | codes 0 to 5 print as "NOERROR", "FORMERR", "SERVFAIL", "NXDOMAIN", "NOTIMP" and "REFUSED" respectively (each name reads back through `ResultCodeOf` as its code), and every other code prints a name that reads back as no code |
| Common.ResultCodeStringInjective | src/common/result_code.go:14-31 | different known codes have different names |
| Common.OpcodeString | src/common/opcode.go:11-22 | the name is "UNKNOWN" iff the code is not 0 to 2, and every named code is below 16; which name each code gets is pinned by `OpcodeStringInverse` |
| Common.OpcodeOf | src/common/opcode.go:13-18 | an independent table from "QUERY", "IQUERY" and "STATUS" to the codes 0, 1 and 2; it yields only defined codes |
| Common.OpcodeStringInverse | src/common/opcode.go:11-22 | codes 0, 1 and 2 print as "QUERY", "IQUERY" and "STATUS" (the short names, not the constant identifiers), each reading back through `OpcodeOf` as its code, and every other code prints a name that reads back as no code |
| Common.OpcodeStringInjective | src/common/opcode.go:11-22 | different known operation codes have different names |
| Common.ClassString | src/common/class.go:13-20 | "IN" iff the class is IN=1, "UNKNOWN" otherwise |
| Ip.NewIPv4 | src/utils/ip.go:9-15 | it fails iff the input is not 4 bytes; on success the bytes are kept unchanged |
| Ip.NewIPv6 | src/utils/ip.go:25-31 | it fails iff the input is not 16 bytes; on success the bytes are kept unchanged |
| Ip.Decimal | src/utils/ip.go:18 | `%d` of a number is digits with no leading zero |
| Ip.DecimalRoundTrip | src/utils/ip.go:18 | the number is recovered from its `%d` text |
| Ip.IPv4StringInjective | src/utils/ip.go:17-19 | two addresses with the same dotted-quad text are equal, so a server string names one address |
| Ip.IPv4String | src/utils/ip.go:17-19 | the dotted quad of the four octets in `%d`; that the text determines the address is `IPv4StringInjective`, and each part inverts by `DecimalRoundTrip` |
| Ip.Hex2 | src/utils/ip.go:35 | `%02x` of a byte is two hexadecimal digits whose value is the byte |
| Ip.HexDigit | src/utils/ip.go:35 | a lower-case hexadecimal digit whose value is `d` |
| Ip.Groups | src/utils/ip.go:34-36 | groups of two bytes as four hex digits, separated by colons: five characters per group, less one |
| Ip.IPv6String | src/utils/ip.go:33-37 | the text of an address is 39 characters: eight groups without zero compression |
| Ip.GroupsRoundTrip | src/utils/ip.go:33-37 | the bytes are recovered from the colon-separated groups |
| Ip.IPv6StringRoundTrip | src/utils/ip.go:33-37 | the sixteen bytes of an address are recovered from its text |
| Header.FlagBytesRoundTrip | src/protocol/dns_header.go:68-78 | for every pair of flag bytes, packing the unpacked fields gives the same two bytes (also lines 94-110) |
| Header.FlagFieldsRoundTrip | src/protocol/dns_header.go:68-78 | unpacking the packed flags gives the original fields back when the operation code and the response code are below 16 (also lines 94-110) |
| Header.OpcodeSpillsIntoQR | src/protocol/dns_header.go:98-99 | an operation code of 16 is read back as a response with operation code 0 |
| Header.FlagsOne | src/protocol/dns_header.go:94-99 | the first flag byte `Write` packs (RD, TC, AA, the operation code shifted by 3, QR); `FlagFieldsRoundTrip` and `FlagBytesRoundTrip` relate it to `WithFlags`, and `OpcodeSpillsIntoQR` shows the unmasked shift |
| Header.FlagsTwo | src/protocol/dns_header.go:105-109 | the second flag byte `Write` packs (the response code ORed with CD, AD, Z and RA); related to `WithFlags` by the same two round-trip lemmas |
| Header.WithFlags | src/protocol/dns_header.go:68-78 | the fields `Read` unpacks from the two flag bytes; packing them again gives the same bytes (`FlagBytesRoundTrip`) |
| Header.CountsAt | src/protocol/dns_header.go:46-64 | the four counts read in order, with the cursor kept in the buffer; `CountsRoundTrip` and `CountsConsume` relate it to the bytes written |
| Header.HeaderBytes | src/protocol/dns_header.go:88-136 | the header is 12 bytes |
| Header.HeaderAt | src/protocol/dns_header.go:30-86 | reading a header never fails and leaves the cursor inside the buffer |
| Header.HeaderAtShape | src/protocol/dns_header.go:30-86 | the identifier, the two flag bytes unpacked, then the four counts, consuming exactly 12 bytes |
| Header.HeaderAtConsumes | src/protocol/dns_header.go:30-86 | the fields read re-encode to the 12 bytes consumed |
| Header.CountsRoundTrip | src/protocol/dns_header.go:46-64 | the four counts written are read back (also lines 115-133) |
| Header.CountsConsume | src/protocol/dns_header.go:46-64 | reading the counts consumes 8 bytes and re-encodes to them |
| Header.HeaderRoundTrip | src/protocol/dns_header.go:30-136 | a header written (with codes below 16) is read back as itself, with the cursor 12 bytes on |
| Header.ReadHeader | src/protocol/dns_header.go:30-86 | the header and the new cursor are those of `HeaderAt` |
| Header.ReadCounts | src/protocol/dns_header.go:46-64 | the counts and the new cursor are those of `CountsAt` |
| Header.WriteHeader | src/protocol/dns_header.go:88-136 | it writes the identifier, the packed flag bytes and the four counts, and succeeds iff the cursor starts at 499 or below |
| Header.WriteFlags | src/protocol/dns_header.go:94-113 | the two packed flag bytes |
| Header.WriteCounts | src/protocol/dns_header.go:115-133 | the four counts, big-endian, in order |
| Question.NewDnsQuestion | src/protocol/dns_question.go:16-18 | a new question has class IN, with empty name and type 0 |
| Question.QuestionAt | src/protocol/dns_question.go:20-41 | the name, then the 16-bit type and class; the cursor stays inside the buffer |
| Question.QuestionEmissionShape | src/protocol/dns_question.go:43-60 | the write succeeds iff no label is too long, and then it emits the name plus 4 bytes |
| Question.QuestionRoundTrip | src/protocol/dns_question.go:20-60 | a question written with labels of 1 to 63 bytes is read back as itself, with the cursor just past it |
| Question.ValidQuestionReadsBack | src/protocol/dns_question.go:20-60 | the same, at every position in the buffer |
| Question.TypeAndClassAt | src/protocol/dns_question.go:26-34 | the type and the class written are read back in that order (also lines 49-57) |
| Question.ReadQuestion | src/protocol/dns_question.go:20-41 | the question or error and the new cursor are those of `QuestionAt`; on error no question is produced |
| Question.WriteQuestion | src/protocol/dns_question.go:43-60 | the name, the type and the class, stopping at an over-long label before the type |
| Record.NewAbstractRecord | src/protocol/dns_record/abstract_record.go:19-24 | class IN, with every other field zero or empty |
| Record.PreambleAt | src/protocol/dns_record/abstract_record.go:34-67 | reading the preamble leaves the cursor inside the buffer |
| Record.RecordAt | src/protocol/dns_record.go:20-55 | reading a record leaves the cursor inside the buffer |
| Record.DataAtVariant | src/protocol/dns_record.go:29-50 | the data read for type 1, 2, 5, 6, 15 or 28 is the A, NS, CNAME, SOA, MX or AAAA variant, and for any other type the raw fallback |
| Record.DataAt | src/protocol/dns_record.go:29-52 | the type switch of `ReadDnsRecord` and the chosen reader, with the cursor kept in the buffer; `DataAtVariant` states which variant each type gives and `PayloadRoundTrip` that written data reads back |
| Record.HostAt | src/protocol/dns_record/ns.go:18-27 | the one name of an NS or CNAME record, with the cursor kept in the buffer; read back by `HostRoundTrip` |
| Record.MxAt | src/protocol/dns_record/mx.go:15-30 | the priority, then the exchange name, with the cursor kept in the buffer; read back by `MxRoundTrip` |
| Record.SoaAt | src/protocol/dns_record/soa.go:20-65 | the two names, then the five numbers, with the cursor kept in the buffer; read back by `SoaRoundTrip` |
| Record.DataEmissionOf | src/protocol/dns_record/abstract_record.go:109-123 | what each variant's `WriteData` emits; `LengthFieldIsExact` states that the length field is the data that follows for the known variants, `OpaqueLengthField` the fallback's `len(data)` |
| Record.ALengthCheck | src/protocol/dns_record/a.go:19-45 | A data fails iff the declared length is not 4, and then before consuming a byte; otherwise its four bytes are the address, in order |
| Record.AaaaLengthCheck | src/protocol/dns_record/aaaa.go:15-41 | AAAA data fails iff the declared length is not 16, and then before consuming a byte; otherwise its sixteen bytes are the address |
| Record.DeclaredLengthIgnored | src/protocol/dns_record/ns.go:18-27 | NS, CNAME, MX and SOA data reads the same whatever the declared length |
| Record.OpaqueKeepsBytes | src/protocol/dns_record/abstract_record.go:69-83 | an unknown type keeps exactly the declared number of raw bytes, in order, and writes them back after their length (also lines 109-123) |
| Record.RecordCarriesPreamble | src/protocol/dns_record.go:20-55 | a preamble error is returned as is, without reading data; a record read carries exactly the preamble fields read, and the variant its type selects |
| Record.ReadPreamble | src/protocol/dns_record/abstract_record.go:34-67 | the preamble or error and the new cursor are those of `PreambleAt` |
| Record.ReadAData | src/protocol/dns_record/a.go:19-45 | the data and the cursor are those of `DataAt` for type A |
| Record.ReadAaaaData | src/protocol/dns_record/aaaa.go:15-41 | the data and the cursor are those of `DataAt` for type AAAA |
| Record.ReadIPv6 | src/protocol/dns_record/aaaa.go:20-40 | the sixteen bytes read make the address |
| Record.ReadHostData | src/protocol/dns_record/ns.go:18-27 | one name, as `HostAt` reads it; no data on error |
| Record.ReadMxData | src/protocol/dns_record/mx.go:15-30 | the priority, then the host, as `MxAt` reads them; no data on error |
| Record.ReadSoaData | src/protocol/dns_record/soa.go:20-65 | the two names and five numbers, as `SoaAt` reads them; no data on error |
| Record.ReadOpaqueData | src/protocol/dns_record/abstract_record.go:69-83 | the declared number of raw bytes, as `DataAt` reads them |
| Record.ReadRecordData | src/protocol/dns_record.go:29-52 | the type switch and the chosen `ReadData` give `DataAt` |
| Record.ReadDnsRecord | src/protocol/dns_record.go:20-55 | the record or error and the new cursor are those of `RecordAt` |
| Record.WritePreamble | src/protocol/dns_record/abstract_record.go:85-107 | name, type, class and TTL, but not the data length |
| Record.WriteFixedFields | src/protocol/dns_record/abstract_record.go:91-104 | type, class and TTL, big-endian |
| Record.WriteEach | src/protocol/dns_record/abstract_record.go:115-120 | the first `n` bytes, in order, stopping at the first failed byte |
| Record.WriteLengthAndBytes | src/protocol/dns_record/a.go:47-61 | a 16-bit length, then the bytes |
| Record.WriteRecordData | src/protocol/dns_record/abstract_record.go:109-123 | each variant's data as `DataEmissionOf` says |
| Record.WriteRecord | src/protocol/dns_packet.go:119-128 | the preamble, then the data |
| Record.LengthFieldIsExact | src/protocol/dns_record/ns.go:29-38 | for the known variants, the 2-byte field is the exact length of the data after it: 4 for A, 16 for AAAA, the encoded host for NS and CNAME, 2 plus the host for MX, and both names plus 20 for SOA |
| Record.OpaqueLengthField | src/protocol/dns_record/abstract_record.go:109-123 | the fallback's field is the length of its raw data, but only the declared number of bytes follows, so the two disagree when the declared length is shorter |
| Record.FixedFieldsAt | src/protocol/dns_record/abstract_record.go:40-58 | type, class, TTL and length written are read back in order |
| Record.PreambleRoundTrip | src/protocol/dns_record/abstract_record.go:34-107 | a preamble written, followed by its length, is read back as itself |
| Record.HostRoundTrip | src/protocol/dns_record/ns.go:18-38 | a host written is read back as NS or CNAME data with that host |
| Record.MxRoundTrip | src/protocol/dns_record/mx.go:15-51 | the priority and host written are read back |
| Record.SoaNumbersAt | src/protocol/dns_record/soa.go:30-54 | the five numbers written are read back in order (also lines 79-102) |
| Record.SoaRoundTrip | src/protocol/dns_record/soa.go:20-111 | all seven SOA fields written are read back |
| Record.RawPayloadRoundTrip | src/protocol/dns_record/a.go:19-61 | A, AAAA and opaque data written are read back under their preamble |
| Record.PayloadRoundTrip | src/protocol/dns_record.go:29-52 | the data of every variant written is read back unchanged under its preamble |
| Record.ConsistentEmission | src/protocol/dns_packet.go:119-128 | a record `ReadDnsRecord` could produce is always written: preamble, length and data |
| Record.RecordRoundTrip | src/protocol/dns_record.go:20-55 | such a record, written anywhere, is read back as itself with the cursor just past it |
| Record.ConsistentReadsBack | src/protocol/dns_record.go:20-55 | the same, at every position of the buffer |
| Packet.SectionAt | src/protocol/dns_packet.go:38-74 | a section read yields at most the count's items, exactly the count when it passes, and leaves the cursor inside the buffer |
| Packet.QuestionsAtStep | src/protocol/dns_packet.go:38-47 | the question loop stops at the first error with the questions read so far, otherwise it appends and continues |
| Packet.RecordsAtStep | src/protocol/dns_packet.go:49-56 | the record loop stops at the first error, otherwise it appends and continues |
| Packet.ParsedShape | src/protocol/dns_packet.go:28-77 | every packet read holds the variant each record type selects, carries the header read at offset 0, and on success has sections as long as the counts |
| Packet.RecordsAtWellTyped | src/protocol/dns_packet.go:49-74 | every record of a section read carries the variant its type selects |
| Packet.DnsPacket.constructor | src/protocol/dns_packet.go:20-26 | an empty packet with the given identifier |
| Packet.DnsPacket.AddQuestion | src/protocol/dns_packet.go:158-161 | the question is appended and the question count goes up by one with 16-bit wrap-around |
| Packet.DnsPacket.AddAnswer | src/protocol/dns_packet.go:163-166 | the record is appended to the answers and only the answer count goes up |
| Packet.DnsPacket.AddAuthority | src/protocol/dns_packet.go:168-171 | the record is appended to the authorities and only the authority count goes up |
| Packet.DnsPacket.AddResource | src/protocol/dns_packet.go:173-176 | the record is appended to the resources and only the resource count goes up |
| Packet.WithRecordEffect | src/protocol/dns_packet.go:163-176 | adding a record appends it to its section, raises that count by one (from 65535 to 0), and leaves the other sections, counts, questions and flags alone |
| Packet.WithQuestionEffect | src/protocol/dns_packet.go:158-161 | adding a question appends it and raises only the question count, leaving records and flags alone |
| Packet.WithRecordsEffect | src/protocol/dns_packet.go:163-176 | a run of additions appends the records in order and raises that count by their number, modulo 65536 |
| Packet.DnsPacket.GetAuthorityNameServers | src/protocol/dns_packet.go:179-194 | the authorities that delegate the name, in order |
| Packet.NameServersDelegate | src/protocol/dns_packet.go:179-194 | the records kept are authority records of type NS whose owner is a string suffix of the name, and every such record is kept |
| Packet.SuffixIgnoresLabels | src/protocol/dns_packet.go:184 | any text in front of an NS owner gives a name that owner delegates, whether or not that text ends at a label boundary (so "b.c" delegates "ab.c"), and the owner "" delegates every name |
| Packet.DnsPacket.GetResolvedNS | src/protocol/dns_packet.go:196-211 | the glue `ResolvedNS` chooses |
| Packet.DnsPacket.GlueFor | src/protocol/dns_packet.go:199-207 | the first resources-section A record owned exactly by the host |
| Packet.GlueInFirst | src/protocol/dns_packet.go:199-207 | the glue found is the first A record owned by the host; none is found iff there is no such record |
| Packet.FirstGlueSound | src/protocol/dns_packet.go:198-210 | the glue found belongs to the first name server that has any; none iff no name server has glue |
| Packet.ResolvedNSSound | src/protocol/dns_packet.go:196-211 | the glue found is a resources record for the host of a delegating name server; there is none iff no delegating name server has glue |
| Packet.DnsPacket.GetUnresolvedNS | src/protocol/dns_packet.go:213-221 | the name server `UnresolvedNS` chooses |
| Packet.UnresolvedNSFirst | src/protocol/dns_packet.go:213-221 | the first delegating record, or none iff no record delegates |
| Packet.UnresolvedNSSound | src/protocol/dns_packet.go:213-221 | the first delegating authority, or none iff no authority delegates the name |
| Packet.DnsPacket.GetFirstARecord | src/protocol/dns_packet.go:223-231 | the record `FirstARecord` chooses |
| Packet.FirstARecordSound | src/protocol/dns_packet.go:223-231 | the first answer of type A, which holds an address, or none iff no answer has type A |
| Packet.FirstARecord | src/protocol/dns_packet.go:223-231 | the answer `GetFirstARecord` returns; characterised by `FirstARecordSound` |
| Packet.AuthorityNameServers | src/protocol/dns_packet.go:179-194 | the authorities `GetAuthorityNameServers` keeps; characterised by `NameServersDelegate` |
| Packet.ResolvedNS | src/protocol/dns_packet.go:196-211 | the glue `GetResolvedNS` returns; characterised by `ResolvedNSSound` and `FirstGlueSound` |
| Packet.UnresolvedNS | src/protocol/dns_packet.go:213-221 | the name server `GetUnresolvedNS` returns; characterised by `UnresolvedNSSound` and `UnresolvedNSFirst` |
| Packet.WithQuestion | src/protocol/dns_packet.go:158-161 | `AddQuestion` on a packet value; its effect is `WithQuestionEffect` |
| Packet.WithRecord | src/protocol/dns_packet.go:163-176 | `AddAnswer`, `AddAuthority` and `AddResource` on a packet value; its effect is `WithRecordEffect` |
| Packet.WithCounts | src/protocol/dns_packet.go:102-105 | the four counts `Write` sets to `uint16` of the section lengths before writing; used by `MessageRoundTrip` |
| Packet.MessageEmission | src/protocol/dns_packet.go:101-155 | the bytes `Write` emits: header, questions, then the three record sections; `MessageBytes` states their concatenation and `MessageRoundTrip` that they read back |
| Packet.MessageAt | src/protocol/dns_packet.go:28-77 | the decoder `DnsPacketFromRawBuffer` runs: header, then each section as its count says, stopping at the first error; `ParsedShape` states its result and `MessageRoundTrip` that it inverts `MessageEmission`; it decodes the zero-padded 512-byte buffer |
| Packet.DnsPacket.Write | src/protocol/dns_packet.go:101-156 | the counts are replaced by the section lengths, and then the header, the questions and each record section are written in order, stopping at the first error |
| Packet.WriteMessage | src/protocol/dns_packet.go:102-155 | the same, on a packet value |
| Packet.WriteRecordSections | src/protocol/dns_packet.go:119-155 | answers, then authorities, then resources |
| Packet.WriteQuestions | src/protocol/dns_packet.go:112-117 | each question in order, stopping at the first error |
| Packet.WriteRecords | src/protocol/dns_packet.go:119-129 | each record in order, preamble then data, stopping at the first error |
| Packet.QuestionsStep | src/protocol/dns_packet.go:112-117 | one turn of the question loop extends what was written by one question, or fails as the whole loop does |
| Packet.RecordsStep | src/protocol/dns_packet.go:119-129 | one turn of a record loop extends what was written by one record, or fails as the whole loop does |
| Packet.WriteNextQuestion | src/protocol/dns_packet.go:113-116 | the body of the question loop: the bytes written so far grow by the next question, or the write fails as the whole loop does |
| Packet.WriteNextRecord | src/protocol/dns_packet.go:120-128 | the body of a record loop: the bytes written so far grow by the next record, or the write fails as the whole loop does |
| Packet.QuestionsPrefix | src/protocol/dns_packet.go:112-117 | writing fewer questions emits a prefix of the output |
| Packet.RecordsPrefix | src/protocol/dns_packet.go:119-129 | writing fewer records emits a prefix of the output |
| Packet.QuestionsEmissionCons | src/protocol/dns_packet.go:112-117 | writing the questions is the first one, then the rest |
| Packet.RecordsEmissionCons | src/protocol/dns_packet.go:119-129 | writing the records is the first one, then the rest |
| Packet.ReadQuestions | src/protocol/dns_packet.go:38-47 | the questions, the cursor and the error are those of `QuestionsAt` |
| Packet.ReadRecords | src/protocol/dns_packet.go:49-56 | the records, the cursor and the error are those of `RecordsAt` |
| Packet.FromRawBuffer | src/protocol/dns_packet.go:28-77 | the packet and the error are those of `MessageAt` on the zero-padded 512-byte buffer, with a partly filled packet on error |
| Packet.ShortReplyReadsPadding | src/buffer/packet_buffer.go:80-88 | reads past the end of a short reply see the zero padding: a one-byte reply `[1]` decodes without error as identifier 0x0100 with empty sections, where Go's `ReadByte` would index past the slice |
| Packet.ToRawBuffer | src/protocol/dns_packet.go:90-99 | it fails iff a label is too long or the output reaches the last byte; otherwise it gives exactly the bytes `Write` emits, and the counts are updated either way |
| Packet.QuestionsRoundTrip | src/protocol/dns_packet.go:38-47 | questions written are read back in order (also lines 112-117) |
| Packet.QuestionsSectionRoundTrip | src/protocol/dns_packet.go:38-47 | the same for any questions that each read back (also lines 112-117) |
| Packet.RecordsRoundTrip | src/protocol/dns_packet.go:49-74 | records written are read back in order (also lines 119-153) |
| Packet.RecordsSectionRoundTrip | src/protocol/dns_packet.go:49-74 | the same for any records that each read back (also lines 119-153) |
| Packet.SectionRoundTrip | src/protocol/dns_packet.go:38-74 | entries written one after another, each of which reads back, are read back as a section |
| Packet.MessageBytes | src/protocol/dns_packet.go:101-156 | an encodable packet is written as its header, questions, answers, authorities and resources, concatenated |
| Packet.MessageRoundTrip | src/protocol/dns_packet.go:28-156 | a packet written into the receive buffer is read back with the same identifier and flags, counts equal to the section lengths, and the same questions and records in order |
| Packet.MessageFromSections | src/protocol/dns_packet.go:28-77 | a header followed by each section read back is the whole packet |
| Packet.SectionsEncode | src/protocol/dns_packet.go:101-156 | a packet whose names are valid and whose records are consistent is always written |
| Packet.QuestionsEncode | src/protocol/dns_packet.go:112-117 | questions with valid names are always written |
| Packet.RecordsEncode | src/protocol/dns_packet.go:119-129 | consistent records are always written |
| Resolver.Lookup | src/resolver/resolver.go:113-172 | every response the resolution loop returns holds the variant each record type selects |
| Resolver.LookupTurn | src/resolver/resolver.go:120-170 | one turn of the loop either finishes with the result `Lookup` gives, or goes on to a next server that gives the same result with one turn fewer |
| Resolver.LookupRecursive | src/resolver/resolver.go:113-172 | the loop returns exactly what `Lookup` gives from the root server |
| Resolver.StepDecides | src/resolver/resolver.go:130-170 | a response is returned iff it is terminal (answers with NOERROR, or NXDOMAIN) or no authority delegates; the loop continues iff some delegating name server has glue, with that glue's dotted-quad address; otherwise it sub-resolves the first delegating authority's host |
| Resolver.TurnReturns | src/resolver/resolver.go:130-154 | a response the step returns is the result |
| Resolver.TurnContinues | src/resolver/resolver.go:141-147 | with glue, the result is that of the next server |
| Resolver.TurnDescends | src/resolver/resolver.go:156-170 | the sub-resolution's error is the result; its first A record is the next server; without one the outer response is returned |
| Resolver.LookupReturnsReply | src/resolver/resolver.go:113-172 | a successful result is a response some server gave for that very question, and it does not name glue to continue with |
| Resolver.LookupFuelMonotone | src/resolver/resolver.go:113-172 | a finished resolution has the same result under any larger bound on turns |
| Resolver.AfterFuelMonotone | src/resolver/resolver.go:130-170 | the same, from a given response |
| Resolver.ParsedRepliesSound | src/resolver/resolver.go:105 | replies decoded by `DnsPacketFromRawBuffer` meet the resolver's assumption on its transport |
| Resolver.ResolveRefuses | src/resolver/resolver.go:24-39 | a query with no question, a question count of 0 or the response bit set is answered FORMERR, with the query's identifier, QR, RD and RA set and no sections |
| Resolver.ResolveAnswers | src/resolver/resolver.go:41-66 | otherwise the result is an error iff the lookup of the first question fails, with the same error; on success the response is NOERROR (even after NXDOMAIN) with the identifier, QR, RD and RA, the first question only, and the lookup's three record sections in order, with counts equal to their lengths when each is below 65536 records |
| Resolver.AssembledShape | src/resolver/resolver.go:48-64 | the response has the question count 1 and each record count equal to its section's length modulo 65536 |
| Resolver.AddAll | src/resolver/resolver.go:51-64 | the records are added to the section in order |
| Resolver.ResolveQuery | src/resolver/resolver.go:24-67 | the packet built, or the error, is that of `Resolve` |
| Resolver.QueryToErrResponse | src/resolver/resolver.go:69-77 | a copy of the query as `ErrResponse` gives it |
| Resolver.ErrResponseShape | src/resolver/resolver.go:69-77 | only QR, RA and the response code change, and applying it again changes nothing |
| Resolver.BuildQueryPacket | src/resolver/resolver.go:174-185 | a fresh packet holding `QueryMessage` |
| Resolver.QueryShape | src/resolver/resolver.go:174-185 | one question of the given name and type with class IN, no records, RD set, a query with operation code 0 and NOERROR, and counts that match the sections |
| Resolver.QueryRoundTrip | src/resolver/resolver.go:89-105 | the query packet, written and read back by the receiver, is the same packet (also lines 174-185) |
| Resolver.Step | src/resolver/resolver.go:130-170 | the decision one reply leads to: return it, continue with a glue address, or sub-resolve a name server's host; characterised in both directions by `StepDecides` |
| Resolver.After | src/resolver/resolver.go:130-170 | what the loop does with one reply; every response it returns holds the variant its record types select, and `TurnReturns`, `TurnContinues` and `TurnDescends` state each branch |
| Resolver.Resolve | src/resolver/resolver.go:24-66 | the response `ResolveQuery` gives a query; stated by `ResolveRefuses` and `ResolveAnswers` |
| Resolver.ErrResponse | src/resolver/resolver.go:69-77 | the copy `QueryToErrResponse` returns; stated by `ErrResponseShape` |
| Resolver.QueryMessage | src/resolver/resolver.go:174-185 | the query `buildQueryPacket` fills in; stated by `QueryShape` and `QueryRoundTrip` |

## Left out

- UDP I/O is not modelled. `Resolver.Lookup` (src/resolver/resolver.go:79-111) and `net.ResolveUDPAddr` (line 120) become a `Transport` parameter. It maps a server string, a name and a type to a reply or an error.
- The random transaction identifier of `NewDnsPacket` is a constructor parameter.
- `ResolveQuery` receives the request's identifier, which it passes to `LookupRecursive` only for logging.
- Resolver.Lookup: the Go loop and its recursion have no bound (there is a to-do at src/resolver/resolver.go:116). The model counts turns with a `fuel` parameter, and running out gives the `LookupUnfinished` error, which Go cannot produce. `LookupFuelMonotone` shows that any finished result does not depend on the bound.
- Resolver.Lookup: the transport is required to return well-typed replies (`SoundTransport`). A real reply is decoded by `DnsPacketFromRawBuffer`. `ParsedRepliesSound` proves that replies decoded that way meet the requirement.
- Resolver.LookupReturnsReply: this says the result came from some server for that question. It does not say which server, or along which path of delegations.
- Packet.FromRawBuffer, Packet.MessageAt, PacketBuffer.BytePacketBuffer.FromRawBuffer: a received message of n bytes is modelled as its zero-padded 512-byte receive buffer. Go instead decodes the n-byte slice (src/resolver/resolver.go:105) and only checks positions against 512, so the model's result equals Go's whenever no read reaches index n. Go's index-out-of-range panic on a truncated message, for example any message under 12 bytes, is not modelled; `ShortReplyReadsPadding` shows the model decoding the padding there instead.
- Go panics are preconditions:
  - `AbstractDnsRecord.WriteData` with a declared length beyond its data (`Writable`);
  - the type assertion in `GetFirstARecord`, which holds for records read by `ReadDnsRecord` (`WellTypedRecords`).
- PacketBuffer.WriteOutcome: on a failed write, the contract states only that the bytes before the start cursor are unchanged and that the cursor has not moved back. It does not state the partial bytes written after the start cursor, because every caller discards the buffer on error.
- Packet.MessageRoundTrip: the round trip is proved only for packets whose operation and response codes are below 16, whose names have labels of 1 to 63 bytes, whose records are consistent and whose sections have fewer than 65536 entries (`Encodable`). Other packets do not read back, by the header's bit spill and the other behaviours listed above.
- Record.RecordRoundTrip: the opaque fallback reads back only when its declared length equals the length of its data, as it does for every record read.
- The `GetName`, `GetType`, `GetIP` and `GetHost` accessors are the field selections `preamble.name`, `preamble.queryType`, `data.ipv4` and `data.host`.
- The `String` and `CompactString` dumps of packets, headers, questions and records are not modelled. Neither is any `log.Printf`: they only format text for logs.
- The text of an IP address is modelled over ASCII characters. Go's `fmt` formatting is not modelled beyond `%d` and `%02x`.
- Integer widths are explicit: `u16` and `u32` subset types, `u8` as an 8-bit bit-vector, and `Truncate16` for Go's `uint16(...)` conversions and wrapping `+= 1`.
- The socket server (`server/udp_server`), `main.go` and the configuration loader (`utils/config.go`) are process wiring and network I/O, and are not part of this model.
