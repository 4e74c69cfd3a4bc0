/** The enumerations shared by the codec and the resolver: record types,
    response codes, operation codes and classes, each with the mnemonic its
    `String` method prints and "UNKNOWN" for every other value. */
module Common {
  import opened Wire

  /** Go's `uint8`, the width of `OPCODE` and `ResultCode`: a bit-vector,
      since the header packs both into flag bytes with shifts and masks. */
  type u8 = bv8

  // Record types (QueryType, 16 bits on the wire).
  const A: u16 := 1
  const NS: u16 := 2
  const CNAME: u16 := 5
  const SOA: u16 := 6
  const MX: u16 := 15
  const AAAA: u16 := 28

  const Unknown: string := "UNKNOWN"

  predicate KnownQueryType(t: u16) {
    t == A || t == NS || t == CNAME || t == SOA || t == MX || t == AAAA
  }

  /** `QueryType.String`: a known type's mnemonic, "UNKNOWN" otherwise. */
  function QueryTypeString(t: u16): (r: string)
    ensures r == Unknown <==> !KnownQueryType(t)
  {
    if t == A then "A"
    else if t == NS then "NS"
    else if t == CNAME then "CNAME"
    else if t == SOA then "SOA"
    else if t == MX then "MX"
    else if t == AAAA then "AAAA"
    else Unknown
  }

  /** The mnemonic read back as a type: the inverse of `QueryTypeString` on
      the known types. */
  function QueryTypeOf(s: string): (r: Option<u16>)
    ensures r.Some? ==> KnownQueryType(r.value)
  {
    if s == "A" then Some(A)
    else if s == "NS" then Some(NS)
    else if s == "CNAME" then Some(CNAME)
    else if s == "SOA" then Some(SOA)
    else if s == "MX" then Some(MX)
    else if s == "AAAA" then Some(AAAA)
    else None
  }

  /** Every known type's mnemonic names that type and no other, so
      `QueryTypeString` is injective on the known types. */
  lemma QueryTypeStringInverse(t: u16)
    ensures KnownQueryType(t) ==> QueryTypeOf(QueryTypeString(t)) == Some(t)
    ensures !KnownQueryType(t) ==> QueryTypeOf(QueryTypeString(t)) == None
  {
  }

  // Response codes (ResultCode, 4 bits in the header).
  const NOERROR: u8 := 0
  const FORMERR: u8 := 1
  const SERVFAIL: u8 := 2
  const NXDOMAIN: u8 := 3
  const NOTIMP: u8 := 4
  const REFUSED: u8 := 5

  predicate KnownResultCode(c: u8) {
    c <= REFUSED
  }

  /** `ResultCode.String`: a defined code's name, "UNKNOWN" otherwise; every
      defined code fits the header's 4-bit field. */
  function ResultCodeString(c: u8): (r: string)
    ensures r == Unknown <==> !KnownResultCode(c)
    ensures r != Unknown ==> c < 16
  {
    if c == NOERROR then "NOERROR"
    else if c == FORMERR then "FORMERR"
    else if c == SERVFAIL then "SERVFAIL"
    else if c == NXDOMAIN then "NXDOMAIN"
    else if c == NOTIMP then "NOTIMP"
    else if c == REFUSED then "REFUSED"
    else Unknown
  }

  /** The name read back as a response code: the inverse of
      `ResultCodeString` on the defined codes. */
  function ResultCodeOf(s: string): (r: Option<u8>)
    ensures r.Some? ==> KnownResultCode(r.value)
  {
    if s == "NOERROR" then Some(NOERROR)
    else if s == "FORMERR" then Some(FORMERR)
    else if s == "SERVFAIL" then Some(SERVFAIL)
    else if s == "NXDOMAIN" then Some(NXDOMAIN)
    else if s == "NOTIMP" then Some(NOTIMP)
    else if s == "REFUSED" then Some(REFUSED)
    else None
  }

  /** Every defined code's name names that code and no other; "UNKNOWN"
      names none. */
  lemma ResultCodeStringInverse(c: u8)
    ensures KnownResultCode(c) ==> ResultCodeOf(ResultCodeString(c)) == Some(c)
    ensures !KnownResultCode(c) ==> ResultCodeOf(ResultCodeString(c)) == None
  {
  }

  /** Distinct defined codes have distinct names. */
  lemma ResultCodeStringInjective(a: u8, b: u8)
    requires KnownResultCode(a) && KnownResultCode(b) && ResultCodeString(a) == ResultCodeString(b)
    ensures a == b
  {
    ResultCodeStringInverse(a);
    ResultCodeStringInverse(b);
  }

  // Operation codes (OPCODE, 4 bits in the header).
  const QUERY: u8 := 0
  const INVERSE_QUERY: u8 := 1
  const SERVER_STATUS_REQUEST: u8 := 2

  predicate KnownOpcode(c: u8) {
    c <= SERVER_STATUS_REQUEST
  }

  /** `OPCODE.String`: the short names "QUERY", "IQUERY" and "STATUS", and
      "UNKNOWN" for every other value; every defined code fits the header's
      4-bit field. */
  function OpcodeString(c: u8): (r: string)
    ensures r == Unknown <==> !KnownOpcode(c)
    ensures r != Unknown ==> c < 16
  {
    if c == QUERY then "QUERY"
    else if c == INVERSE_QUERY then "IQUERY"
    else if c == SERVER_STATUS_REQUEST then "STATUS"
    else Unknown
  }

  /** The short name read back as an operation code: the inverse of
      `OpcodeString` on the defined codes. */
  function OpcodeOf(s: string): (r: Option<u8>)
    ensures r.Some? ==> KnownOpcode(r.value)
  {
    if s == "QUERY" then Some(QUERY)
    else if s == "IQUERY" then Some(INVERSE_QUERY)
    else if s == "STATUS" then Some(SERVER_STATUS_REQUEST)
    else None
  }

  /** Every defined operation code's short name names that code and no
      other; "UNKNOWN" names none. */
  lemma OpcodeStringInverse(c: u8)
    ensures KnownOpcode(c) ==> OpcodeOf(OpcodeString(c)) == Some(c)
    ensures !KnownOpcode(c) ==> OpcodeOf(OpcodeString(c)) == None
  {
  }

  /** Distinct defined operation codes have distinct names. */
  lemma OpcodeStringInjective(a: u8, b: u8)
    requires KnownOpcode(a) && KnownOpcode(b) && OpcodeString(a) == OpcodeString(b)
    ensures a == b
  {
    OpcodeStringInverse(a);
    OpcodeStringInverse(b);
  }

  // Classes (16 bits on the wire); IN is the only one defined.
  const IN: u16 := 1

  /** `Class.String`: "IN" for the Internet class, "UNKNOWN" otherwise. */
  function ClassString(c: u16): (r: string)
    ensures r == Unknown <==> c != IN
    ensures r == "IN" <==> c == IN
  {
    if c == IN then "IN" else Unknown
  }
}
