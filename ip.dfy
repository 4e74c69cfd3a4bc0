/** IP addresses as carried by A and AAAA records: length-checked
    constructors and the textual forms the resolver uses as server
    addresses (dotted decimal for IPv4, eight colon-separated groups of
    four lower-case hex digits for IPv6). */
module Ip {
  import opened Wire

  datatype IPv4 = IPv4(octets: seq<byte>)
  datatype IPv6 = IPv6(data: seq<byte>)

  /** `NewIPv4`: exactly four bytes are accepted, and kept unchanged. */
  function NewIPv4(data: seq<byte>): (r: Result<IPv4>)
    ensures r.Ok? <==> |data| == 4
    ensures r.Ok? ==> r.value.octets == data
    ensures r.Err? ==> r.error == InvalidIP
  {
    if |data| != 4 then Err(InvalidIP) else Ok(IPv4(data))
  }

  /** `NewIPv6`: exactly sixteen bytes are accepted, and kept unchanged. */
  function NewIPv6(data: seq<byte>): (r: Result<IPv6>)
    ensures r.Ok? <==> |data| == 16
    ensures r.Ok? ==> r.value.data == data
    ensures r.Err? ==> r.error == InvalidIP
  {
    if |data| != 16 then Err(InvalidIP) else Ok(IPv6(data))
  }

  // Decimal rendering (`%d`).

  predicate IsDigit(c: char) {
    '0' <= c <= '9'
  }

  predicate Digits(s: string) {
    forall i :: 0 <= i < |s| ==> IsDigit(s[i])
  }

  function DigitChar(d: nat): (c: char)
    requires d < 10
    ensures IsDigit(c) && DigitValue(c) == d
  {
    ('0' as int + d) as char
  }

  function DigitValue(c: char): nat
    requires IsDigit(c)
  {
    c as int - '0' as int
  }

  /** `%d` of `n`: its decimal digits, most significant first, without
      leading zeros. */
  function Decimal(n: nat): (r: string)
    ensures |r| >= 1 && Digits(r)
    ensures |r| > 1 ==> r[0] != '0'
  {
    if n < 10 then [DigitChar(n)] else Decimal(n / 10) + [DigitChar(n % 10)]
  }

  /** The number a string of decimal digits denotes. */
  function DecimalValue(s: string): nat
    requires Digits(s)
  {
    if s == [] then 0 else DecimalValue(s[..|s| - 1]) * 10 + DigitValue(s[|s| - 1])
  }

  /** `%d` loses nothing: the digits denote the number printed. */
  lemma {:induction false} DecimalRoundTrip(n: nat)
    ensures DecimalValue(Decimal(n)) == n
  {
    if n >= 10 {
      var s := Decimal(n / 10);
      assert (s + [DigitChar(n % 10)])[..|s|] == s;
      DecimalRoundTrip(n / 10);
    }
  }

  /** `IPv4.String`: the four octets in decimal, joined by dots. */
  function IPv4String(ip: IPv4): (r: string)
    requires |ip.octets| == 4
  {
    var o := ip.octets;
    Decimal(o[0]) + "." + Decimal(o[1]) + "." + Decimal(o[2]) + "." + Decimal(o[3])
  }

  lemma DotAfter(x: string, y: string)
    ensures (x + "." + y)[|x|] == '.'
  {
  }

  lemma DigitsBeforeDot(x: string, y: string, i: nat)
    requires i < |x| && IsDigit(x[i])
    ensures (x + "." + y)[i] != '.'
  {
    assert (x + "." + y)[i] == x[i];
  }

  /** Two digit strings each followed by a dot split the same string at
      the same place. */
  lemma SplitAtDot(x: string, y: string, x': string, y': string)
    requires Digits(x) && Digits(x') && x + "." + y == x' + "." + y'
    ensures x == x' && y == y'
  {
    if |x'| < |x| {
      DotAfter(x', y');
      DigitsBeforeDot(x, y, |x'|);
      assert false;
    } else if |x| < |x'| {
      DotAfter(x, y);
      DigitsBeforeDot(x', y', |x|);
      assert false;
    }
    assert x == (x + "." + y)[..|x|] == (x' + "." + y')[..|x|] == x';
    assert y == (x + "." + y)[|x| + 1..] == (x' + "." + y')[|x| + 1..] == y';
  }

  /** Four digit strings joined by dots can be told apart again. */
  lemma DottedInjective(x0: string, x1: string, x2: string, x3: string, y0: string, y1: string, y2: string, y3: string)
    requires Digits(x0) && Digits(x1) && Digits(x2) && Digits(y0) && Digits(y1) && Digits(y2)
    requires x0 + "." + x1 + "." + x2 + "." + x3 == y0 + "." + y1 + "." + y2 + "." + y3
    ensures x0 == y0 && x1 == y1 && x2 == y2 && x3 == y3
  {
    var tx, ty := x1 + "." + x2 + "." + x3, y1 + "." + y2 + "." + y3;
    assert x0 + "." + x1 + "." + x2 + "." + x3 == x0 + "." + tx;
    assert y0 + "." + y1 + "." + y2 + "." + y3 == y0 + "." + ty;
    SplitAtDot(x0, tx, y0, ty);
    assert tx == x1 + "." + (x2 + "." + x3) && ty == y1 + "." + (y2 + "." + y3);
    SplitAtDot(x1, x2 + "." + x3, y1, y2 + "." + y3);
    SplitAtDot(x2, x3, y2, y3);
  }

  /** Distinct addresses print differently, so the dotted string the
      resolver uses as the next server names exactly the address found. */
  lemma IPv4StringInjective(a: IPv4, b: IPv4)
    requires |a.octets| == 4 && |b.octets| == 4 && IPv4String(a) == IPv4String(b)
    ensures a == b
  {
    var p, q := a.octets, b.octets;
    DottedInjective(Decimal(p[0]), Decimal(p[1]), Decimal(p[2]), Decimal(p[3]),
                    Decimal(q[0]), Decimal(q[1]), Decimal(q[2]), Decimal(q[3]));
    DecimalRoundTrip(p[0]); DecimalRoundTrip(q[0]);
    DecimalRoundTrip(p[1]); DecimalRoundTrip(q[1]);
    DecimalRoundTrip(p[2]); DecimalRoundTrip(q[2]);
    DecimalRoundTrip(p[3]); DecimalRoundTrip(q[3]);
    assert p == q;
  }

  // Hexadecimal rendering (`%02x`).

  predicate IsHexDigit(c: char) {
    '0' <= c <= '9' || 'a' <= c <= 'f'
  }

  function HexValue(c: char): (d: nat)
    requires IsHexDigit(c)
    ensures d < 16
  {
    if c <= '9' then c as int - '0' as int else c as int - 'a' as int + 10
  }

  function HexDigit(d: nat): (c: char)
    requires d < 16
    ensures IsHexDigit(c) && HexValue(c) == d
  {
    if d < 10 then ('0' as int + d) as char else ('a' as int + d - 10) as char
  }

  /** `%02x` of a byte: always two lower-case digits, high nibble first. */
  function Hex2(b: byte): (r: string)
    ensures |r| == 2 && IsHexDigit(r[0]) && IsHexDigit(r[1])
    ensures HexValue(r[0]) * 16 + HexValue(r[1]) == b
  {
    [HexDigit(b / 16), HexDigit(b % 16)]
  }

  /** Consecutive pairs of bytes as colon-separated groups of four hex
      digits, with no zero compression. */
  function Groups(d: seq<byte>): (r: string)
    requires |d| >= 2 && |d| % 2 == 0
    ensures |r| == 5 * (|d| / 2) - 1
    decreases |d|
  {
    if |d| == 2 then Hex2(d[0]) + Hex2(d[1])
    else Hex2(d[0]) + Hex2(d[1]) + ":" + Groups(d[2..])
  }

  /** `IPv6.String`: eight groups, 39 characters. */
  function IPv6String(ip: IPv6): (r: string)
    requires |ip.data| == 16
    ensures |r| == 39
  {
    Groups(ip.data)
  }

  /** The two bytes four hex digits denote. */
  function GroupValue(g: string): Option<seq<byte>>
    requires |g| == 4
  {
    if IsHexDigit(g[0]) && IsHexDigit(g[1]) && IsHexDigit(g[2]) && IsHexDigit(g[3])
    then Some([HexValue(g[0]) * 16 + HexValue(g[1]), HexValue(g[2]) * 16 + HexValue(g[3])])
    else None
  }

  /** Reads colon-separated groups of four hex digits back into bytes. */
  function ParseGroups(s: string): Option<seq<byte>>
    decreases |s|
  {
    if |s| < 4 || GroupValue(s[..4]).None? then None
    else if |s| == 4 then GroupValue(s)
    else if s[4] != ':' then None
    else match ParseGroups(s[5..]) {
      case None => None
      case Some(rest) => Some(GroupValue(s[..4]).value + rest)
    }
  }

  /** A group written by `Hex2` reads back as its two bytes. */
  lemma GroupRoundTrip(b0: byte, b1: byte)
    ensures GroupValue(Hex2(b0) + Hex2(b1)) == Some([b0, b1])
  {
    var g := Hex2(b0) + Hex2(b1);
    assert g[0] == Hex2(b0)[0] && g[1] == Hex2(b0)[1] && g[2] == Hex2(b1)[0] && g[3] == Hex2(b1)[1];
  }

  /** The rendering is read back exactly: every byte is recoverable from
      its two hex digits, so distinct addresses print differently. */
  lemma {:induction false} GroupsRoundTrip(d: seq<byte>)
    requires |d| >= 2 && |d| % 2 == 0
    ensures ParseGroups(Groups(d)) == Some(d)
    decreases |d|
  {
    var s := Groups(d);
    var g := Hex2(d[0]) + Hex2(d[1]);
    GroupRoundTrip(d[0], d[1]);
    if |d| > 2 {
      var rest := Groups(d[2..]);
      assert s == g + ":" + rest;
      assert s[..4] == g && s[4] == ':' && s[5..] == rest;
      GroupsRoundTrip(d[2..]);
      assert d == [d[0], d[1]] + d[2..];
    } else {
      assert s == g && s[..4] == g && d == [d[0], d[1]];
    }
  }

  lemma IPv6StringRoundTrip(ip: IPv6)
    requires |ip.data| == 16
    ensures ParseGroups(IPv6String(ip)) == Some(ip.data)
  {
    GroupsRoundTrip(ip.data);
  }
}
