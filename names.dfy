/** Domain names on the wire (section 4.1.4 of RFC 1035): the dot-separated
    text form the Go code keeps, its uncompressed encoding, and the
    decompressing reader, stated as pure functions over the 512 buffer bytes. */
module Names {
  import opened Wire

  /** A domain name as the Go code holds it: a byte string whose labels are
      separated by dots. */
  type Name = seq<byte>

  const Dot: byte := 0x2E
  const MaxLabelLength: nat := 63
  const MaxJumps: nat := 5

  /** Labels joined by dots, with no leading or trailing dot. */
  function Join(ls: seq<Name>): (r: Name)
    requires |ls| >= 1
  {
    if |ls| == 1 then ls[0] else ls[0] + [Dot] + Join(ls[1..])
  }

  /** `strings.Split(s, ".")`: always at least one part, none holding a dot,
      and joining the parts gives `s` back. */
  function Split(s: Name): (r: seq<Name>)
    ensures |r| >= 1
    ensures forall i :: 0 <= i < |r| ==> Dot !in r[i]
    ensures Join(r) == s
  {
    if s == [] then [[]]
    else
      var rest := Split(s[1..]);
      if s[0] == Dot then
        assert s == [Dot] + s[1..];
        assert ([[]] + rest)[1..] == rest;
        [[]] + rest
      else
        var r := [[s[0]] + rest[0]] + rest[1..];
        assert r[1..] == rest[1..];
        assert s == [s[0]] + s[1..];
        r
  }

  /** Every label is 1 to 63 bytes: the names whose encoding reads back. */
  predicate ValidLabels(ls: seq<Name>) {
    forall i :: 0 <= i < |ls| ==> 1 <= |ls[i]| <= MaxLabelLength
  }

  predicate ValidName(name: Name) {
    ValidLabels(Split(name))
  }

  /** A name with labels of 1 to 63 bytes encodes. */
  lemma ValidNameEncodes(name: Name)
    requires ValidName(name)
    ensures EncodeName(name).ok
  {
  }

  /** One label on the wire: its length byte, then its bytes. */
  function LabelBytes(l: Name): (r: seq<byte>)
    requires |l| <= MaxLabelLength
    ensures |r| == |l| + 1 && r[0] == |l| && r[1..] == l
  {
    [|l|] + l
  }

  /** No label is longer than 63 bytes. */
  predicate LabelsFit(ls: seq<Name>) {
    forall i :: 0 <= i < |ls| ==> |ls[i]| <= MaxLabelLength
  }

  /** What `WriteLabel` emits for one label: its length byte and bytes, or
      an error before writing anything when it is longer than 63 bytes. */
  function LabelEmission(l: Name): (e: Emission)
    ensures e.ok <==> |l| <= MaxLabelLength
    ensures e.ok ==> e.bytes == LabelBytes(l)
  {
    if |l| > MaxLabelLength then Emission([], false) else Emit(LabelBytes(l))
  }

  /** What `WriteLabel`'s loop emits for the labels `ls`, stopping at the
      first label over 63 bytes. */
  function EncodeLabels(ls: seq<Name>): (e: Emission)
    ensures e.ok <==> LabelsFit(ls)
    ensures e.ok && |ls| >= 1 ==> |e.bytes| == |Join(ls)| + 1
    ensures ls == [] ==> e == Emit([])
  {
    if ls == [] then Emit([])
    else
      var rest := EncodeLabels(ls[1..]);
      assert forall i :: 1 <= i < |ls| ==> ls[i] == ls[1..][i - 1];
      Then(LabelEmission(ls[0]), rest)
  }

  lemma {:induction false} EncodeLabelsAppend(a: seq<Name>, b: seq<Name>)
    ensures EncodeLabels(a + b) == Then(EncodeLabels(a), EncodeLabels(b))
    decreases |a|
  {
    if a == [] {
      assert a + b == b;
    } else {
      assert (a + b)[1..] == a[1..] + b;
      assert (a + b)[0] == a[0];
      EncodeLabelsAppend(a[1..], b);
      ThenAssociative(LabelEmission(a[0]), EncodeLabels(a[1..]), EncodeLabels(b));
    }
  }

  /** The encoding of the first `i + 1` labels extends that of the first
      `i` by label `i`, and, when every label fits, is a prefix of the
      encoding of all of them. */
  lemma EncodeLabelsPrefix(ls: seq<Name>, i: nat)
    requires i < |ls| && |ls[i]| <= MaxLabelLength
    ensures EncodeLabels(ls[..i + 1]) == Then(EncodeLabels(ls[..i]), Emit(LabelBytes(ls[i])))
    ensures EncodeLabels(ls).ok ==> |EncodeLabels(ls).bytes| >= |EncodeLabels(ls[..i + 1]).bytes|
  {
    assert ls[..i + 1] == ls[..i] + [ls[i]];
    EncodeLabelsAppend(ls[..i], [ls[i]]);
    var single: seq<Name> := [ls[i]];
    assert single[1..] == [];
    assert EncodeLabels([ls[i]]) == Then(LabelEmission(ls[i]), Emit([]));
    assert ls == ls[..i + 1] + ls[i + 1..];
    EncodeLabelsAppend(ls[..i + 1], ls[i + 1..]);
  }

  /** What `WriteLabel` emits for `name`: the labels, then a zero byte. It
      fails exactly when some label is longer than 63 bytes, and otherwise
      takes two bytes more than the name's text. */
  function EncodeName(name: Name): (e: Emission)
    ensures e.ok <==> LabelsFit(Split(name))
    ensures e.ok ==> |e.bytes| == |name| + 2 && e.bytes[|e.bytes| - 1] == 0
  {
    Then(EncodeLabels(Split(name)), Emit([0]))
  }

  lemma EmptyNameEncoding()
    ensures EncodeName([]) == Emit([0, 0])
  {
    assert Split([]) == [[]];
    assert EncodeLabels([[]]) == Emit([0]);
  }

  /** A length byte with both top bits set is a compression pointer; every
      other value, 0x40 to 0xBF included, is a literal label length. */
  predicate IsPointer(b: byte) {
    b >= 0xC0
  }

  /** The offset a compression pointer `b next` designates: the low six bits
      of `b` followed by the eight bits of `next`. */
  function PointerTarget(b: byte, next: byte): (t: nat)
    requires IsPointer(b)
    ensures t < 0x4000
  {
    (b - 0xC0) * 256 + next
  }

  /** `IsPointer` and `PointerTarget` agree with the Go code's bit
      operations on the two bytes widened to 16 bits: the test
      `b & 0xC0 == 0xC0` and the offset `(b ^ 0xC0) << 8 | next`. */
  lemma PointerBits(b: bv16, next: bv16)
    requires b < 0x100 && next < 0x100
    ensures IsPointer(b as int) <==> b & 0xC0 == 0xC0
    ensures IsPointer(b as int) ==> PointerTarget(b as int, next as int) == (((b ^ 0xC0) << 8) | next) as int
  {
    assert (b & 0xC0 == 0xC0) <==> b >= 0xC0;
    if b >= 0xC0 {
      assert (((b ^ 0xC0) << 8) | next) == (b - 0xC0) * 256 + next;
    }
  }

  /** The state of `ReadLabel`'s loop: the local cursor, the number of jumps
      taken, the text read so far and the delimiter for the next label; `ext`
      is the buffer's external cursor. The result carries the name or the
      error, and where the external cursor is left. */
  function ReadNameLoop(buf: seq<byte>, local: nat, jumps: nat, acc: Name, delim: Name, ext: nat): (r: Decoded<Name>)
    requires |buf| == BufferSize && jumps <= MaxJumps + 1
    ensures ext < BufferSize ==> r.next < BufferSize
    decreases MaxJumps + 1 - jumps, BufferSize - local
  {
    if jumps > MaxJumps then Decoded(Err(TooManyJumps), ext)
    else if local > BufferSize - 1 then Decoded(Err(PosTooLarge), ext)
    else if IsPointer(buf[local]) then
      if jumps == 0 && local + 2 > BufferSize - 1 then Decoded(Err(PosTooLarge), ext)
      else
        var ext' := if jumps == 0 then local + 2 else ext;
        if local + 1 > BufferSize - 1 then Decoded(Err(PosTooLarge), ext')
        else ReadNameLoop(buf, PointerTarget(buf[local], buf[local + 1]), jumps + 1, acc, delim, ext')
    else
      var len := buf[local];
      if len == 0 then
        if jumps > 0 then Decoded(Ok(acc), ext)
        else if local + 1 > BufferSize - 1 then Decoded(Err(PosTooLarge), ext)
        else Decoded(Ok(acc), local + 1)
      else if local + 1 + len > BufferSize then Decoded(Err(BufferOverflow(local + 1 + len)), ext)
      else ReadNameLoop(buf, local + 1 + len, jumps, acc + delim + buf[local + 1..local + 1 + len], [Dot], ext)
  }

  /** `ReadLabel` started with the external cursor at `s`. */
  function ReadName(buf: seq<byte>, s: nat): (r: Decoded<Name>)
    requires |buf| == BufferSize
    ensures s < BufferSize ==> r.next < BufferSize
  {
    ReadNameLoop(buf, s, 0, [], [], s)
  }

  /** The text `ReadLabel` appends for the literal labels `ls`. */
  function Joined(delim: Name, ls: seq<Name>): Name {
    if ls == [] then [] else delim + Join(ls)
  }

  /** One step of the loop over a literal label `l`. */
  lemma ReadOneLabel(buf: seq<byte>, local: nat, jumps: nat, acc: Name, delim: Name, ext: nat, l: Name)
    requires |buf| == BufferSize && jumps <= MaxJumps && 1 <= |l| <= MaxLabelLength
    requires local + 1 + |l| <= BufferSize && buf[local] == |l|
    requires buf[local + 1..local + 1 + |l|] == l
    ensures ReadNameLoop(buf, local, jumps, acc, delim, ext)
         == ReadNameLoop(buf, local + 1 + |l|, jumps, acc + delim + l, [Dot], ext)
  {
  }

  /** Reading over the encoding of valid literal labels appends them to the
      text, whatever follows them in the buffer. */
  lemma {:induction false} SkipLabels(buf: seq<byte>, local: nat, jumps: nat, acc: Name, delim: Name, ext: nat, ls: seq<Name>)
    requires |buf| == BufferSize && jumps <= MaxJumps && ValidLabels(ls)
    requires local + |EncodeLabels(ls).bytes| <= BufferSize
    requires buf[local..local + |EncodeLabels(ls).bytes|] == EncodeLabels(ls).bytes
    ensures ReadNameLoop(buf, local, jumps, acc, delim, ext)
         == ReadNameLoop(buf, local + |EncodeLabels(ls).bytes|, jumps, acc + Joined(delim, ls),
                         if ls == [] then delim else [Dot], ext)
    decreases |ls|, 1
  {
    if ls == [] {
      assert acc + Joined(delim, ls) == acc;
      assert |EncodeLabels(ls).bytes| == 0;
    } else {
      SkipFirstLabel(buf, local, jumps, acc, delim, ext, ls);
    }
  }

  /** The inductive step of `SkipLabels`: read the first label, then the rest. */
  lemma {:induction false} SkipFirstLabel(buf: seq<byte>, local: nat, jumps: nat, acc: Name, delim: Name, ext: nat, ls: seq<Name>)
    requires |buf| == BufferSize && jumps <= MaxJumps && ValidLabels(ls) && ls != []
    requires local + |EncodeLabels(ls).bytes| <= BufferSize
    requires buf[local..local + |EncodeLabels(ls).bytes|] == EncodeLabels(ls).bytes
    ensures ReadNameLoop(buf, local, jumps, acc, delim, ext)
         == ReadNameLoop(buf, local + |EncodeLabels(ls).bytes|, jumps, acc + Joined(delim, ls), [Dot], ext)
    decreases |ls|, 0
  {
    var l, rest := ls[0], ls[1..];
    var next := FirstLabelAt(buf, local, ls);
    var a1 := acc + delim + l;
    ReadOneLabel(buf, local, jumps, acc, delim, ext, l);
    assert ReadNameLoop(buf, local, jumps, acc, delim, ext) == ReadNameLoop(buf, next, jumps, a1, [Dot], ext);
    SkipLabels(buf, next, jumps, a1, [Dot], ext, rest);
    var end := next + |EncodeLabels(rest).bytes|;
    assert end == local + |EncodeLabels(ls).bytes|;
    assert ReadNameLoop(buf, next, jumps, a1, [Dot], ext)
        == ReadNameLoop(buf, end, jumps, a1 + Joined([Dot], rest), [Dot], ext);
    JoinedCons(acc, delim, ls);
  }

  /** Where the encoding of `ls` sits in the buffer, its first label and
      the encoding of the remaining labels sit. */
  lemma FirstLabelAt(buf: seq<byte>, local: nat, ls: seq<Name>) returns (next: nat)
    requires |buf| == BufferSize && ValidLabels(ls) && ls != []
    requires local + |EncodeLabels(ls).bytes| <= BufferSize
    requires buf[local..local + |EncodeLabels(ls).bytes|] == EncodeLabels(ls).bytes
    ensures next == local + 1 + |ls[0]| && 1 <= |ls[0]| <= MaxLabelLength
    ensures ValidLabels(ls[1..])
    ensures next + |EncodeLabels(ls[1..]).bytes| == local + |EncodeLabels(ls).bytes|
    ensures buf[local] == |ls[0]| && buf[local + 1..next] == ls[0]
    ensures buf[next..next + |EncodeLabels(ls[1..]).bytes|] == EncodeLabels(ls[1..]).bytes
  {
    var l, rest := ls[0], ls[1..];
    assert ValidLabels(rest) by {
      forall i | 0 <= i < |rest| ensures 1 <= |rest[i]| <= MaxLabelLength {
        assert rest[i] == ls[i + 1];
      }
    }
    var lb := LabelBytes(l);
    var er := EncodeLabels(rest).bytes;
    var e := EncodeLabels(ls).bytes;
    assert e == lb + er;
    next := local + 1 + |l|;
    Split2(buf, local, e, lb, er);
    SliceAt(buf, local, lb, 0, 1);
    SliceAt(buf, local, lb, 1, |lb|);
    assert buf[local] == buf[local..local + 1][0];
  }

  lemma JoinedCons(acc: Name, delim: Name, ls: seq<Name>)
    requires ls != []
    ensures acc + delim + ls[0] + Joined([Dot], ls[1..]) == acc + Joined(delim, ls)
  {
    var l, rest := ls[0], ls[1..];
    if rest == [] {
      assert Join(ls) == l;
    } else {
      assert Join(ls) == l + [Dot] + Join(rest);
    }
  }

  /** Round trip of `WriteLabel` and `ReadLabel`: a name whose labels are all
      1 to 63 bytes, written at `s`, reads back as the same name, and the
      external cursor ends just past the terminating zero. */
  lemma {:induction false} ReadNameRoundTrip(buf: seq<byte>, s: nat, name: Name)
    requires |buf| == BufferSize && ValidName(name)
    requires s + |EncodeName(name).bytes| <= BufferSize - 1
    requires buf[s..s + |EncodeName(name).bytes|] == EncodeName(name).bytes
    ensures ReadName(buf, s) == Decoded(Ok(name), s + |EncodeName(name).bytes|)
  {
    var ls := Split(name);
    var el := EncodeLabels(ls).bytes;
    assert EncodeName(name).bytes == el + [0];
    assert buf[s..s + |el|] == el by {
      assert buf[s..s + |el|] == EncodeName(name).bytes[..|el|];
    }
    SkipLabels(buf, s, 0, [], [], s, ls);
    assert buf[s + |el|] == EncodeName(name).bytes[|el|];
    assert Joined([], ls) == name;
  }

  /** Reading a valid name whose encoding starts at `t`, after at least one
      jump: the name is returned and the external cursor is left alone. */
  lemma {:induction false} ReadNameAfterJump(buf: seq<byte>, t: nat, jumps: nat, ext: nat, name: Name)
    requires |buf| == BufferSize && 1 <= jumps <= MaxJumps && ValidName(name)
    requires t + |EncodeName(name).bytes| <= BufferSize
    requires buf[t..t + |EncodeName(name).bytes|] == EncodeName(name).bytes
    ensures ReadNameLoop(buf, t, jumps, [], [], ext) == Decoded(Ok(name), ext)
  {
    var ls := Split(name);
    var el := EncodeLabels(ls).bytes;
    assert EncodeName(name).bytes == el + [0];
    assert buf[t..t + |el|] == el by {
      assert buf[t..t + |el|] == EncodeName(name).bytes[..|el|];
    }
    SkipLabels(buf, t, jumps, [], [], ext, ls);
    assert buf[t + |el|] == EncodeName(name).bytes[|el|];
    assert Joined([], ls) == name;
  }

  /** A name written once and referenced again by a compression pointer at
      `q` reads back, at the pointer, as the same name; the external cursor
      ends just past the 2-byte pointer. */
  lemma PointerToName(buf: seq<byte>, q: nat, t: nat, name: Name)
    requires |buf| == BufferSize && ValidName(name)
    requires q + 2 <= BufferSize - 1 && IsPointer(buf[q]) && PointerTarget(buf[q], buf[q + 1]) == t
    requires t + |EncodeName(name).bytes| <= BufferSize
    requires buf[t..t + |EncodeName(name).bytes|] == EncodeName(name).bytes
    ensures ReadName(buf, q) == Decoded(Ok(name), q + 2)
  {
    ReadNameAfterJump(buf, t, 1, q + 2, name);
  }

  /** `ps` is a chain of compression pointers: the pointer at each position
      leads to the next position. */
  predicate PointerChain(buf: seq<byte>, ps: seq<nat>)
    requires |buf| == BufferSize
  {
    forall i :: 0 <= i < |ps| - 1 ==>
      ps[i] + 1 < BufferSize && IsPointer(buf[ps[i]]) && PointerTarget(buf[ps[i]], buf[ps[i] + 1]) == ps[i + 1]
  }

  /** Following a pointer chain after the first jump neither reads labels nor
      moves the external cursor; it only counts jumps. */
  lemma {:induction false} FollowChain(buf: seq<byte>, ps: seq<nat>, jumps: nat, acc: Name, delim: Name, ext: nat)
    requires |buf| == BufferSize && |ps| >= 1 && PointerChain(buf, ps)
    requires 1 <= jumps && jumps + |ps| - 1 <= MaxJumps + 1
    ensures ReadNameLoop(buf, ps[0], jumps, acc, delim, ext)
         == ReadNameLoop(buf, ps[|ps| - 1], jumps + |ps| - 1, acc, delim, ext)
    decreases |ps|
  {
    if |ps| > 1 {
      assert PointerChain(buf, ps[1..]) by {
        forall i | 0 <= i < |ps[1..]| - 1
          ensures ps[1..][i] + 1 < BufferSize && IsPointer(buf[ps[1..][i]])
               && PointerTarget(buf[ps[1..][i]], buf[ps[1..][i] + 1]) == ps[1..][i + 1]
        {
          assert ps[1..][i] == ps[i + 1] && ps[1..][i + 1] == ps[i + 2];
        }
      }
      FollowChain(buf, ps[1..], jumps + 1, acc, delim, ext);
    }
  }

  /** Reading from the head of a pointer chain jumps along the whole chain,
      leaving the external cursor 2 bytes past the first pointer. */
  lemma FromChainHead(buf: seq<byte>, ps: seq<nat>)
    requires |buf| == BufferSize && 2 <= |ps| <= MaxJumps + 2 && PointerChain(buf, ps)
    requires ps[0] + 2 <= BufferSize - 1
    ensures ReadName(buf, ps[0]) == ReadNameLoop(buf, ps[|ps| - 1], |ps| - 1, [], [], ps[0] + 2)
  {
    assert IsPointer(buf[ps[0]]) && PointerTarget(buf[ps[0]], buf[ps[0] + 1]) == ps[1];
    assert ReadName(buf, ps[0]) == ReadNameLoop(buf, ps[1], 1, [], [], ps[0] + 2);
    assert PointerChain(buf, ps[1..]) by {
      forall i | 0 <= i < |ps[1..]| - 1
        ensures ps[1..][i] + 1 < BufferSize && IsPointer(buf[ps[1..][i]])
             && PointerTarget(buf[ps[1..][i]], buf[ps[1..][i] + 1]) == ps[1..][i + 1]
      {
        assert ps[1..][i] == ps[i + 1] && ps[1..][i + 1] == ps[i + 2];
      }
    }
    FollowChain(buf, ps[1..], 1, [], [], ps[0] + 2);
    assert ps[1..][|ps[1..]| - 1] == ps[|ps| - 1];
  }

  /** Up to five chained pointers are followed: the name at the end of the
      chain is returned and the cursor ends 2 bytes past the first pointer. */
  lemma FiveJumpsSucceed(buf: seq<byte>, ps: seq<nat>, name: Name)
    requires |buf| == BufferSize && 2 <= |ps| <= MaxJumps + 1 && PointerChain(buf, ps)
    requires ps[0] + 2 <= BufferSize - 1 && ValidName(name)
    requires ps[|ps| - 1] + |EncodeName(name).bytes| <= BufferSize
    requires buf[ps[|ps| - 1]..ps[|ps| - 1] + |EncodeName(name).bytes|] == EncodeName(name).bytes
    ensures ReadName(buf, ps[0]) == Decoded(Ok(name), ps[0] + 2)
  {
    FromChainHead(buf, ps);
    ReadNameAfterJump(buf, ps[|ps| - 1], |ps| - 1, ps[0] + 2, name);
  }

  /** A sixth chained pointer is refused: decoding fails with the jump-limit
      error, whatever the chain leads to. */
  lemma SixthJumpFails(buf: seq<byte>, ps: seq<nat>)
    requires |buf| == BufferSize && |ps| == MaxJumps + 2 && PointerChain(buf, ps)
    requires ps[0] + 2 <= BufferSize - 1
    ensures ReadName(buf, ps[0]) == Decoded(Err(TooManyJumps), ps[0] + 2)
  {
    FromChainHead(buf, ps);
  }

  /** Once a pointer has been taken, the external cursor never moves again,
      whether the name then succeeds or fails. */
  lemma {:induction false} LaterJumpsKeepCursor(buf: seq<byte>, local: nat, jumps: nat, acc: Name, delim: Name, ext: nat)
    requires |buf| == BufferSize && 1 <= jumps <= MaxJumps + 1
    ensures ReadNameLoop(buf, local, jumps, acc, delim, ext).next == ext
    decreases MaxJumps + 1 - jumps, BufferSize - local
  {
    if jumps <= MaxJumps && local <= BufferSize - 1 {
      if IsPointer(buf[local]) {
        if local + 1 <= BufferSize - 1 {
          LaterJumpsKeepCursor(buf, PointerTarget(buf[local], buf[local + 1]), jumps + 1, acc, delim, ext);
        }
      } else {
        var len := buf[local];
        if len != 0 && local + 1 + len <= BufferSize {
          LaterJumpsKeepCursor(buf, local + 1 + len, jumps, acc + delim + buf[local + 1..local + 1 + len], [Dot], ext);
        }
      }
    }
  }

  /** When a name starts with valid literal labels followed by a pointer at
      `q`, the external cursor ends exactly 2 bytes past that first pointer,
      however many pointers follow and whether or not the name reads. */
  lemma {:induction false} FirstPointerCursor(buf: seq<byte>, s: nat, ls: seq<Name>)
    requires |buf| == BufferSize && ValidLabels(ls)
    requires s + |EncodeLabels(ls).bytes| + 2 <= BufferSize - 1
    requires buf[s..s + |EncodeLabels(ls).bytes|] == EncodeLabels(ls).bytes
    requires IsPointer(buf[s + |EncodeLabels(ls).bytes|])
    ensures ReadName(buf, s).next == s + |EncodeLabels(ls).bytes| + 2
  {
    var q := s + |EncodeLabels(ls).bytes|;
    SkipLabels(buf, s, 0, [], [], s, ls);
    var acc := Joined([], ls);
    var delim: Name := if ls == [] then [] else [Dot];
    assert [] + Joined([], ls) == acc;
    assert ReadName(buf, s) == ReadNameLoop(buf, q, 0, acc, delim, s);
    LaterJumpsKeepCursor(buf, PointerTarget(buf[q], buf[q + 1]), 1, acc, delim, q + 2);
  }

  /** A length byte in 0x40..0xBF is read as a literal label of that many
      bytes, although no writer would produce such a label. */
  lemma WideLengthIsLiteral(buf: seq<byte>, s: nat)
    requires |buf| == BufferSize && s < BufferSize && 0x40 <= buf[s] < 0xC0
    requires s + 1 + buf[s] + 1 <= BufferSize - 1 && buf[s + 1 + buf[s]] == 0
    ensures ReadName(buf, s) == Decoded(Ok(buf[s + 1..s + 1 + buf[s]]), s + 2 + buf[s])
  {
    var len := buf[s];
    var chunk := buf[s + 1..s + 1 + len];
    assert [] + [] + chunk == chunk;
    assert ReadName(buf, s) == ReadNameLoop(buf, s + 1 + len, 0, chunk, [Dot], s);
  }
}
