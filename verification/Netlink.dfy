/**
 The rtnetlink address dump: attributes and messages as length-prefixed records with four-byte
 padding (section 2.3.2 of RFC 3549). Numbers are little-endian, the byte order of every supported board.
 */
module Netlink {
  import opened Collections

  type byte = b: int | 0 <= b < 256
  type u16 = n: int | 0 <= n < 0x1_0000
  type u32 = n: int | 0 <= n < 0x1_0000_0000

  const NLMSG_ERROR: u16 := 0x2
  const NLMSG_DONE: u16 := 0x3
  const RTM_GETADDR: u16 := 22
  const IFA_ADDRESS: u16 := 1
  const IFA_LOCAL: u16 := 2
  const AF_INET: byte := 2
  const AF_INET6: byte := 10

  const NLMSG_HDR_SIZE: nat := 16
  const IFADDRMSG_SIZE: nat := 8
  const RTATTR_SIZE: nat := 4
  const EPROTO: int := 71

  function Align(length: nat): (r: nat)
    ensures r % 4 == 0 && length <= r < length + 4
  {
    (length + 3) / 4 * 4
  }

  function ReadU16(data: seq<byte>, at: nat): u16
    requires at + 2 <= |data|
  {
    var low: int, high: int := data[at], data[at + 1];
    low + 0x100 * high
  }

  function ReadU32(data: seq<byte>, at: nat): u32
    requires at + 4 <= |data|
  {
    var low: int, high: int := ReadU16(data, at), ReadU16(data, at + 2);
    low + 0x1_0000 * high
  }

  function PackU16(n: u16): (r: seq<byte>)
    ensures |r| == 2
  {
    [n % 0x100, n / 0x100]
  }

  function PackU32(n: u32): (r: seq<byte>)
    ensures |r| == 4
  {
    PackU16(n % 0x1_0000) + PackU16(n / 0x1_0000)
  }

  lemma UnpackU16(before: seq<byte>, n: u16, after: seq<byte>)
    ensures ReadU16(before + PackU16(n) + after, |before|) == n
  {
  }

  lemma UnpackU32(before: seq<byte>, n: u32, after: seq<byte>)
    ensures ReadU32(before + PackU32(n) + after, |before|) == n
  {
    var data := before + PackU32(n) + after;
    assert data[|before|] == n % 0x1_0000 % 0x100 && data[|before| + 1] == n % 0x1_0000 / 0x100;
    assert data[|before| + 2] == n / 0x1_0000 % 0x100 && data[|before| + 3] == n / 0x1_0000 / 0x100;
  }

  // ----- attributes

  datatype Attribute = Attribute(kind: u16, value: seq<byte>)

  /** The attributes from `at` on; a truncated or too short record ends the run. */
  function Attributes(payload: seq<byte>, at: nat): seq<Attribute>
    decreases |payload| - at
  {
    if at + RTATTR_SIZE > |payload| then [] else
      var length := ReadU16(payload, at);
      if length < RTATTR_SIZE || at + length > |payload| then [] else
        [Attribute(ReadU16(payload, at + 2), payload[at + RTATTR_SIZE..at + length])] + Attributes(payload, at + Align(length))
  }

  predicate RecordAt(payload: seq<byte>, at: nat) {
    at + RTATTR_SIZE <= |payload|
    && var length := ReadU16(payload, at); RTATTR_SIZE <= length && at + length <= |payload|
  }

  function AttributeAt(payload: seq<byte>, at: nat): Attribute
    requires RecordAt(payload, at)
  {
    Attribute(ReadU16(payload, at + 2), payload[at + RTATTR_SIZE..at + ReadU16(payload, at)])
  }

  lemma Unfold(payload: seq<byte>, at: nat)
    ensures Attributes(payload, at) ==
            if RecordAt(payload, at) then [AttributeAt(payload, at)] + Attributes(payload, at + Align(ReadU16(payload, at))) else []
  {
  }

  method IterAttributes(payload: seq<byte>) returns (attributes: seq<Attribute>)
    ensures attributes == Attributes(payload, 0)
  {
    hide Attributes, Align, ReadU16;
    attributes := [];
    var offset := 0;
    while offset + RTATTR_SIZE <= |payload|
      invariant attributes + Attributes(payload, offset) == Attributes(payload, 0)
    {
      Unfold(payload, offset);
      var length := ReadU16(payload, offset);
      if length < RTATTR_SIZE || offset + length > |payload| {
        return;
      }
      var value := payload[offset + RTATTR_SIZE..offset + length];
      attributes := attributes + [Attribute(ReadU16(payload, offset + 2), value)];
      offset := offset + Align(length);
    }
    Unfold(payload, offset);
  }

  function Padding(n: nat): (r: seq<byte>)
    ensures |r| == n
  {
    seq(n, _ => 0)
  }

  predicate Fits(a: Attribute) { RTATTR_SIZE + |a.value| < 0x1_0000 }

  function EncodeAttribute(a: Attribute): (r: seq<byte>)
    requires Fits(a)
    ensures |r| == Align(RTATTR_SIZE + |a.value|)
  {
    var length := RTATTR_SIZE + |a.value|;
    PackU16(length) + PackU16(a.kind) + a.value + Padding(Align(length) - length)
  }

  function EncodeAttributes(attributes: seq<Attribute>): (r: seq<byte>)
    requires forall a :: a in attributes ==> Fits(a)
    ensures |r| % 4 == 0
  {
    if attributes == [] then [] else EncodeAttribute(attributes[0]) + EncodeAttributes(attributes[1..])
  }

  lemma SliceMiddle(before: seq<byte>, middle: seq<byte>, after: seq<byte>)
    ensures (before + middle + after)[|before|..|before| + |middle|] == middle
  {
  }

  // What the parser reads off one encoded record, wherever it stands.
  lemma ReadRecord(before: seq<byte>, a: Attribute, pad: seq<byte>, after: seq<byte>)
    requires Fits(a)
    ensures var length := RTATTR_SIZE + |a.value|;
            var payload := before + (PackU16(length) + PackU16(a.kind) + a.value + pad) + after;
            && ReadU16(payload, |before|) == length
            && ReadU16(payload, |before| + 2) == a.kind
            && payload[|before| + RTATTR_SIZE..|before| + length] == a.value
  {
    hide PackU16, ReadU16;
    var length := RTATTR_SIZE + |a.value|;
    var head, kind := PackU16(length), PackU16(a.kind);
    var payload := before + (head + kind + a.value + pad) + after;
    assert payload == before + head + (kind + a.value + pad + after);
    UnpackU16(before, length, kind + a.value + pad + after);
    assert payload == (before + head) + kind + (a.value + pad + after);
    UnpackU16(before + head, a.kind, a.value + pad + after);
    assert payload == (before + head + kind) + a.value + (pad + after);
    SliceMiddle(before + head + kind, a.value, pad + after);
  }

  lemma DecodeOne(before: seq<byte>, a: Attribute, after: seq<byte>, payload: seq<byte>)
    requires Fits(a) && payload == before + EncodeAttribute(a) + after
    ensures Attributes(payload, |before|) == [a] + Attributes(payload, |before| + |EncodeAttribute(a)|)
  {
    hide PackU16, ReadU16, Attributes;
    var length := RTATTR_SIZE + |a.value|;
    ReadRecord(before, a, Padding(Align(length) - length), after);
    Unfold(payload, |before|);
    assert AttributeAt(payload, |before|) == a;
  }

  lemma {:induction false} DecodeAll(before: seq<byte>, attributes: seq<Attribute>)
    requires forall a :: a in attributes ==> Fits(a)
    ensures Attributes(before + EncodeAttributes(attributes), |before|) == attributes
    decreases |attributes|
  {
    hide EncodeAttribute;
    if attributes == [] {
      assert before + [] == before;
    } else {
      var a, rest := attributes[0], EncodeAttributes(attributes[1..]);
      assert before + EncodeAttributes(attributes) == before + EncodeAttribute(a) + rest;
      DecodeOne(before, a, rest, before + EncodeAttributes(attributes));
      DecodeAll(before + EncodeAttribute(a), attributes[1..]);
    }
  }

  /** Parsing undoes encoding. */
  lemma AttributesRoundTrip(attributes: seq<Attribute>)
    requires forall a :: a in attributes ==> Fits(a)
    ensures Attributes(EncodeAttributes(attributes), 0) == attributes
  {
    assert [] + EncodeAttributes(attributes) == EncodeAttributes(attributes);
    DecodeAll([], attributes);
  }

  /** Truncating a payload costs attributes at the end only. */
  lemma {:induction false} TruncationIsPrefix(payload: seq<byte>, n: nat, at: nat)
    requires n <= |payload|
    ensures Attributes(payload[..n], at) <= Attributes(payload, at)
    decreases |payload| - at
  {
    hide Attributes, Align;
    var cut := payload[..n];
    Unfold(cut, at);
    Unfold(payload, at);
    if RecordAt(cut, at) {
      assert cut[at + RTATTR_SIZE..at + ReadU16(cut, at)] == payload[at + RTATTR_SIZE..at + ReadU16(payload, at)];
      TruncationIsPrefix(payload, n, at + Align(ReadU16(payload, at)));
    }
  }

  // ----- one address message

  // Interface names by index, as the host knows them at the lookup.
  type Names = map<u32, string>

  // The address before its textual rendering.
  datatype Address = Address(interface: string, family: byte, raw: seq<byte>)

  function AddressSize(family: byte): Option<nat> {
    if family == AF_INET then Some(4) else if family == AF_INET6 then Some(16) else None
  }

  /** The last value of a kind. */
  function LastValue(attributes: seq<Attribute>, kind: u16): Option<seq<byte>> {
    if attributes == [] then None else
      var last := attributes[|attributes| - 1];
      if last.kind == kind then Some(last.value) else LastValue(attributes[..|attributes| - 1], kind)
  }

  /** What a message says, from its parts: a non-empty local address wins over the peer's. */
  function AddressOf(family: byte, index: u32, attributes: seq<Attribute>, names: Names): Option<Address> {
    var size, local, peer := AddressSize(family), LastValue(attributes, IFA_LOCAL), LastValue(attributes, IFA_ADDRESS);
    var raw := if local.Some? && local.value != [] then local else peer;
    if size.None? || index !in names || raw.None? || |raw.value| != size.value then None else
      Some(Address(names[index], family, raw.value))
  }

  method ParseAddress(payload: seq<byte>, names: Names) returns (r: Option<Address>)
    ensures r == AddressIn(payload, names)
  {
    if |payload| < IFADDRMSG_SIZE {
      return None;
    }
    var family, index := payload[0], ReadU32(payload, 4);
    var size := AddressSize(family);
    if size.None? || index !in names {
      return None;
    }
    var attributes := IterAttributes(payload[IFADDRMSG_SIZE..]);
    hide Attributes;
    var local: Option<seq<byte>>, peer: Option<seq<byte>> := None, None;
    for k := 0 to |attributes|
      invariant local == LastValue(attributes[..k], IFA_LOCAL) && peer == LastValue(attributes[..k], IFA_ADDRESS)
    {
      assert attributes[..k + 1][..k] == attributes[..k];
      if attributes[k].kind == IFA_LOCAL {
        local := Some(attributes[k].value);
      } else if attributes[k].kind == IFA_ADDRESS {
        peer := Some(attributes[k].value);
      }
    }
    assert attributes[..|attributes|] == attributes;
    var raw := if local.Some? && local.value != [] then local else peer;
    if raw.None? || |raw.value| != size.value {
      return None;
    }
    return Some(Address(names[index], family, raw.value));
  }

  function AddressIn(payload: seq<byte>, names: Names): Option<Address> {
    if |payload| < IFADDRMSG_SIZE then None else
      AddressOf(payload[0], ReadU32(payload, 4), Attributes(payload[IFADDRMSG_SIZE..], 0), names)
  }

  // ----- the dump

  datatype Dump = Parsed(addresses: seq<Address>, done: bool) | OsError(code: int)

  function Signed(n: u32): int {
    if n < 0x8000_0000 then n else n - 0x1_0000_0000
  }

  predicate MessageAt(data: seq<byte>, at: nat) {
    at + NLMSG_HDR_SIZE <= |data|
    && var length := ReadU32(data, at); NLMSG_HDR_SIZE <= length && at + length <= |data|
  }

  function KindAt(data: seq<byte>, at: nat): u16
    requires MessageAt(data, at)
  {
    ReadU16(data, at + 4)
  }

  function BodyAt(data: seq<byte>, at: nat): seq<byte>
    requires MessageAt(data, at)
  {
    data[at + NLMSG_HDR_SIZE..at + ReadU32(data, at)]
  }

  /** An error message: no code, an acknowledgement, or a negated errno. */
  function ErrorIn(body: seq<byte>): Dump {
    if |body| < 4 then OsError(EPROTO)
    else if Signed(ReadU32(body, 0)) == 0 then Parsed([], true)
    else OsError(-Signed(ReadU32(body, 0)))
  }

  function Prepend(a: Option<Address>, d: Dump): Dump {
    if d.Parsed? && a.Some? then Parsed([a.value] + d.addresses, d.done) else d
  }

  function DumpFrom(data: seq<byte>, names: Names, at: nat): Dump
    decreases |data| - at
  {
    if !MessageAt(data, at) then Parsed([], false)
    else if KindAt(data, at) == NLMSG_DONE then Parsed([], true)
    else if KindAt(data, at) == NLMSG_ERROR then ErrorIn(BodyAt(data, at))
    else Prepend(AddressIn(BodyAt(data, at), names), DumpFrom(data, names, at + Align(ReadU32(data, at))))
  }

  lemma UnfoldDump(data: seq<byte>, names: Names, at: nat)
    ensures DumpFrom(data, names, at) ==
            if !MessageAt(data, at) then Parsed([], false)
            else if KindAt(data, at) == NLMSG_DONE then Parsed([], true)
            else if KindAt(data, at) == NLMSG_ERROR then ErrorIn(BodyAt(data, at))
            else Prepend(AddressIn(BodyAt(data, at), names), DumpFrom(data, names, at + Align(ReadU32(data, at))))
  {
  }

  // Addresses found so far, followed by what is still to come.
  function Followed(addresses: seq<Address>, d: Dump): Dump {
    if d.Parsed? then Parsed(addresses + d.addresses, d.done) else d
  }

  method ParseDump(data: seq<byte>, names: Names) returns (d: Dump)
    ensures d == DumpFrom(data, names, 0)
  {
    hide DumpFrom, AddressIn, Align, ReadU32, ReadU16, Followed, Prepend, ErrorIn;
    var addresses: seq<Address> := [];
    var offset := 0;
    FollowedNothing(DumpFrom(data, names, 0));
    while offset + NLMSG_HDR_SIZE <= |data|
      invariant Followed(addresses, DumpFrom(data, names, offset)) == DumpFrom(data, names, 0)
    {
      UnfoldDump(data, names, offset);
      FollowedEnd(addresses);
      var length := ReadU32(data, offset);
      if length < NLMSG_HDR_SIZE || offset + length > |data| {
        return Parsed(addresses, false);
      }
      var kind, body := ReadU16(data, offset + 4), data[offset + NLMSG_HDR_SIZE..offset + length];
      if kind == NLMSG_DONE {
        return Parsed(addresses, true);
      }
      if kind == NLMSG_ERROR {
        return Followed(addresses, ErrorIn(body));
      }
      var parsed := ParseAddress(body, names);
      FollowedStep(addresses, parsed, DumpFrom(data, names, offset + Align(length)));
      if parsed.Some? {
        addresses := addresses + [parsed.value];
      }
      offset := offset + Align(length);
    }
    UnfoldDump(data, names, offset);
    FollowedEnd(addresses);
    return Parsed(addresses, false);
  }

  lemma FollowedNothing(d: Dump)
    ensures Followed([], d) == d
  {
  }

  lemma FollowedEnd(addresses: seq<Address>)
    ensures Followed(addresses, Parsed([], false)) == Parsed(addresses, false)
    ensures Followed(addresses, Parsed([], true)) == Parsed(addresses, true)
  {
  }

  lemma FollowedStep(addresses: seq<Address>, a: Option<Address>, d: Dump)
    ensures Followed(addresses, Prepend(a, d)) == Followed(if a.Some? then addresses + [a.value] else addresses, d)
  {
    if a.Some? && d.Parsed? {
      assert addresses + ([a.value] + d.addresses) == addresses + [a.value] + d.addresses;
    }
  }

  // ----- round trip of whole dumps

  datatype Message = Message(kind: u16, flags: u16, serial: u32, pid: u32, body: seq<byte>)

  // The header's fields after length and kind.
  function HeaderRest(m: Message): (r: seq<byte>)
    ensures |r| == 10
  {
    PackU16(m.flags) + PackU32(m.serial) + PackU32(m.pid)
  }

  predicate Sendable(m: Message) { NLMSG_HDR_SIZE + |m.body| < 0x1_0000_0000 }

  function EncodeMessage(m: Message): (r: seq<byte>)
    requires Sendable(m)
    ensures |r| == Align(NLMSG_HDR_SIZE + |m.body|)
  {
    var length := NLMSG_HDR_SIZE + |m.body|;
    PackU32(length) + PackU16(m.kind) + HeaderRest(m) + m.body + Padding(Align(length) - length)
  }

  function EncodeMessages(ms: seq<Message>): seq<byte>
    requires forall m :: m in ms ==> Sendable(m)
  {
    if ms == [] then [] else EncodeMessage(ms[0]) + EncodeMessages(ms[1..])
  }

  lemma ReadMessage(before: seq<byte>, m: Message, pad: seq<byte>, after: seq<byte>)
    requires Sendable(m)
    ensures var length := NLMSG_HDR_SIZE + |m.body|;
            var data := before + (PackU32(length) + PackU16(m.kind) + HeaderRest(m) + m.body + pad) + after;
            && ReadU32(data, |before|) == length
            && ReadU16(data, |before| + 4) == m.kind
            && data[|before| + NLMSG_HDR_SIZE..|before| + length] == m.body
  {
    hide PackU16, ReadU16, PackU32, ReadU32, HeaderRest;
    var length := NLMSG_HDR_SIZE + |m.body|;
    var head, kind, rest := PackU32(length), PackU16(m.kind), HeaderRest(m);
    var data := before + (head + kind + rest + m.body + pad) + after;
    assert data == before + head + (kind + rest + m.body + pad + after);
    UnpackU32(before, length, kind + rest + m.body + pad + after);
    assert data == (before + head) + kind + (rest + m.body + pad + after);
    UnpackU16(before + head, m.kind, rest + m.body + pad + after);
    assert data == (before + head + kind + rest) + m.body + (pad + after);
    SliceMiddle(before + head + kind + rest, m.body, pad + after);
  }

  lemma DecodeMessage(before: seq<byte>, m: Message, after: seq<byte>, data: seq<byte>)
    requires Sendable(m) && data == before + EncodeMessage(m) + after
    ensures MessageAt(data, |before|) && KindAt(data, |before|) == m.kind && BodyAt(data, |before|) == m.body
    ensures |before| + Align(ReadU32(data, |before|)) == |before + EncodeMessage(m)|
  {
    hide PackU16, ReadU16, PackU32, ReadU32, HeaderRest;
    var length := NLMSG_HDR_SIZE + |m.body|;
    ReadMessage(before, m, Padding(Align(length) - length), after);
  }

  // The addresses a list of messages announces, in order.
  function Announced(ms: seq<Message>, names: Names): seq<Address> {
    if ms == [] then [] else
      var a := AddressIn(ms[0].body, names);
      (if a.Some? then [a.value] else []) + Announced(ms[1..], names)
  }

  lemma {:induction false} DecodeDump(before: seq<byte>, ms: seq<Message>, after: seq<byte>, names: Names)
    requires forall m :: m in ms ==> Sendable(m) && m.kind != NLMSG_DONE && m.kind != NLMSG_ERROR
    ensures var data := before + EncodeMessages(ms) + after;
            DumpFrom(data, names, |before|) == Followed(Announced(ms, names), DumpFrom(data, names, |before + EncodeMessages(ms)|))
    decreases |ms|
  {
    hide DumpFrom, EncodeMessage, AddressIn;
    var data := before + EncodeMessages(ms) + after;
    if ms == [] {
      assert before + EncodeMessages(ms) == before;
    } else {
      var m, rest := ms[0], EncodeMessages(ms[1..]);
      assert data == before + EncodeMessage(m) + (rest + after);
      DecodeMessage(before, m, rest + after, data);
      UnfoldDump(data, names, |before|);
      assert data == (before + EncodeMessage(m)) + rest + after;
      assert before + EncodeMessages(ms) == (before + EncodeMessage(m)) + rest;
      DecodeDump(before + EncodeMessage(m), ms[1..], after, names);
      PrependFollowed(AddressIn(m.body, names), Announced(ms[1..], names), DumpFrom(data, names, |before + EncodeMessages(ms)|));
    }
  }

  lemma PrependFollowed(a: Option<Address>, rest: seq<Address>, d: Dump)
    ensures Prepend(a, Followed(rest, d)) == Followed((if a.Some? then [a.value] else []) + rest, d)
  {
    if a.Some? && d.Parsed? {
      assert [a.value] + (rest + d.addresses) == [a.value] + rest + d.addresses;
    }
  }

  /** A datagram of address messages closed by NLMSG_DONE parses to exactly what they announce, in order. */
  lemma DumpRoundTrip(ms: seq<Message>, done: Message, after: seq<byte>, names: Names)
    requires forall m :: m in ms ==> Sendable(m) && m.kind != NLMSG_DONE && m.kind != NLMSG_ERROR
    requires Sendable(done) && done.kind == NLMSG_DONE
    ensures DumpFrom(EncodeMessages(ms) + EncodeMessage(done) + after, names, 0) == Parsed(Announced(ms, names), true)
  {
    hide DumpFrom, EncodeMessage, AddressIn;
    var data := EncodeMessages(ms) + EncodeMessage(done) + after;
    assert data == [] + EncodeMessages(ms) + (EncodeMessage(done) + after);
    DecodeDump([], ms, EncodeMessage(done) + after, names);
    assert [] + EncodeMessages(ms) == EncodeMessages(ms);
    DecodeMessage(EncodeMessages(ms), done, after, data);
    UnfoldDump(data, names, |EncodeMessages(ms)|);
  }

  // An address message's body: the fixed part, then its attributes.
  function AddressBody(family: byte, prefixLength: byte, flags: byte, scope: byte, index: u32, attributes: seq<Attribute>): seq<byte>
    requires forall a :: a in attributes ==> Fits(a)
  {
    [family, prefixLength, flags, scope] + PackU32(index) + EncodeAttributes(attributes)
  }

  /** One encoded address message announces the address its parts name. */
  lemma AddressRoundTrip(family: byte, prefixLength: byte, flags: byte, scope: byte, index: u32, attributes: seq<Attribute>, names: Names)
    requires forall a :: a in attributes ==> Fits(a)
    ensures AddressIn(AddressBody(family, prefixLength, flags, scope, index, attributes), names) ==
            AddressOf(family, index, attributes, names)
  {
    hide EncodeAttributes, Attributes, ReadU32, PackU32, AddressOf;
    var body := AddressBody(family, prefixLength, flags, scope, index, attributes);
    var fixed := [family, prefixLength, flags, scope];
    assert body == fixed + PackU32(index) + EncodeAttributes(attributes);
    UnpackU32(fixed, index, EncodeAttributes(attributes));
    assert body[IFADDRMSG_SIZE..] == EncodeAttributes(attributes);
    AttributesRoundTrip(attributes);
  }

  lemma PackSmall(n: u16)
    requires n < 0x100
    ensures PackU16(n) == [n, 0] && PackU32(n) == [n, 0, 0, 0]
  {
  }

  /** The request the agent sends, byte for byte. */
  function BuildDumpRequest(): (r: seq<byte>)
    ensures r == [24, 0, 0, 0, 22, 0, 1, 3, 1, 0, 0, 0, 0, 0, 0, 0, 0, 0, 0, 0, 0, 0, 0, 0]
  {
    var body: seq<byte> := [0, 0, 0, 0] + PackU32(0);
    PackSmall(0);
    PackSmall(24);
    PackSmall(22);
    PackSmall(1);
    assert PackU16(0x301) == [1, 3];
    PackU32(NLMSG_HDR_SIZE + |body|) + PackU16(RTM_GETADDR) + PackU16(0x301) + PackU32(1) + PackU32(0) + body
  }

  /** It is one address request of its full length, for every family. */
  lemma RequestParses()
    ensures MessageAt(BuildDumpRequest(), 0) && KindAt(BuildDumpRequest(), 0) == 22
    ensures BodyAt(BuildDumpRequest(), 0) == [0, 0, 0, 0, 0, 0, 0, 0]
  {
    var r := BuildDumpRequest();
    assert ReadU32(r, 0) == 24;
    assert r[16..24] == [0, 0, 0, 0, 0, 0, 0, 0];
  }

  // ----- which address a message announces

  // The last attribute of a kind is the j-th.
  predicate LastAt(attributes: seq<Attribute>, kind: u16, j: nat) {
    j < |attributes| && attributes[j].kind == kind && forall k :: j < k < |attributes| ==> attributes[k].kind != kind
  }

  lemma {:induction false} LastValueAt(attributes: seq<Attribute>, kind: u16, j: nat)
    requires LastAt(attributes, kind, j)
    ensures LastValue(attributes, kind) == Some(attributes[j].value)
  {
    var last := |attributes| - 1;
    if j < last {
      LastValueAt(attributes[..last], kind, j);
    }
  }

  lemma {:induction false} LastValueFound(attributes: seq<Attribute>, kind: u16) returns (j: nat)
    requires LastValue(attributes, kind).Some?
    ensures LastAt(attributes, kind, j) && LastValue(attributes, kind) == Some(attributes[j].value)
  {
    var last := |attributes| - 1;
    if attributes[last].kind == kind {
      j := last;
    } else {
      j := LastValueFound(attributes[..last], kind);
    }
  }

  // Kind 2 is ours. Kind 1 may be the peer's, and counts only where there is no value of ours.
  ghost predicate Holds(attributes: seq<Attribute>, raw: seq<byte>) {
    if exists j: nat :: LastAt(attributes, 2, j) && attributes[j].value != [] then
      exists j: nat :: LastAt(attributes, 2, j) && attributes[j].value == raw
    else
      exists j: nat :: LastAt(attributes, 1, j) && attributes[j].value == raw
  }

  /** Exactly: the interface still exists, the family is IPv4 with four bytes or IPv6 with sixteen, and those are held. */
  lemma AddressExact(family: byte, index: u32, attributes: seq<Attribute>, names: Names, a: Address)
    ensures AddressOf(family, index, attributes, names) == Some(a) <==>
            && index in names && a.interface == names[index] && a.family == family
            && ((family == 2 && |a.raw| == 4) || (family == 10 && |a.raw| == 16))
            && Holds(attributes, a.raw)
  {
    HoldsIff(attributes, a.raw);
  }

  lemma HoldsIff(attributes: seq<Attribute>, raw: seq<byte>)
    ensures var local, peer := LastValue(attributes, 2), LastValue(attributes, 1);
            Holds(attributes, raw) <==> (if local.Some? && local.value != [] then local else peer) == Some(raw)
  {
    LastValueIff(attributes, 2);
    LastValueIff(attributes, 1);
  }

  lemma LastValueIff(attributes: seq<Attribute>, kind: u16)
    ensures LastValue(attributes, kind).Some? <==> exists j: nat :: LastAt(attributes, kind, j)
    ensures forall j: nat :: LastAt(attributes, kind, j) ==> LastValue(attributes, kind) == Some(attributes[j].value)
  {
    hide LastValue;
    if LastValue(attributes, kind).Some? {
      var j := LastValueFound(attributes, kind);
    }
    forall j: nat | LastAt(attributes, kind, j)
      ensures LastValue(attributes, kind) == Some(attributes[j].value)
    {
      LastValueAt(attributes, kind, j);
    }
  }

  // ----- dumps that end otherwise

  /** An error message ends the dump: as a failure with its errno, as a success if it acknowledges, as EPROTO if it is cut short. */
  lemma DumpError(ms: seq<Message>, error: Message, after: seq<byte>, names: Names)
    requires forall m :: m in ms ==> Sendable(m) && m.kind != 2 && m.kind != 3
    requires Sendable(error) && error.kind == 2
    ensures var d := DumpFrom(EncodeMessages(ms) + EncodeMessage(error) + after, names, 0);
            if |error.body| < 4 then d == OsError(71)
            else if error.body[..4] == [0, 0, 0, 0] then d == Parsed(Announced(ms, names), true)
            else d.OsError?
    ensures forall errno: nat :: 0 < errno <= 0x8000_0000 && |error.body| >= 4 && error.body[..4] == PackU32(0x1_0000_0000 - errno) ==>
                                   DumpFrom(EncodeMessages(ms) + EncodeMessage(error) + after, names, 0) == OsError(errno)
  {
    hide DumpFrom, EncodeMessage, AddressIn, PackU32;
    var data := EncodeMessages(ms) + EncodeMessage(error) + after;
    assert data == [] + EncodeMessages(ms) + (EncodeMessage(error) + after);
    DecodeDump([], ms, EncodeMessage(error) + after, names);
    assert [] + EncodeMessages(ms) == EncodeMessages(ms);
    DecodeMessage(EncodeMessages(ms), error, after, data);
    UnfoldDump(data, names, |EncodeMessages(ms)|);
    ErrorCode(error.body);
    forall errno: nat | 0 < errno <= 0x8000_0000 && |error.body| >= 4 && error.body[..4] == PackU32(0x1_0000_0000 - errno)
      ensures ErrorIn(error.body) == OsError(errno)
    {
      ErrnoCode(error.body, errno);
    }
  }

  lemma ErrorCode(body: seq<byte>)
    ensures if |body| < 4 then ErrorIn(body) == OsError(71)
            else if body[..4] == [0, 0, 0, 0] then ErrorIn(body) == Parsed([], true)
            else ErrorIn(body).OsError?
  {
    if |body| >= 4 && body[..4] != [0, 0, 0, 0] {
      assert body[0] != 0 || body[1] != 0 || body[2] != 0 || body[3] != 0;
    }
  }

  lemma ErrnoCode(body: seq<byte>, errno: nat)
    requires 0 < errno <= 0x8000_0000 && |body| >= 4 && body[..4] == PackU32(0x1_0000_0000 - errno)
    ensures ErrorIn(body) == OsError(errno)
  {
    hide PackU32, ReadU32;
    assert body == [] + PackU32(0x1_0000_0000 - errno) + body[4..];
    UnpackU32([], 0x1_0000_0000 - errno, body[4..]);
  }

  /** A dump cut inside a message keeps what came before it, and is not done. */
  lemma DumpCut(ms: seq<Message>, m: Message, n: nat, names: Names)
    requires forall x :: x in ms ==> Sendable(x) && x.kind != 2 && x.kind != 3
    requires Sendable(m) && n < NLMSG_HDR_SIZE + |m.body|
    ensures DumpFrom(EncodeMessages(ms) + EncodeMessage(m)[..n], names, 0) == Parsed(Announced(ms, names), false)
  {
    hide DumpFrom, EncodeMessage, AddressIn;
    var cut := EncodeMessage(m)[..n];
    var data := EncodeMessages(ms) + cut;
    assert data == [] + EncodeMessages(ms) + cut;
    DecodeDump([], ms, cut, names);
    assert [] + EncodeMessages(ms) == EncodeMessages(ms);
    CutMessage(EncodeMessages(ms), m, n);
    UnfoldDump(data, names, |EncodeMessages(ms)|);
  }

  lemma CutMessage(before: seq<byte>, m: Message, n: nat)
    requires Sendable(m) && n < NLMSG_HDR_SIZE + |m.body|
    ensures !MessageAt(before + EncodeMessage(m)[..n], |before|)
  {
    hide PackU32, ReadU32, PackU16, HeaderRest;
    var length := NLMSG_HDR_SIZE + |m.body|;
    if n >= NLMSG_HDR_SIZE {
      var rest := EncodeMessage(m)[4..n];
      assert EncodeMessage(m)[..n] == PackU32(length) + rest;
      assert before + EncodeMessage(m)[..n] == before + PackU32(length) + rest;
      UnpackU32(before, length, rest);
    }
  }

  // ----- the wire, byte for byte

  // 192.168.1.5 on interface 2, and the end of the dump.
  const SAMPLE: seq<byte> :=
    [32, 0, 0, 0, 20, 0, 2, 0, 1, 0, 0, 0, 0, 0, 0, 0] + [2, 24, 0, 0, 2, 0, 0, 0] + [8, 0, 2, 0, 192, 168, 1, 5]
    + [16, 0, 0, 0, 3, 0, 2, 0, 1, 0, 0, 0, 0, 0, 0, 0]

  /** Length and kind little-endian in this order, at the offsets of the kernel's headers. */
  lemma SampleParses(name: string)
    ensures DumpFrom(SAMPLE, map[2 := name], 0) == Parsed([Address(name, 2, [192, 168, 1, 5])], true)
  {
    hide Attributes, AddressOf;
    var body: seq<byte> := [2, 24, 0, 0, 2, 0, 0, 0, 8, 0, 2, 0, 192, 168, 1, 5];
    assert MessageAt(SAMPLE, 0) && KindAt(SAMPLE, 0) == 20 && BodyAt(SAMPLE, 0) == body;
    SampleBody(name, body);
    UnfoldDump(SAMPLE, map[2 := name], 0);
    assert MessageAt(SAMPLE, 32) && KindAt(SAMPLE, 32) == 3;
    UnfoldDump(SAMPLE, map[2 := name], 32);
  }

  lemma SampleBody(name: string, body: seq<byte>)
    requires body == [2, 24, 0, 0, 2, 0, 0, 0, 8, 0, 2, 0, 192, 168, 1, 5]
    ensures AddressIn(body, map[2 := name]) == Some(Address(name, 2, [192, 168, 1, 5]))
  {
    hide AddressOf;
    var payload: seq<byte> := [8, 0, 2, 0, 192, 168, 1, 5];
    assert body[IFADDRMSG_SIZE..] == payload;
    Unfold(payload, 0);
    assert payload[4..8] == [192, 168, 1, 5];
    Unfold(payload, 8);
    var attributes := [Attribute(2, [192, 168, 1, 5])];
    assert Attributes(payload, 0) == attributes;
    assert LastAt(attributes, 2, 0);
    AddressExact(2, 2, attributes, map[2 := name], Address(name, 2, [192, 168, 1, 5]));
  }
}
