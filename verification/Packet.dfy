/**
 * nl80211 packets (net/nl80211_packet.cpp): a 16-byte netlink header, a 4-byte generic netlink header and a
 * run of attributes. The layout is that of sections 2.3.2 and 2.3.2.2 of RFC 3549.
 */
module Packet {
  import opened Bytes
  import opened Attribute

  const NLMSG_HDRLEN := 16
  const HDRLEN := 20  // with GENL_HDRLEN

  const NLMSG_NOOP := 1
  const NLMSG_ERROR := 2
  const NLMSG_DONE := 3
  const NLMSG_OVERRUN := 4
  const NLMSG_MIN_TYPE := 16
  const NLM_F_REQUEST := 1
  const NLM_F_MULTI := 2
  const NLM_F_ACK := 4

  const NL80211_ATTR_IFINDEX: U16 := 3

  // ----- header fields -----

  function MsgLen(d: seq<Byte>): U32 requires |d| >= NLMSG_HDRLEN { GetU32(d, 0) }
  function MsgType(d: seq<Byte>): U16 requires |d| >= NLMSG_HDRLEN { GetU16(d, 4) }
  function Flags(d: seq<Byte>): U16 requires |d| >= NLMSG_HDRLEN { GetU16(d, 6) }
  function MsgSeq(d: seq<Byte>): U32 requires |d| >= NLMSG_HDRLEN { GetU32(d, 8) }
  function PortId(d: seq<Byte>): U32 requires |d| >= NLMSG_HDRLEN { GetU32(d, 12) }
  function Command(d: seq<Byte>): Byte requires |d| >= HDRLEN { d[16] }
  predicate IsMulti(d: seq<Byte>) requires |d| >= NLMSG_HDRLEN { Flags(d) / NLM_F_MULTI % 2 == 1 }

  predicate IsValidPacket(d: seq<Byte>) {
    && |d| >= NLMSG_HDRLEN
    && (MsgType(d) >= NLMSG_MIN_TYPE || MsgType(d) == NLMSG_ERROR ==> |d| >= HDRLEN && MsgLen(d) >= HDRLEN)
    && |d| >= MsgLen(d) >= NLMSG_HDRLEN
  }

  /** The error code is the negated signed integer after the netlink header. */
  function ErrorCode(d: seq<Byte>): int
    requires |d| >= HDRLEN
  {
    var raw := GetU32(d, 16);
    if raw < 0x8000_0000 then 0 - raw as int else 0x1_0000_0000 - raw as int
  }

  /** The header of a request, without its length field. */
  function RequestHeader(mtype: U16, flags: U16, command: Byte, sequence: U32, pid: U32): (h: seq<Byte>)
    ensures |h| == HDRLEN - 4
  {
    U16Bytes(mtype) + U16Bytes(flags) + U32Bytes(sequence) + U32Bytes(pid) + [command, 1, 0, 0]
  }

  /** A packet: a length field that counts everything, the rest of the header, the attribute run. */
  function Packed(h: seq<Byte>, body: seq<Byte>): (d: seq<Byte>)
    requires |h| == HDRLEN - 4
    ensures |d| == HDRLEN + |body| && d[HDRLEN..] == body
    ensures MsgLen(d) == (HDRLEN + |body|) % 0x1_0000_0000
  {
    var len := U32Bytes(HDRLEN + |body|);
    assert GetU32(len + h + body, 0) == GetU32(len, 0);
    len + h + body
  }

  /** What adding an attribute does to a packet's buffer. */
  function Extended(d: seq<Byte>, attr: seq<Byte>): seq<Byte>
    requires |d| >= HDRLEN
  {
    U32Bytes(MsgLen(d) + |attr|) + d[4..] + attr
  }

  /** The length field keeps counting the whole buffer (modulo its 32 bits). */
  lemma ExtendedIsPacked(h: seq<Byte>, body: seq<Byte>, attr: seq<Byte>)
    requires |h| == HDRLEN - 4
    ensures Extended(Packed(h, body), attr) == Packed(h, body + attr)
  {
    U32BytesWraps(HDRLEN + |body|, |attr|);
    assert Packed(h, body)[4..] == h + body;
    var len := U32Bytes(HDRLEN + |body + attr|);
    assert len + (h + body) + attr == len + h + (body + attr);
  }

  /** Adding one more attribute to a list of them. */
  lemma AddedTree(h: seq<Byte>, ts: seq<Tree>, t: Tree)
    requires |h| == HDRLEN - 4
    ensures Extended(Packed(h, EncodeAll(ts)), Encode(t)) == Packed(h, EncodeAll(ts + [t]))
  {
    EncodeAllAppend(ts, [t]);
    assert EncodeAll([t]) == Encode(t) + EncodeAll([]) == Encode(t);
    ExtendedIsPacked(h, EncodeAll(ts), Encode(t));
  }

  // ----- taking a packet apart -----

  /** The outcome of listing: the attributes read so far stay in the output even when a later one is broken. */
  datatype Listing = Listing(ok: bool, attrs: seq<Tree>)

  function AllAttributes(buf: seq<Byte>): Listing {
    if |buf| < NLA_HDRLEN then Listing(true, []) else
    var len, size := NlaLen(buf), Align4(NlaLen(buf));
    if size > |buf| || len < NLA_HDRLEN then Listing(false, []) else
    var rest := AllAttributes(buf[size..]);
    Listing(rest.ok, [Leaf(NlaType(buf), buf[NLA_HDRLEN..len])] + rest.attrs)
  }

  /** Every header that the listing reaches has length 0 or covers itself: lengths 1 to 3 name no byte range. */
  predicate Readable(buf: seq<Byte>) {
    |buf| < NLA_HDRLEN ||
    var size := Align4(NlaLen(buf));
    size > |buf| || NlaLen(buf) == 0 || (NlaLen(buf) >= NLA_HDRLEN && Readable(buf[size..]))
  }

  /** Each tree seen as one attribute with an uninterpreted payload. */
  function Flat(ts: seq<Tree>): (r: seq<Tree>)
    ensures |r| == |ts|
    ensures forall i :: 0 <= i < |ts| ==> r[i] == Leaf(ts[i].id, Body(ts[i]))
  {
    seq(|ts|, i requires 0 <= i < |ts| => Leaf(ts[i].id, Body(ts[i])))
  }

  lemma {:induction false} FlatEncodesAlike(ts: seq<Tree>)
    ensures EncodeAll(Flat(ts)) == EncodeAll(ts)
  {
    if ts != [] {
      assert Flat(ts)[1..] == Flat(ts[1..]);
      assert Encode(Flat(ts)[0]) == Encode(ts[0]);
      FlatEncodesAlike(ts[1..]);
    }
  }

  lemma AllAttributesStep(id: U16, payload: seq<Byte>, rest: seq<Byte>)
    requires Fits(id, payload)
    ensures AllAttributes(Enc(id, payload) + rest)
            == Listing(AllAttributes(rest).ok, [Leaf(id, payload)] + AllAttributes(rest).attrs)
    ensures Readable(Enc(id, payload) + rest) == Readable(rest)
  {
    EncReads(id, payload);
    var d := Enc(id, payload);
    var buf := d + rest;
    assert NlaLen(buf) == NlaLen(d) && NlaType(buf) == NlaType(d);
    assert buf[|d|..] == rest;
    assert buf[NLA_HDRLEN..NlaLen(buf)] == PayloadOf(d);
  }

  /** A packet made of attributes lists as exactly those attributes. */
  lemma {:induction false} AllAttributesEncoded(ts: seq<Tree>)
    requires AllFit(ts)
    ensures AllAttributes(EncodeAll(ts)) == Listing(true, Flat(ts))
    ensures Readable(EncodeAll(ts))
  {
    if ts != [] {
      AllAttributesEncoded(ts[1..]);
      assert TreeFits(ts[0]);
      AllAttributesStep(ts[0].id, Body(ts[0]), EncodeAll(ts[1..]));
      assert Flat(ts) == [Leaf(ts[0].id, Body(ts[0]))] + Flat(ts[1..]);
    }
  }

  /** Bytes on which the listing stops: a header of length 0, or one that runs past the end. */
  predicate BrokenHead(buf: seq<Byte>) {
    |buf| >= 4 && (buf[0] + 256 * (buf[1] as int) == 0 || (buf[0] + 256 * (buf[1] as int) + 3) / 4 * 4 > |buf|)
  }

  /** Up to three bytes behind the attributes are ignored; a broken one fails the listing and keeps what came before. */
  lemma {:induction false} ListingWithTail(ts: seq<Tree>, tail: seq<Byte>)
    requires AllFit(ts)
    ensures |tail| < 4 ==> AllAttributes(EncodeAll(ts) + tail) == Listing(true, Flat(ts))
    ensures BrokenHead(tail) ==> AllAttributes(EncodeAll(ts) + tail) == Listing(false, Flat(ts))
  {
    if ts == [] {
      assert EncodeAll(ts) + tail == tail;
    } else {
      var rest := EncodeAll(ts[1..]) + tail;
      assert EncodeAll(ts) + tail == Encode(ts[0]) + rest;
      assert TreeFits(ts[0]);
      ListingWithTail(ts[1..], tail);
      AllAttributesStep(ts[0].id, Body(ts[0]), rest);
      assert Flat(ts) == [Leaf(ts[0].id, Body(ts[0]))] + Flat(ts[1..]);
    }
  }

  /** Listing then re-adding reproduces the packet, byte for byte. */
  lemma ListThenAddIsIdentity(h: seq<Byte>, ts: seq<Tree>)
    requires |h| == HDRLEN - 4 && AllFit(ts)
    ensures var d := Packed(h, EncodeAll(ts));
            && AllAttributes(d[HDRLEN..]).ok
            && Packed(h, EncodeAll(AllAttributes(d[HDRLEN..]).attrs)) == d
  {
    AllAttributesEncoded(ts);
    FlatEncodesAlike(ts);
  }

  /** GetAttributeValue<uint32_t> and its siblings on a packet. */
  function PacketInt(d: seq<Byte>, id: U16, width: nat): (r: Option<nat>)
    requires |d| >= HDRLEN
    ensures r.Some? ==> r.value < Pow256(width)
  {
    match Find(d[HDRLEN..], id)
    case Found(attr) => if IsValidInt(attr, width) then Some(IntValue(attr, width)) else None
    case _ => None
  }

  function PacketGet(d: seq<Byte>, id: U16): (r: Option<seq<Byte>>)
    requires |d| >= HDRLEN
    ensures r.Some? ==> IsValid(r.value)
  {
    match Find(d[HDRLEN..], id)
    case Found(attr) => if IsValid(attr) then Some(attr) else None
    case _ => None
  }

  /** Moving the first attribute of what is still to be listed over to what is. */
  lemma ListingStep(rest: seq<Byte>, attrs: seq<Tree>, leaf: Tree, tail: Listing)
    requires |rest| >= NLA_HDRLEN && NlaLen(rest) >= NLA_HDRLEN && Align4(NlaLen(rest)) <= |rest|
    requires leaf == Leaf(NlaType(rest), rest[NLA_HDRLEN..NlaLen(rest)])
    requires tail == AllAttributes(rest[Align4(NlaLen(rest))..])
    ensures AllAttributes(rest).ok == tail.ok
    ensures attrs + AllAttributes(rest).attrs == (attrs + [leaf]) + tail.attrs
  {
    assert AllAttributes(rest).attrs == [leaf] + tail.attrs;
    Shift(attrs, leaf, tail.attrs);
  }

  lemma ConstructorSteps(d: seq<Byte>, mtype: U16, command: Byte, sequence: U32, pid: U32)
    requires d == PutU32(PutU32(PutU16(PutU16(PutU32(Zeros(HDRLEN), 0, HDRLEN), 6, NLM_F_REQUEST), 4, mtype),
                                8, sequence), 12, pid)[17 := 1][16 := command]
    ensures d == Packed(RequestHeader(mtype, NLM_F_REQUEST, command, sequence, pid), [])
  {
    var e := Packed(RequestHeader(mtype, NLM_F_REQUEST, command, sequence, pid), []);
    HeaderParts(mtype, NLM_F_REQUEST, command, sequence, pid, []);
    var z := PutU16(PutU16(PutU32(Zeros(HDRLEN), 0, HDRLEN), 6, NLM_F_REQUEST), 4, mtype);
    assert PutU32(Zeros(HDRLEN), 0, HDRLEN)[4..] == Zeros(HDRLEN)[4..];
    assert z[..4] == U32Bytes(HDRLEN) && z[4..6] == U16Bytes(mtype) && z[6..8] == U16Bytes(NLM_F_REQUEST);
    assert z[8..] == Zeros(HDRLEN)[8..];
    assert d[..4] == e[..4] && d[4..6] == e[4..6] && d[6..8] == e[6..8];
    assert d[8..12] == e[8..12] && d[12..16] == e[12..16];
    assert z[18] == 0 && z[19] == 0;
    assert d[16..] == [command, 1, 0, 0] == e[16..];
    SixParts(d);
    SixParts(e);
  }

  lemma SixParts(d: seq<Byte>)
    requires |d| >= HDRLEN
    ensures d == d[..4] + d[4..6] + d[6..8] + d[8..12] + d[12..16] + d[16..]
  {
  }

  /** Where each field of a packet's header lies. */
  lemma HeaderParts(mtype: U16, flags: U16, command: Byte, sequence: U32, pid: U32, body: seq<Byte>)
    ensures var d := Packed(RequestHeader(mtype, flags, command, sequence, pid), body);
            && d[..4] == U32Bytes(HDRLEN + |body|) && d[4..6] == U16Bytes(mtype) && d[6..8] == U16Bytes(flags)
            && d[8..12] == U32Bytes(sequence) && d[12..16] == U32Bytes(pid) && d[16..] == [command, 1, 0, 0] + body
  {
  }

  lemma ShortOnTheWire(v: U16)
    ensures U16Bytes(v) == [v % 256, v / 256]
  {
  }

  /** On the wire: length, type, flags, sequence number, port, low bytes first; then command, version 1, two zeros. */
  lemma RequestOnTheWire(mtype: U16, flags: U16, command: Byte, sequence: U32, pid: U32, body: seq<Byte>)
    requires 20 + |body| < 0x1_0000_0000
    ensures var d := Packed(RequestHeader(mtype, flags, command, sequence, pid), body);
            && d[0..4] == LE(20 + |body|, 4)
            && d[4..6] == [mtype % 256, mtype / 256] && d[6..8] == [flags % 256, flags / 256]
            && d[8..12] == LE(sequence, 4) && d[12..16] == LE(pid, 4)
            && d[16..] == [command, 1, 0, 0] + body
  {
    HeaderParts(mtype, flags, command, sequence, pid, body);
    LEBytes(20 + |body|);
    LEBytes(sequence);
    LEBytes(pid);
    ShortOnTheWire(mtype);
    ShortOnTheWire(flags);
  }

  /** The kernel reports failure as a negative number; the code turns its sign. */
  lemma ErrorCodeReads(d: seq<Byte>, e: nat)
    requires |d| >= 20 && e < 0x8000_0000 && d[16..20] == LE(if e == 0 then 0 else 0x1_0000_0000 - e, 4)
    ensures ErrorCode(d) == e
  {
    var raw: U32 := if e == 0 then 0 else 0x1_0000_0000 - e;
    LEBytes(raw);
    U32At(d, 16, raw);
  }

  lemma ShortFieldsRead(d: seq<Byte>, mtype: U16, flags: U16)
    requires |d| >= HDRLEN && d[4..6] == U16Bytes(mtype) && d[6..8] == U16Bytes(flags)
    ensures MsgType(d) == mtype && Flags(d) == flags
  {
    U16At(d, 4, mtype);
    U16At(d, 6, flags);
  }

  lemma SequenceReads(d: seq<Byte>, sequence: U32)
    requires |d| >= HDRLEN && d[8..12] == U32Bytes(sequence)
    ensures MsgSeq(d) == sequence
  {
    U32At(d, 8, sequence);
  }

  lemma PortReads(d: seq<Byte>, pid: U32)
    requires |d| >= HDRLEN && d[12..16] == U32Bytes(pid)
    ensures PortId(d) == pid
  {
    U32At(d, 12, pid);
  }

  /** A built packet is valid and its getters return what it was built from. */
  lemma RequestReads(mtype: U16, flags: U16, command: Byte, sequence: U32, pid: U32, body: seq<Byte>)
    requires HDRLEN + |body| < 0x1_0000_0000
    ensures var d := Packed(RequestHeader(mtype, flags, command, sequence, pid), body);
            && IsValidPacket(d) && MsgLen(d) == |d| && MsgType(d) == mtype && MsgSeq(d) == sequence
            && PortId(d) == pid && Command(d) == command && Flags(d) == flags
  {
    var d := Packed(RequestHeader(mtype, flags, command, sequence, pid), body);
    HeaderParts(mtype, flags, command, sequence, pid, body);
    ShortFieldsRead(d, mtype, flags);
    SequenceReads(d, sequence);
    PortReads(d, pid);
    assert d[16] == d[16..][0];
  }

  // ----- flags -----

  function OrFlags(a: U16, b: U16): U16 {
    assert Pow2(4) == 16 && Pow2(8) == 256 && Pow2(12) == 0x1000 && Pow2(16) == 0x1_0000;
    BitOrFits(a, b, 16);
    BitOr(a, b)
  }

  function WithFlags(d: seq<Byte>, flags: U16): seq<Byte>
    requires |d| >= HDRLEN
  {
    PutU16(d, 6, flags)
  }

  /** Changing the flags leaves every other field and the attributes alone. */
  lemma FlagsReplaced(mtype: U16, flags: U16, newFlags: U16, command: Byte, sequence: U32, pid: U32, body: seq<Byte>)
    ensures WithFlags(Packed(RequestHeader(mtype, flags, command, sequence, pid), body), newFlags)
            == Packed(RequestHeader(mtype, newFlags, command, sequence, pid), body)
  {
    var d := Packed(RequestHeader(mtype, flags, command, sequence, pid), body);
    var e := Packed(RequestHeader(mtype, newFlags, command, sequence, pid), body);
    HeaderParts(mtype, flags, command, sequence, pid, body);
    HeaderParts(mtype, newFlags, command, sequence, pid, body);
    SixParts(e);
    PutInPlace(d, newFlags);
  }

  lemma PutInPlace(d: seq<Byte>, flags: U16)
    requires |d| >= HDRLEN
    ensures PutU16(d, 6, flags) == d[..4] + d[4..6] + U16Bytes(flags) + d[8..12] + d[12..16] + d[16..]
  {
  }

  class NL80211Packet {
    var data: seq<Byte>

    constructor (mtype: U16, command: Byte, sequence: U32, pid: U32)
      ensures data == Packed(RequestHeader(mtype, NLM_F_REQUEST, command, sequence, pid), [])
    {
      data := Zeros(HDRLEN);
      new;
      data := PutU32(data, 0, |data|);
      data := PutU16(data, 6, NLM_F_REQUEST);
      data := PutU16(data, 4, mtype);
      data := PutU32(data, 8, sequence);
      data := PutU32(data, 12, pid);
      data := data[17 := 1];
      data := data[16 := command];
      ConstructorSteps(data, mtype, command, sequence, pid);
    }

    constructor FromBuffer(buffer: seq<Byte>)
      ensures data == buffer
    {
      data := buffer;
    }

    method AddFlag(flag: U16)
      requires |data| >= HDRLEN
      modifies this
      ensures data == WithFlags(old(data), OrFlags(Flags(old(data)), flag))
    {
      data := PutU16(data, 6, OrFlags(Flags(data), flag));
    }

    method AddAttribute(attr: NL80211Attr)
      requires |data| >= HDRLEN
      modifies this
      ensures data == Extended(old(data), attr.data)
    {
      data := data + attr.data;
      data := PutU32(data, 0, MsgLen(data) + |attr.data|);
      assert (old(data) + attr.data)[4..] == old(data)[4..] + attr.data;
    }

    method AddFlagAttribute(id: U16)
      requires |data| >= HDRLEN
      modifies this
      ensures data == Extended(old(data), Enc(id, []))
    {
      data := Resize(data, |data| + NLA_HDRLEN);
      var flag := |data| - NLA_HDRLEN;
      data := PutU16(data, flag + 2, id);
      data := PutU16(data, flag, NLA_HDRLEN);
      assert data == old(data) + Enc(id, []);
      data := PutU32(data, 0, MsgLen(data) + NLA_HDRLEN);
      assert (old(data) + Enc(id, []))[4..] == old(data)[4..] + Enc(id, []);
    }

    method GetAttribute(id: U16) returns (r: Option<seq<Byte>>)
      requires |data| >= HDRLEN && Find(data[HDRLEN..], id) != Stuck
      ensures r == PacketGet(data, id)
    {
      var ok, start, end := GetAttributeImpl(data[HDRLEN..], id);
      if !ok || !IsValid(data[HDRLEN..][start..end]) {
        return None;
      }
      return Some(data[HDRLEN..][start..end]);
    }

    method GetU32Value(id: U16) returns (r: Option<nat>)
      requires |data| >= HDRLEN && Find(data[HDRLEN..], id) != Stuck
      ensures r == PacketInt(data, id, 4)
    {
      var ok, start, end := GetAttributeImpl(data[HDRLEN..], id);
      if !ok || !IsValidInt(data[HDRLEN..][start..end], 4) {
        return None;
      }
      return Some(IntValue(data[HDRLEN..][start..end], 4));
    }

    method GetAllAttributes() returns (ok: bool, attrs: seq<Tree>)
      requires |data| >= HDRLEN && Readable(data[HDRLEN..])
      ensures Listing(ok, attrs) == AllAttributes(data[HDRLEN..])
    {
      var buf := data[HDRLEN..];
      var ptr, rest := 0, buf;  // rest is what lies at and after ptr
      attrs := [];
      ghost var goal := AllAttributes(buf);
      while ptr + NLA_HDRLEN <= |buf|
        invariant ptr <= |buf| && rest == buf[ptr..] && Readable(rest)
        invariant goal.ok == AllAttributes(rest).ok && goal.attrs == attrs + AllAttributes(rest).attrs
        decreases |buf| - ptr
      {
        var len := NlaLen(rest);
        if Align4(len) > |rest| || len == 0 {
          return false, attrs;
        }
        var leaf := Leaf(NlaType(rest), rest[NLA_HDRLEN..len]);
        ListingStep(rest, attrs, leaf, AllAttributes(rest[Align4(len)..]));
        attrs := attrs + [leaf];
        ptr := ptr + Align4(len);
        rest := rest[Align4(len)..];
      }
      return true, attrs;
    }
  }
}
