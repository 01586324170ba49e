/**
 * Reading band information out of a wiphy packet (ParseBandInfo and its helpers in net/netlink_utils.cpp).
 *
 * Every parser adds what it finds to one BandInfo. The specification gives each attribute its own contribution
 * and a monoid that combines contributions; the parsers are proved to add exactly the contribution, which makes
 * parsing a homomorphism over merging.
 */
module Bands {
  import opened Bytes
  import opened Attribute
  import opened Packet
  import opened SplitDump

  const NL80211_ATTR_WIPHY_BANDS: U16 := 22
  const NL80211_BAND_ATTR_FREQS: U16 := 1
  const NL80211_BAND_ATTR_HT_MCS_SET: U16 := 3
  const NL80211_BAND_ATTR_HT_CAPA: U16 := 4
  const NL80211_BAND_ATTR_VHT_MCS_SET: U16 := 7
  const NL80211_BAND_ATTR_VHT_CAPA: U16 := 8
  const NL80211_BAND_ATTR_IFTYPE_DATA: U16 := 9
  const NL80211_BAND_IFTYPE_ATTR_HE_CAP_PHY: U16 := 3
  const NL80211_BAND_IFTYPE_ATTR_HE_CAP_MCS_SET: U16 := 4
  const NL80211_BAND_IFTYPE_ATTR_EHT_CAP_PHY: U16 := 9
  const NL80211_FREQUENCY_ATTR_FREQ: U16 := 1
  const NL80211_FREQUENCY_ATTR_DISABLED: U16 := 2
  const NL80211_FREQUENCY_ATTR_NO_IR: U16 := 3
  const NL80211_FREQUENCY_ATTR_DFS_STATE: U16 := 7
  const NL80211_DFS_USABLE := 0
  const NL80211_DFS_AVAILABLE := 2

  const HT_MCS_SET_NUM_BYTE := 16
  const VHT_MCS_SET_NUM_BYTE := 8
  const HE_MCS_SET_NUM_BYTE_MIN := 4
  const HE_CAP_PHY_NUM_BYTE := 9
  const EHT_CAP_PHY_NUM_BYTE := 8
  const MAX_STREAMS := 8

  datatype RawBandInfo = BandInfo(
    band2g: seq<nat>, band5g: seq<nat>, bandDfs: seq<nat>, band6g: seq<nat>, band60g: seq<nat>,
    is80211n: bool, is80211ac: bool, is80211ax: bool, is80211be: bool,
    is160Mhz: bool, is80p80Mhz: bool, is320Mhz: bool,
    maxTxStreams: nat, maxRxStreams: nat)

  /** Stream counts stay between 1 and 8: a type invariant, so every parser below is checked to keep it. */
  type BandInfo = b: RawBandInfo |
      1 <= b.maxTxStreams <= MAX_STREAMS && 1 <= b.maxRxStreams <= MAX_STREAMS
    witness EMPTY_RAW

  const EMPTY_RAW := BandInfo([], [], [], [], [], false, false, false, false, false, false, false, 1, 1)
  const EMPTY: BandInfo := EMPTY_RAW

  function Max(a: nat, b: nat): nat {
    if a < b then b else a
  }

  /** Frequency lists in order, flags or-ed, stream counts maxed. */
  function Combine(a: BandInfo, b: BandInfo): BandInfo {
    BandInfo(a.band2g + b.band2g, a.band5g + b.band5g, a.bandDfs + b.bandDfs, a.band6g + b.band6g,
             a.band60g + b.band60g,
             a.is80211n || b.is80211n, a.is80211ac || b.is80211ac, a.is80211ax || b.is80211ax,
             a.is80211be || b.is80211be, a.is160Mhz || b.is160Mhz, a.is80p80Mhz || b.is80p80Mhz,
             a.is320Mhz || b.is320Mhz,
             Max(a.maxTxStreams, b.maxTxStreams), Max(a.maxRxStreams, b.maxRxStreams))
  }

  lemma CombineAssoc(a: BandInfo, b: BandInfo, c: BandInfo)
    ensures Combine(Combine(a, b), c) == Combine(a, Combine(b, c))
  {
    var l, r := Combine(Combine(a, b), c), Combine(a, Combine(b, c));
    assert l.band2g == r.band2g && l.band5g == r.band5g && l.bandDfs == r.bandDfs;
    assert l.band6g == r.band6g && l.band60g == r.band60g;
  }

  lemma CombineEmpty(a: BandInfo)
    ensures Combine(a, EMPTY) == a == Combine(EMPTY, a)
  {
    assert a.band2g + [] == a.band2g && a.band5g + [] == a.band5g && a.bandDfs + [] == a.bandDfs;
    assert a.band6g + [] == a.band6g && a.band60g + [] == a.band60g;
    assert [] + a.band2g == a.band2g && [] + a.band5g == a.band5g && [] + a.bandDfs == a.bandDfs;
    assert [] + a.band6g == a.band6g && [] + a.band60g == a.band60g;
  }

  /** Combining with an info that carries only flags just raises flags. */
  lemma CombineFlags(a: BandInfo, b: BandInfo)
    requires b.band2g == b.band5g == b.bandDfs == b.band6g == b.band60g == []
    requires b.maxTxStreams == b.maxRxStreams == 1
    ensures Combine(a, b) == a.(is80211n := a.is80211n || b.is80211n, is80211ac := a.is80211ac || b.is80211ac,
                                is80211ax := a.is80211ax || b.is80211ax, is80211be := a.is80211be || b.is80211be,
                                is160Mhz := a.is160Mhz || b.is160Mhz, is80p80Mhz := a.is80p80Mhz || b.is80p80Mhz,
                                is320Mhz := a.is320Mhz || b.is320Mhz)
  {
    CombineEmpty(a);
  }

  lemma PushOne(a: BandInfo, b: BandInfo)
    requires b == EMPTY.(band2g := b.band2g, band5g := b.band5g, bandDfs := b.bandDfs, band6g := b.band6g,
                         band60g := b.band60g)
    ensures b.band5g == b.bandDfs == b.band6g == b.band60g == [] ==>
              Combine(a, b) == a.(band2g := a.band2g + b.band2g)
    ensures b.band2g == b.bandDfs == b.band6g == b.band60g == [] ==>
              Combine(a, b) == a.(band5g := a.band5g + b.band5g)
    ensures b.band2g == b.band5g == b.band6g == b.band60g == [] ==>
              Combine(a, b) == a.(bandDfs := a.bandDfs + b.bandDfs)
    ensures b.band2g == b.band5g == b.bandDfs == b.band60g == [] ==>
              Combine(a, b) == a.(band6g := a.band6g + b.band6g)
    ensures b.band2g == b.band5g == b.bandDfs == b.band6g == [] ==>
              Combine(a, b) == a.(band60g := a.band60g + b.band60g)
  {
    CombineEmpty(a);
  }

  // ----- frequencies -----

  predicate Is2g(f: nat) { 2400 < f < 2500 }
  predicate Is5g(f: nat) { 5000 < f <= 5885 }
  predicate Is6g(f: nat) { 5925 < f < 7125 }
  predicate Is60g(f: nat) { 58320 <= f < 70200 }

  /** The frequency of one channel attribute, when it is there and the channel is enabled. */
  function Enabled(freq: seq<Byte>): Option<nat>
    requires |freq| >= NLA_HDRLEN
  {
    var f := GetInt(freq, NL80211_FREQUENCY_ATTR_FREQ, 4);
    if f.None? || Has(freq, NL80211_FREQUENCY_ATTR_DISABLED) then None else f
  }

  /** A 5 GHz channel counts as DFS when radar detection allows it or when it is passive-only. */
  predicate IsDfs(freq: seq<Byte>)
    requires |freq| >= NLA_HDRLEN
  {
    RadarChannel(freq) || Has(freq, NL80211_FREQUENCY_ATTR_NO_IR)
  }

  predicate RadarChannel(freq: seq<Byte>)
    requires |freq| >= NLA_HDRLEN
  {
    var state := GetInt(freq, NL80211_FREQUENCY_ATTR_DFS_STATE, 4);
    state == Some(NL80211_DFS_AVAILABLE) || state == Some(NL80211_DFS_USABLE)
  }

  function Classified(f: nat, dfs: bool): BandInfo {
    if Is2g(f) then EMPTY.(band2g := [f])
    else if Is5g(f) then (if dfs then EMPTY.(bandDfs := [f]) else EMPTY.(band5g := [f]))
    else if Is6g(f) then EMPTY.(band6g := [f])
    else if Is60g(f) then EMPTY.(band60g := [f])
    else EMPTY
  }

  function FreqInfo(freq: seq<Byte>): BandInfo
    requires |freq| >= NLA_HDRLEN
  {
    var f := Enabled(freq);
    if f.None? then EMPTY else Classified(f.value, IsDfs(freq))
  }

  predicate AllHeaders(cs: seq<seq<Byte>>) {
    forall c :: c in cs ==> |c| >= NLA_HDRLEN
  }

  function FreqsInfo(freqs: seq<seq<Byte>>): BandInfo
    requires AllHeaders(freqs)
  {
    if freqs == [] then EMPTY else Combine(FreqInfo(freqs[0]), FreqsInfo(freqs[1..]))
  }

  // ----- stream counts -----

  function Pow4(k: nat): (p: nat)
    ensures p > 0
  {
    if k == 0 then 1 else 4 * Pow4(k - 1)
  }

  /** The 2-bit support field of the i-th spatial stream; 3 means unsupported. */
  function McsField(map16: U16, i: nat): nat
    requires 1 <= i <= MAX_STREAMS
  {
    map16 / Pow4(i - 1) % 4
  }

  /** The highest supported stream number up to `top`, or 1. */
  function HighestStream(map16: U16, top: nat): (r: nat)
    requires 1 <= top <= MAX_STREAMS
    ensures 1 <= r <= top
    ensures forall i :: r < i <= top ==> McsField(map16, i) == 3
    ensures r > 1 ==> McsField(map16, r) != 3
  {
    if top == 1 || McsField(map16, top) != 3 then top else HighestStream(map16, top - 1)
  }

  /** The highest of the first four streams with a non-zero MCS byte, or 1. */
  function HtRxStreams(mcs: seq<Byte>): (r: nat)
    requires |mcs| >= HT_MCS_SET_NUM_BYTE
    ensures 1 <= r <= 4 && (r > 1 ==> mcs[r - 1] > 0) && forall i :: r <= i < 4 ==> mcs[i] == 0
  {
    if mcs[3] > 0 then 4 else if mcs[2] > 0 then 3 else if mcs[1] > 0 then 2 else 1
  }

  /** Transmit streams follow the receive streams unless the set says it defines its own, unequal, maximum. */
  function HtTxStreams(mcs: seq<Byte>): (r: nat)
    requires |mcs| >= HT_MCS_SET_NUM_BYTE
    ensures 1 <= r <= 4
  {
    if mcs[12] % 2 == 1 && mcs[12] / 2 % 2 == 1 then mcs[12] / 4 % 4 + 1 else HtRxStreams(mcs)
  }

  function Streams(tx: nat, rx: nat): BandInfo
    requires 1 <= tx <= MAX_STREAMS && 1 <= rx <= MAX_STREAMS
  {
    EMPTY.(maxTxStreams := tx, maxRxStreams := rx)
  }

  function StreamsOfMaps(txMap: U16, rxMap: U16): BandInfo {
    Streams(HighestStream(txMap, MAX_STREAMS), HighestStream(rxMap, MAX_STREAMS))
  }

  function HtMcsInfo(mcs: seq<Byte>): BandInfo {
    if |mcs| < HT_MCS_SET_NUM_BYTE then EMPTY else Streams(HtTxStreams(mcs), HtRxStreams(mcs))
  }

  function VhtMcsInfo(mcs: seq<Byte>): BandInfo {
    if |mcs| < VHT_MCS_SET_NUM_BYTE then EMPTY
    else StreamsOfMaps(GetU16(mcs, 4), GetU16(mcs, 0))
  }

  function HeMcsInfo(mcs: seq<Byte>): BandInfo {
    if |mcs| < HE_MCS_SET_NUM_BYTE_MIN then EMPTY
    else StreamsOfMaps(GetU16(mcs, 2), GetU16(mcs, 0))
  }

  predicate Bit(x: nat, mask: nat)
    requires mask > 0
  {
    x / mask % 2 == 1
  }

  function VhtCapInfo(cap: nat): BandInfo {
    EMPTY.(is160Mhz := Bit(cap, 0x4), is80p80Mhz := Bit(cap, 0x8))
  }

  function HePhyInfo(phy: seq<Byte>): BandInfo {
    if |phy| < HE_CAP_PHY_NUM_BYTE then EMPTY
    else EMPTY.(is160Mhz := Bit(phy[0], 0x8), is80p80Mhz := Bit(phy[0], 0x10))
  }

  function EhtPhyInfo(phy: seq<Byte>): BandInfo {
    if |phy| < EHT_CAP_PHY_NUM_BYTE then EMPTY else EMPTY.(is320Mhz := Bit(phy[0], 0x2))
  }

  // ----- one band -----

  function IfPresent(bytes: Option<seq<Byte>>, parse: seq<Byte> -> BandInfo): BandInfo {
    if bytes.None? then EMPTY else parse(bytes.value)
  }

  function FreqsOf(band: seq<Byte>): BandInfo
    requires |band| >= NLA_HDRLEN
  {
    match Get(band, NL80211_BAND_ATTR_FREQS)
    case None => EMPTY
    case Some(attr) =>
      var freqs := Children(attr[NLA_HDRLEN..]);
      if freqs.None? then EMPTY else ListableIsWalkable(attr[NLA_HDRLEN..]); FreqsInfo(freqs.value)
  }

  function CapFlagsOf(band: seq<Byte>): BandInfo
    requires |band| >= NLA_HDRLEN
  {
    EMPTY.(is80211n := Has(band, NL80211_BAND_ATTR_HT_CAPA), is80211ac := Has(band, NL80211_BAND_ATTR_VHT_CAPA))
  }

  /** Only the first interface type's data is looked at. */
  function FirstIfType(band: seq<Byte>): (r: Option<seq<Byte>>)
    requires |band| >= NLA_HDRLEN
    ensures r.Some? ==> |r.value| >= NLA_HDRLEN
  {
    match Get(band, NL80211_BAND_ATTR_IFTYPE_DATA)
    case None => None
    case Some(attr) =>
      var list := Children(attr[NLA_HDRLEN..]);
      if list.None? || list.value == [] then None
      else ListableIsWalkable(attr[NLA_HDRLEN..]); Some(list.value[0])
  }

  function HeFrom(has: bool, phy: Option<seq<Byte>>): BandInfo {
    IfPresent(phy, HePhyInfo).(is80211ax := has)
  }

  function HeOf(attr: seq<Byte>): BandInfo
    requires |attr| >= NLA_HDRLEN
  {
    HeFrom(Has(attr, NL80211_BAND_IFTYPE_ATTR_HE_CAP_PHY), GetBytes(attr, NL80211_BAND_IFTYPE_ATTR_HE_CAP_PHY))
  }

  function EhtFrom(has: bool, phy: Option<seq<Byte>>): BandInfo {
    IfPresent(phy, EhtPhyInfo).(is80211be := has)
  }

  function EhtOf(attr: seq<Byte>): BandInfo
    requires |attr| >= NLA_HDRLEN
  {
    EhtFrom(Has(attr, NL80211_BAND_IFTYPE_ATTR_EHT_CAP_PHY), GetBytes(attr, NL80211_BAND_IFTYPE_ATTR_EHT_CAP_PHY))
  }

  function HeMcsOf(attr: seq<Byte>): BandInfo
    requires |attr| >= NLA_HDRLEN
  {
    IfPresent(GetBytes(attr, NL80211_BAND_IFTYPE_ATTR_HE_CAP_MCS_SET), HeMcsInfo)
  }

  function IfTypeOf(attr: seq<Byte>): BandInfo
    requires |attr| >= NLA_HDRLEN
  {
    Combine(Combine(HeOf(attr), HeMcsOf(attr)), EhtOf(attr))
  }

  function FirstIfTypeOf(band: seq<Byte>): BandInfo
    requires |band| >= NLA_HDRLEN
  {
    var ifType := FirstIfType(band);
    if ifType.None? then EMPTY else IfTypeOf(ifType.value)
  }

  function VhtCapOf(band: seq<Byte>): BandInfo
    requires |band| >= NLA_HDRLEN
  {
    var cap := GetInt(band, NL80211_BAND_ATTR_VHT_CAPA, 4);
    if cap.None? then EMPTY else VhtCapInfo(cap.value)
  }

  function PhyOf(band: seq<Byte>): BandInfo
    requires |band| >= NLA_HDRLEN
  {
    Combine(Combine(IfPresent(GetBytes(band, NL80211_BAND_ATTR_HT_MCS_SET), HtMcsInfo),
                    IfPresent(GetBytes(band, NL80211_BAND_ATTR_VHT_MCS_SET), VhtMcsInfo)),
            VhtCapOf(band))
  }

  function BandOf(band: seq<Byte>): BandInfo
    requires |band| >= NLA_HDRLEN
  {
    Combine(Combine(Combine(FreqsOf(band), CapFlagsOf(band)), FirstIfTypeOf(band)), PhyOf(band))
  }

  // ----- all bands -----

  function Total(bands: seq<seq<Byte>>): BandInfo
    requires AllHeaders(bands)
  {
    if bands == [] then EMPTY else Combine(BandOf(bands[0]), Total(bands[1..]))
  }

  /** The bands listed in a run of bytes. */
  function BandsIn(buf: seq<Byte>): Option<BandInfo> {
    var bands := Children(buf);
    if bands.None? then None else ListableIsWalkable(buf); Some(Total(bands.value))
  }

  function PacketBands(packet: seq<Byte>): Option<BandInfo>
    requires |packet| >= HDRLEN
  {
    match PacketGet(packet, NL80211_ATTR_WIPHY_BANDS)
    case None => None
    case Some(attr) => BandsIn(attr[NLA_HDRLEN..])
  }

  // ----- properties of the parse -----

  function AllLists(b: BandInfo): multiset<nat> {
    multiset(b.band2g) + multiset(b.band5g) + multiset(b.bandDfs) + multiset(b.band6g) + multiset(b.band60g)
  }

  ghost predicate ListsInRange(b: BandInfo) {
    && (forall f :: f in b.band2g ==> Is2g(f))
    && (forall f :: f in b.band5g ==> Is5g(f))
    && (forall f :: f in b.bandDfs ==> Is5g(f))
    && (forall f :: f in b.band6g ==> Is6g(f))
    && (forall f :: f in b.band60g ==> Is60g(f))
  }

  lemma IfTypeNoLists(band: seq<Byte>)
    requires |band| >= NLA_HDRLEN
    ensures NoLists(FirstIfTypeOf(band))
  {
    if FirstIfType(band).Some? {
      var attr := FirstIfType(band).value;
      CombineNoLists(HeOf(attr), HeMcsOf(attr));
      CombineNoLists(Combine(HeOf(attr), HeMcsOf(attr)), EhtOf(attr));
    }
  }

  lemma PhyNoLists(band: seq<Byte>)
    requires |band| >= NLA_HDRLEN
    ensures NoLists(PhyOf(band))
  {
    var ht := IfPresent(GetBytes(band, NL80211_BAND_ATTR_HT_MCS_SET), HtMcsInfo);
    var vht := IfPresent(GetBytes(band, NL80211_BAND_ATTR_VHT_MCS_SET), VhtMcsInfo);
    CombineNoLists(ht, vht);
    CombineNoLists(Combine(ht, vht), VhtCapOf(band));
  }

  lemma CombineNoLists(a: BandInfo, b: BandInfo)
    requires NoLists(a) && NoLists(b)
    ensures NoLists(Combine(a, b))
  {
  }

  predicate NoLists(b: BandInfo) {
    b.band2g == b.band5g == b.bandDfs == b.band6g == b.band60g == []
  }

  // ----- what a packet's bands come to, read off its attributes -----

  datatype FreqList = G2 | G5 | Dfs | G6 | G60

  function ListOf(b: BandInfo, l: FreqList): seq<nat> {
    match l
    case G2 => b.band2g
    case G5 => b.band5g
    case Dfs => b.bandDfs
    case G6 => b.band6g
    case G60 => b.band60g
  }

  /** Radar state usable (0) or available (2), or passive only. */
  predicate RadarOrPassive(c: seq<Byte>)
    requires |c| >= NLA_HDRLEN
  {
    GetInt(c, 7, 4) == Some(0) || GetInt(c, 7, 4) == Some(2) || Find(c[NLA_HDRLEN..], 3).Found?
  }

  predicate Belongs(c: seq<Byte>, f: nat, l: FreqList)
    requires |c| >= NLA_HDRLEN
  {
    match l
    case G2 => 2400 < f < 2500
    case G5 => 5000 < f <= 5885 && !RadarOrPassive(c)
    case Dfs => 5000 < f <= 5885 && RadarOrPassive(c)
    case G6 => 5925 < f < 7125
    case G60 => 58320 <= f < 70200
  }

  /** The frequency of a channel that has one, is not disabled and belongs to the list. */
  function PickedOne(c: seq<Byte>, l: FreqList): seq<nat>
    requires |c| >= NLA_HDRLEN
  {
    var f := GetInt(c, 1, 4);
    if f.Some? && !Find(c[NLA_HDRLEN..], 2).Found? && Belongs(c, f.value, l) then [f.value] else []
  }

  function Picked(cs: seq<seq<Byte>>, l: FreqList): seq<nat>
    requires AllHeaders(cs)
  {
    if cs == [] then [] else PickedOne(cs[0], l) + Picked(cs[1..], l)
  }

  /** The channel attributes of a band; none when they cannot be listed. */
  function ChannelsOf(band: seq<Byte>): (cs: seq<seq<Byte>>)
    requires |band| >= NLA_HDRLEN
    ensures AllHeaders(cs)
  {
    match Get(band, 1)
    case None => []
    case Some(attr) =>
      var cs := Children(attr[NLA_HDRLEN..]);
      if cs.None? then [] else ListableIsWalkable(attr[NLA_HDRLEN..]); cs.value
  }

  function AllChannels(bands: seq<seq<Byte>>): (cs: seq<seq<Byte>>)
    requires AllHeaders(bands)
    ensures AllHeaders(cs)
  {
    if bands == [] then [] else ChannelsOf(bands[0]) + AllChannels(bands[1..])
  }

  lemma ListOfCombine(a: BandInfo, b: BandInfo, l: FreqList)
    ensures ListOf(Combine(a, b), l) == ListOf(a, l) + ListOf(b, l)
  {
  }

  lemma ChannelPicked(c: seq<Byte>, l: FreqList)
    requires |c| >= NLA_HDRLEN
    ensures ListOf(FreqInfo(c), l) == PickedOne(c, l)
  {
  }

  lemma {:induction false} ChannelsPicked(cs: seq<seq<Byte>>, l: FreqList)
    requires AllHeaders(cs)
    ensures ListOf(FreqsInfo(cs), l) == Picked(cs, l)
  {
    if cs != [] {
      ChannelPicked(cs[0], l);
      ChannelsPicked(cs[1..], l);
      ListOfCombine(FreqInfo(cs[0]), FreqsInfo(cs[1..]), l);
    }
  }

  lemma {:induction false} PickedAppend(a: seq<seq<Byte>>, b: seq<seq<Byte>>, l: FreqList)
    requires AllHeaders(a) && AllHeaders(b)
    ensures AllHeaders(a + b) && Picked(a + b, l) == Picked(a, l) + Picked(b, l)
  {
    if a == [] {
      assert a + b == b;
    } else {
      assert (a + b)[0] == a[0] && (a + b)[1..] == a[1..] + b;
      PickedAppend(a[1..], b, l);
      ConcatAssoc(PickedOne(a[0], l), Picked(a[1..], l), Picked(b, l));
    }
  }

  lemma NoListsOf(b: BandInfo, l: FreqList)
    requires NoLists(b)
    ensures ListOf(b, l) == []
  {
  }

  lemma OnlyFirstListOf(a: BandInfo, b: BandInfo, c: BandInfo, d: BandInfo, l: FreqList)
    requires NoLists(b) && NoLists(c) && NoLists(d)
    ensures ListOf(Combine(Combine(Combine(a, b), c), d), l) == ListOf(a, l)
  {
    ListOfCombine(a, b, l);
    ListOfCombine(Combine(a, b), c, l);
    ListOfCombine(Combine(Combine(a, b), c), d, l);
    NoListsOf(b, l);
    NoListsOf(c, l);
    NoListsOf(d, l);
  }

  lemma FreqsOfPicked(band: seq<Byte>, l: FreqList)
    requires |band| >= NLA_HDRLEN
    ensures ListOf(FreqsOf(band), l) == Picked(ChannelsOf(band), l)
  {
    ChannelsPicked(ChannelsOf(band), l);
  }

  lemma BandPicked(band: seq<Byte>, l: FreqList)
    requires |band| >= NLA_HDRLEN
    ensures ListOf(BandOf(band), l) == Picked(ChannelsOf(band), l)
  {
    FreqsOfPicked(band, l);
    IfTypeNoLists(band);
    PhyNoLists(band);
    OnlyFirstListOf(FreqsOf(band), CapFlagsOf(band), FirstIfTypeOf(band), PhyOf(band), l);
  }

  lemma {:induction false} TotalPicked(bands: seq<seq<Byte>>, l: FreqList)
    requires AllHeaders(bands)
    ensures ListOf(Total(bands), l) == Picked(AllChannels(bands), l)
  {
    if bands != [] {
      BandPicked(bands[0], l);
      TotalPicked(bands[1..], l);
      ListOfCombine(BandOf(bands[0]), Total(bands[1..]), l);
      PickedAppend(ChannelsOf(bands[0]), AllChannels(bands[1..]), l);
    }
  }

  /** The bands that a packet lists. */
  ghost predicate HasBands(packet: seq<Byte>, bands: seq<seq<Byte>>) {
    && |packet| >= HDRLEN
    && PacketGet(packet, 22).Some? && Children(PacketGet(packet, 22).value[NLA_HDRLEN..]) == Some(bands)
  }

  lemma PacketTotal(packet: seq<Byte>, bands: seq<seq<Byte>>)
    requires HasBands(packet, bands)
    ensures AllHeaders(bands) && PacketBands(packet) == Some(Total(bands))
  {
    ListableIsWalkable(PacketGet(packet, 22).value[NLA_HDRLEN..]);
  }

  /** Parsing fails exactly when the packet lists no bands. */
  lemma ParseFailsIff(packet: seq<Byte>)
    requires |packet| >= HDRLEN
    ensures PacketBands(packet) == None <==> !exists bands :: HasBands(packet, bands)
  {
    if PacketBands(packet).Some? {
      assert HasBands(packet, Children(PacketGet(packet, 22).value[NLA_HDRLEN..]).value);
    }
    if bands :| HasBands(packet, bands) {
      PacketTotal(packet, bands);
    }
  }

  /** Each of the five lists holds, in order, the enabled channels of all bands that belong to it. */
  lemma PacketLists(packet: seq<Byte>, bands: seq<seq<Byte>>, l: FreqList)
    requires HasBands(packet, bands)
    ensures AllHeaders(bands) && PacketBands(packet).Some?
    ensures ListOf(PacketBands(packet).value, l) == Picked(AllChannels(bands), l)
  {
    PacketTotal(packet, bands);
    TotalPicked(bands, l);
  }

  // ----- every usable channel is listed once -----

  function UsableOne(c: seq<Byte>): seq<nat>
    requires |c| >= NLA_HDRLEN
  {
    var f := GetInt(c, 1, 4);
    if f.None? || Find(c[NLA_HDRLEN..], 2).Found? then []
    else if 2400 < f.value < 2500 || 5000 < f.value <= 5885 || 5925 < f.value < 7125 || 58320 <= f.value < 70200
    then [f.value] else []
  }

  /** The frequencies of the channels that have one, are not disabled and fall into a known range. */
  function UsableFreqs(cs: seq<seq<Byte>>): seq<nat>
    requires AllHeaders(cs)
  {
    if cs == [] then [] else UsableOne(cs[0]) + UsableFreqs(cs[1..])
  }

  lemma ListedOnce(c: seq<Byte>)
    requires |c| >= NLA_HDRLEN
    ensures multiset(PickedOne(c, G2)) + multiset(PickedOne(c, G5)) + multiset(PickedOne(c, Dfs)) +
            multiset(PickedOne(c, G6)) + multiset(PickedOne(c, G60)) == multiset(UsableOne(c))
  {
  }

  lemma {:induction false} PickedOnce(cs: seq<seq<Byte>>)
    requires AllHeaders(cs)
    ensures multiset(Picked(cs, G2)) + multiset(Picked(cs, G5)) + multiset(Picked(cs, Dfs)) +
            multiset(Picked(cs, G6)) + multiset(Picked(cs, G60)) == multiset(UsableFreqs(cs))
  {
    if cs != [] {
      ListedOnce(cs[0]);
      PickedOnce(cs[1..]);
    }
  }

  lemma {:induction false} PickedInRange(cs: seq<seq<Byte>>, l: FreqList, f: nat)
    requires AllHeaders(cs) && f in Picked(cs, l)
    ensures if l.G2? then Is2g(f) else if l.G5? || l.Dfs? then Is5g(f) else if l.G6? then Is6g(f) else Is60g(f)
  {
    if f !in PickedOne(cs[0], l) {
      PickedInRange(cs[1..], l, f);
    }
  }

  /** The lists are those picked from the channels. */
  ghost predicate ListsFrom(b: BandInfo, cs: seq<seq<Byte>>)
    requires AllHeaders(cs)
  {
    forall l: FreqList :: ListOf(b, l) == Picked(cs, l)
  }

  lemma TotalListsFrom(bands: seq<seq<Byte>>)
    requires AllHeaders(bands)
    ensures ListsFrom(Total(bands), AllChannels(bands))
  {
    forall l: FreqList ensures ListOf(Total(bands), l) == Picked(AllChannels(bands), l) {
      TotalPicked(bands, l);
    }
  }

  lemma BagFrom(b: BandInfo, cs: seq<seq<Byte>>)
    requires AllHeaders(cs) && ListsFrom(b, cs)
    ensures AllLists(b) == multiset(UsableFreqs(cs))
  {
    PickedOnce(cs);
    assert ListOf(b, G2) == Picked(cs, G2) && ListOf(b, G5) == Picked(cs, G5) && ListOf(b, Dfs) == Picked(cs, Dfs);
    assert ListOf(b, G6) == Picked(cs, G6) && ListOf(b, G60) == Picked(cs, G60);
  }

  lemma RangesFrom(b: BandInfo, cs: seq<seq<Byte>>)
    requires AllHeaders(cs) && ListsFrom(b, cs)
    ensures ListsInRange(b)
  {
    forall l: FreqList, f: nat | f in ListOf(b, l)
      ensures if l.G2? then Is2g(f) else if l.G5? || l.Dfs? then Is5g(f) else if l.G6? then Is6g(f) else Is60g(f)
    {
      PickedInRange(cs, l, f);
    }
    assert b.band2g == ListOf(b, G2) && b.band5g == ListOf(b, G5) && b.bandDfs == ListOf(b, Dfs);
    assert b.band6g == ListOf(b, G6) && b.band60g == ListOf(b, G60);
  }

  /** Every enabled in-range channel of every band is listed exactly once, and nothing else is. */
  lemma PacketPartition(packet: seq<Byte>, bands: seq<seq<Byte>>)
    requires HasBands(packet, bands)
    ensures AllHeaders(bands) && PacketBands(packet).Some?
    ensures AllLists(PacketBands(packet).value) == multiset(UsableFreqs(AllChannels(bands)))
  {
    PacketTotal(packet, bands);
    TotalListsFrom(bands);
    BagFrom(PacketBands(packet).value, AllChannels(bands));
  }

  /** Whatever the packet says, every listed frequency lies in the range of its list. */
  lemma PacketListsInRange(packet: seq<Byte>)
    requires |packet| >= HDRLEN && PacketBands(packet).Some?
    ensures ListsInRange(PacketBands(packet).value)
  {
    var bands := Children(PacketGet(packet, 22).value[NLA_HDRLEN..]).value;
    PacketTotal(packet, bands);
    TotalListsFrom(bands);
    RangesFrom(PacketBands(packet).value, AllChannels(bands));
  }

  // ----- flags -----

  datatype Flag = N | Ac | Ax | Be | W160 | W80p80 | W320

  predicate FlagOf(b: BandInfo, f: Flag) {
    match f
    case N => b.is80211n
    case Ac => b.is80211ac
    case Ax => b.is80211ax
    case Be => b.is80211be
    case W160 => b.is160Mhz
    case W80p80 => b.is80p80Mhz
    case W320 => b.is320Mhz
  }

  /** t is the first interface type of the band. */
  predicate IsFirstIfType(band: seq<Byte>, t: seq<Byte>) {
    && |band| >= NLA_HDRLEN && |t| >= NLA_HDRLEN && Get(band, 9).Some?
    && var list := Children(Get(band, 9).value[NLA_HDRLEN..]);
       list.Some? && list.value != [] && t == list.value[0]
  }

  /** An attribute holds at least n bytes and bit k of its first byte is set. */
  predicate FirstByteBit(d: seq<Byte>, id: U16, n: nat, k: nat)
    requires |d| >= NLA_HDRLEN && n > 0
  {
    var b := GetBytes(d, id);
    b.Some? && |b.value| >= n && BitSet(b.value[0], k)
  }

  predicate VhtBit(band: seq<Byte>, k: nat)
    requires |band| >= NLA_HDRLEN
  {
    var cap := GetInt(band, 8, 4);
    cap.Some? && BitSet(cap.value, k)
  }

  /** What in an interface type raises a flag. */
  predicate IfTypeRaises(t: seq<Byte>, f: Flag)
    requires |t| >= NLA_HDRLEN
  {
    match f
    case Ax => Find(t[NLA_HDRLEN..], 3).Found?
    case Be => Find(t[NLA_HDRLEN..], 9).Found?
    case W160 => FirstByteBit(t, 3, 9, 3)
    case W80p80 => FirstByteBit(t, 3, 9, 4)
    case W320 => FirstByteBit(t, 9, 8, 1)
    case _ => false
  }

  /** What in a band raises a flag. */
  ghost predicate Raises(band: seq<Byte>, f: Flag)
    requires |band| >= NLA_HDRLEN
  {
    || (f.N? && Find(band[NLA_HDRLEN..], 4).Found?)
    || (f.Ac? && Find(band[NLA_HDRLEN..], 8).Found?)
    || (f.W160? && VhtBit(band, 2))
    || (f.W80p80? && VhtBit(band, 3))
    || exists t :: IsFirstIfType(band, t) && IfTypeRaises(t, f)
  }

  lemma FlagOfCombine(a: BandInfo, b: BandInfo, f: Flag)
    ensures FlagOf(Combine(a, b), f) == (FlagOf(a, f) || FlagOf(b, f))
  {
  }

  lemma BitIsSet(x: nat)
    ensures Bit(x, 2) == BitSet(x, 1) && Bit(x, 4) == BitSet(x, 2)
    ensures Bit(x, 8) == BitSet(x, 3) && Bit(x, 16) == BitSet(x, 4)
  {
    assert x / 4 == x / 2 / 2 && x / 8 == x / 2 / 2 / 2 && x / 16 == x / 2 / 2 / 2 / 2;
    assert BitSet(x, 4) == BitSet(x / 2, 3) == BitSet(x / 2 / 2, 2) == BitSet(x / 2 / 2 / 2, 1);
    assert BitSet(x, 3) == BitSet(x / 2, 2) == BitSet(x / 2 / 2, 1);
    assert BitSet(x, 2) == BitSet(x / 2, 1);
  }

  lemma IfTypeFlags(t: seq<Byte>, f: Flag)
    requires |t| >= NLA_HDRLEN
    ensures FlagOf(IfTypeOf(t), f) <==> IfTypeRaises(t, f)
  {
    var he, mcs, eht := HeOf(t), HeMcsOf(t), EhtOf(t);
    FlagOfCombine(he, mcs, f);
    FlagOfCombine(Combine(he, mcs), eht, f);
    HeFlags(t, f);
    EhtFlags(t, f);
    NoFlags(mcs, f);
  }

  lemma NoFlags(b: BandInfo, f: Flag)
    requires b == EMPTY.(maxTxStreams := b.maxTxStreams, maxRxStreams := b.maxRxStreams)
    ensures !FlagOf(b, f)
  {
  }

  lemma HeFlags(t: seq<Byte>, f: Flag)
    requires |t| >= NLA_HDRLEN
    ensures FlagOf(HeOf(t), f) <==> (f.Ax? || f.W160? || f.W80p80?) && IfTypeRaises(t, f)
  {
    var phy := GetBytes(t, 3);
    if phy.Some? && |phy.value| >= 9 {
      BitIsSet(phy.value[0]);
    }
  }

  lemma EhtFlags(t: seq<Byte>, f: Flag)
    requires |t| >= NLA_HDRLEN
    ensures FlagOf(EhtOf(t), f) <==> (f.Be? || f.W320?) && IfTypeRaises(t, f)
  {
    var phy := GetBytes(t, 9);
    if phy.Some? && |phy.value| >= 8 {
      BitIsSet(phy.value[0]);
    }
  }

  lemma FirstIfTypeFlags(band: seq<Byte>, f: Flag)
    requires |band| >= NLA_HDRLEN
    ensures FlagOf(FirstIfTypeOf(band), f) <==> exists t :: IsFirstIfType(band, t) && IfTypeRaises(t, f)
  {
    if FirstIfType(band).Some? {
      var t := FirstIfType(band).value;
      assert IsFirstIfType(band, t);
      IfTypeFlags(t, f);
    }
  }

  lemma PhyFlags(band: seq<Byte>, f: Flag)
    requires |band| >= NLA_HDRLEN
    ensures FlagOf(PhyOf(band), f) <==> (f.W160? && VhtBit(band, 2)) || (f.W80p80? && VhtBit(band, 3))
  {
    var ht := IfPresent(GetBytes(band, NL80211_BAND_ATTR_HT_MCS_SET), HtMcsInfo);
    var vht := IfPresent(GetBytes(band, NL80211_BAND_ATTR_VHT_MCS_SET), VhtMcsInfo);
    FlagOfCombine(ht, vht, f);
    FlagOfCombine(Combine(ht, vht), VhtCapOf(band), f);
    NoFlags(ht, f);
    NoFlags(vht, f);
    if GetInt(band, 8, 4).Some? {
      BitIsSet(GetInt(band, 8, 4).value);
    }
  }

  /** The channels contribute to the lists only. */
  predicate ListsOnly(b: BandInfo) {
    b == EMPTY.(band2g := b.band2g, band5g := b.band5g, bandDfs := b.bandDfs, band6g := b.band6g, band60g := b.band60g)
  }

  lemma {:induction false} FreqsListsOnly(cs: seq<seq<Byte>>)
    requires AllHeaders(cs)
    ensures ListsOnly(FreqsInfo(cs))
  {
    if cs != [] {
      FreqsListsOnly(cs[1..]);
      assert ListsOnly(FreqInfo(cs[0]));
    }
  }

  lemma FreqsOfListsOnly(band: seq<Byte>)
    requires |band| >= NLA_HDRLEN
    ensures ListsOnly(FreqsOf(band))
  {
    FreqsListsOnly(ChannelsOf(band));
  }

  lemma CapFlags(band: seq<Byte>, f: Flag)
    requires |band| >= NLA_HDRLEN
    ensures FlagOf(CapFlagsOf(band), f) <==>
            (f.N? && Find(band[NLA_HDRLEN..], 4).Found?) || (f.Ac? && Find(band[NLA_HDRLEN..], 8).Found?)
  {
  }

  lemma BandRaises(band: seq<Byte>, f: Flag)
    requires |band| >= NLA_HDRLEN
    ensures FlagOf(BandOf(band), f) <==> Raises(band, f)
  {
    var a, b, c, d := FreqsOf(band), CapFlagsOf(band), FirstIfTypeOf(band), PhyOf(band);
    FreqsOfListsOnly(band);
    CapFlags(band, f);
    FirstIfTypeFlags(band, f);
    PhyFlags(band, f);
    FlagOfCombine(a, b, f);
    FlagOfCombine(Combine(a, b), c, f);
    FlagOfCombine(Combine(Combine(a, b), c), d, f);
  }

  ghost predicate AnyRaises(bands: seq<seq<Byte>>, f: Flag)
    requires AllHeaders(bands)
  {
    exists i :: 0 <= i < |bands| && Raises(bands[i], f)
  }

  lemma RaisesSplit(bands: seq<seq<Byte>>, f: Flag)
    requires AllHeaders(bands) && bands != []
    ensures AnyRaises(bands, f) <==> Raises(bands[0], f) || AnyRaises(bands[1..], f)
  {
    var rest := bands[1..];
    if i :| 0 <= i < |rest| && Raises(rest[i], f) {
      assert bands[i + 1] == rest[i];
    }
    if i :| 0 <= i < |bands| && Raises(bands[i], f) {
      assert i > 0 ==> rest[i - 1] == bands[i];
    }
  }

  lemma {:induction false} TotalRaises(bands: seq<seq<Byte>>, f: Flag)
    requires AllHeaders(bands)
    ensures FlagOf(Total(bands), f) <==> AnyRaises(bands, f)
  {
    if bands != [] {
      var rest := bands[1..];
      BandRaises(bands[0], f);
      TotalRaises(rest, f);
      FlagOfCombine(BandOf(bands[0]), Total(rest), f);
      RaisesSplit(bands, f);
    }
  }

  /** A flag is set exactly when some band carries what raises it. */
  lemma PacketFlags(packet: seq<Byte>, bands: seq<seq<Byte>>, f: Flag)
    requires HasBands(packet, bands)
    ensures AllHeaders(bands) && PacketBands(packet).Some?
    ensures FlagOf(PacketBands(packet).value, f) <==> AnyRaises(bands, f)
  {
    PacketTotal(packet, bands);
    TotalRaises(bands, f);
  }

  // ----- stream counts of a packet -----

  datatype Direction = Tx | Rx

  function StreamsOf(b: BandInfo, d: Direction): nat {
    if d.Tx? then b.maxTxStreams else b.maxRxStreams
  }

  /** A support field other than 3, which is both bits set. */
  predicate StreamSupported(map16: nat, i: nat)
    requires i >= 1
  {
    !(BitSet(map16, 2 * i - 2) && BitSet(map16, 2 * i - 1))
  }

  /** Some stream from the n-th on is supported. */
  predicate MapSupports(lo: Byte, hi: Byte, n: nat) {
    SupportedFrom(lo + 256 * (hi as int), n)
  }

  predicate SupportedFrom(map16: nat, n: nat) {
    exists i: nat :: 1 <= i <= 8 && n <= i && StreamSupported(map16, i)
  }

  /** Receive: a rate byte from the n-th stream on is set. Transmit: its own maximum if it says so, else the same. */
  predicate HtSupports(m: seq<Byte>, d: Direction, n: nat)
    requires |m| >= 16
  {
    if d.Tx? && BitSet(m[12], 0) && BitSet(m[12], 1) then n <= m[12] / 4 % 4 + 1
    else exists i :: 0 <= i < 4 && n <= i + 1 && m[i] > 0
  }

  predicate IfTypeSupports(t: seq<Byte>, d: Direction, n: nat)
    requires |t| >= NLA_HDRLEN
  {
    var m := GetBytes(t, 4);
    m.Some? && |m.value| >= 4 &&
    if d.Rx? then MapSupports(m.value[0], m.value[1], n) else MapSupports(m.value[2], m.value[3], n)
  }

  ghost predicate Supports(band: seq<Byte>, d: Direction, n: nat)
    requires |band| >= NLA_HDRLEN
  {
    || (var m := GetBytes(band, 3);
        m.Some? && |m.value| >= 16 && HtSupports(m.value, d, n))
    || (var m := GetBytes(band, 7);
        m.Some? && |m.value| >= 8 &&
        if d.Rx? then MapSupports(m.value[0], m.value[1], n) else MapSupports(m.value[4], m.value[5], n))
    || exists t :: IsFirstIfType(band, t) && IfTypeSupports(t, d, n)
  }

  lemma StreamsOfCombine(a: BandInfo, b: BandInfo, d: Direction, n: nat)
    ensures StreamsOf(Combine(a, b), d) >= n <==> StreamsOf(a, d) >= n || StreamsOf(b, d) >= n
  {
  }

  lemma DivTwice(x: nat, p: nat)
    requires p > 0
    ensures x / (4 * p) == x / 4 / p
  {
    var q, r := x / 4 / p, x / 4 % p;
    assert x / 4 == p * q + r;
    var t := 4 * r + x % 4;
    assert x == 4 * (p * q + r) + x % 4 == (4 * p) * q + t;
    assert 0 <= t < 4 * p;
    QuotientIs(x, 4 * p, q, t);
  }

  lemma QuotientIs(x: nat, d: nat, q: nat, r: nat)
    requires d > 0 && r < d && x == d * q + r
    ensures x / d == q
  {
    var k := x / d - q;
    assert x == d * (x / d) + x % d;
    assert d * k == r - x % d;
    Multiple(d, k);
  }

  lemma Multiple(d: int, k: int)
    requires d >= 0
    ensures k >= 1 ==> d * k >= d
    ensures k <= -1 ==> d * k <= -d
  {
    if k >= 1 {
      assert d * k == d + d * (k - 1);
    } else if k <= -1 {
      assert d * k == -d + d * (k + 1);
      assert d * (-k - 1) >= 0;
    }
  }

  lemma LowBits(x: nat)
    ensures x % 4 == 3 <==> BitSet(x, 0) && BitSet(x, 1)
  {
    assert BitSet(x, 1) == BitSet(x / 2, 0) == (x / 2 % 2 == 1);
  }

  lemma BitShift(x: nat, k: nat)
    requires k >= 2
    ensures BitSet(x, k) == BitSet(x / 4, k - 2)
  {
    assert x / 2 / 2 == x / 4;
    assert BitSet(x, k) == BitSet(x / 2, k - 1) == BitSet(x / 2 / 2, k - 2);
  }

  lemma {:induction false} FieldBits(x: nat, k: nat)
    ensures x / Pow4(k) % 4 == 3 <==> BitSet(x, 2 * k) && BitSet(x, 2 * k + 1)
    decreases k
  {
    if k == 0 {
      LowBits(x);
    } else {
      DivTwice(x, Pow4(k - 1));
      FieldBits(x / 4, k - 1);
      BitShift(x, 2 * k);
      BitShift(x, 2 * k + 1);
    }
  }

  lemma HighestSupports(lo: Byte, hi: Byte, n: nat)
    requires n >= 2
    ensures var map16: U16 := lo + 256 * (hi as int); HighestStream(map16, 8) >= n <==> MapSupports(lo, hi, n)
  {
    var map16: U16 := lo + 256 * (hi as int);
    forall i: nat | 1 <= i <= 8 ensures McsField(map16, i) != 3 <==> StreamSupported(map16, i) {
      FieldBits(map16, i - 1);
    }
    var r := HighestStream(map16, 8);
    if r >= n {
      assert McsField(map16, r) != 3;
      assert StreamSupported(map16, r);
    }
    if i: nat :| 1 <= i <= 8 && n <= i && StreamSupported(map16, i) {
      assert McsField(map16, i) != 3;
    }
  }

  lemma HtCounts(m: seq<Byte>, d: Direction, n: nat)
    requires |m| >= 16 && n >= 2
    ensures (if d.Tx? then HtTxStreams(m) else HtRxStreams(m)) >= n <==> HtSupports(m, d, n)
  {
    BitIsSet(m[12]);
    assert BitSet(m[12], 0) == (m[12] % 2 == 1) && BitSet(m[12], 1) == (m[12] / 2 % 2 == 1);
    var r := HtRxStreams(m);
    if r >= n {
      assert m[r - 1] > 0;
    }
  }

  lemma MapStreams(txMap: U16, rxMap: U16, d: Direction)
    ensures StreamsOf(StreamsOfMaps(txMap, rxMap), d) == HighestStream(if d.Tx? then txMap else rxMap, 8)
  {
  }

  lemma VhtCounts(m: seq<Byte>, d: Direction, n: nat)
    requires |m| >= 8 && n >= 2
    ensures StreamsOf(VhtMcsInfo(m), d) >= n
            <==> if d.Rx? then MapSupports(m[0], m[1], n) else MapSupports(m[4], m[5], n)
  {
    MapStreams(GetU16(m, 4), GetU16(m, 0), d);
    HighestSupports(m[0], m[1], n);
    HighestSupports(m[4], m[5], n);
  }

  lemma HeCounts(m: seq<Byte>, d: Direction, n: nat)
    requires |m| >= 4 && n >= 2
    ensures StreamsOf(HeMcsInfo(m), d) >= n
            <==> if d.Rx? then MapSupports(m[0], m[1], n) else MapSupports(m[2], m[3], n)
  {
    MapStreams(GetU16(m, 2), GetU16(m, 0), d);
    HighestSupports(m[0], m[1], n);
    HighestSupports(m[2], m[3], n);
  }

  lemma PlainStreams(b: BandInfo, d: Direction, n: nat)
    requires n >= 2 && b.maxTxStreams == b.maxRxStreams == 1
    ensures !(StreamsOf(b, d) >= n)
  {
  }

  lemma PhyCounts(band: seq<Byte>, d: Direction, n: nat)
    requires |band| >= NLA_HDRLEN && n >= 2
    ensures StreamsOf(PhyOf(band), d) >= n <==>
            (var m := GetBytes(band, 3); m.Some? && |m.value| >= 16 && HtSupports(m.value, d, n))
            || (var m := GetBytes(band, 7);
                m.Some? && |m.value| >= 8 &&
                if d.Rx? then MapSupports(m.value[0], m.value[1], n) else MapSupports(m.value[4], m.value[5], n))
  {
    var htSet, vhtSet := GetBytes(band, 3), GetBytes(band, 7);
    var ht, vht := IfPresent(htSet, HtMcsInfo), IfPresent(vhtSet, VhtMcsInfo);
    StreamsOfCombine(ht, vht, d, n);
    StreamsOfCombine(Combine(ht, vht), VhtCapOf(band), d, n);
    PlainStreams(VhtCapOf(band), d, n);
    if htSet.Some? && |htSet.value| >= 16 {
      HtCounts(htSet.value, d, n);
    }
    if vhtSet.Some? && |vhtSet.value| >= 8 {
      VhtCounts(vhtSet.value, d, n);
    }
  }

  lemma IfTypeCounts(t: seq<Byte>, d: Direction, n: nat)
    requires |t| >= NLA_HDRLEN && n >= 2
    ensures StreamsOf(IfTypeOf(t), d) >= n <==> IfTypeSupports(t, d, n)
  {
    var he, mcs, eht := HeOf(t), HeMcsOf(t), EhtOf(t);
    StreamsOfCombine(he, mcs, d, n);
    StreamsOfCombine(Combine(he, mcs), eht, d, n);
    PlainStreams(he, d, n);
    PlainStreams(eht, d, n);
    var m := GetBytes(t, 4);
    if m.Some? && |m.value| >= 4 {
      HeCounts(m.value, d, n);
    } else {
      PlainStreams(mcs, d, n);
    }
  }

  lemma FirstIfTypeCounts(band: seq<Byte>, d: Direction, n: nat)
    requires |band| >= NLA_HDRLEN && n >= 2
    ensures StreamsOf(FirstIfTypeOf(band), d) >= n <==> exists t :: IsFirstIfType(band, t) && IfTypeSupports(t, d, n)
  {
    if FirstIfType(band).Some? {
      var t := FirstIfType(band).value;
      assert IsFirstIfType(band, t);
      IfTypeCounts(t, d, n);
    }
  }

  lemma BandSupports(band: seq<Byte>, d: Direction, n: nat)
    requires |band| >= NLA_HDRLEN && n >= 2
    ensures StreamsOf(BandOf(band), d) >= n <==> Supports(band, d, n)
  {
    var a, b, c, e := FreqsOf(band), CapFlagsOf(band), FirstIfTypeOf(band), PhyOf(band);
    FreqsOfListsOnly(band);
    PlainStreams(a, d, n);
    PlainStreams(b, d, n);
    FirstIfTypeCounts(band, d, n);
    PhyCounts(band, d, n);
    StreamsOfCombine(a, b, d, n);
    StreamsOfCombine(Combine(a, b), c, d, n);
    StreamsOfCombine(Combine(Combine(a, b), c), e, d, n);
  }

  ghost predicate AnySupports(bands: seq<seq<Byte>>, d: Direction, n: nat)
    requires AllHeaders(bands)
  {
    exists i :: 0 <= i < |bands| && Supports(bands[i], d, n)
  }

  lemma SupportsSplit(bands: seq<seq<Byte>>, d: Direction, n: nat)
    requires AllHeaders(bands) && bands != []
    ensures AnySupports(bands, d, n) <==> Supports(bands[0], d, n) || AnySupports(bands[1..], d, n)
  {
    var rest := bands[1..];
    if i :| 0 <= i < |rest| && Supports(rest[i], d, n) {
      assert bands[i + 1] == rest[i];
    }
    if i :| 0 <= i < |bands| && Supports(bands[i], d, n) {
      assert i > 0 ==> rest[i - 1] == bands[i];
    }
  }

  lemma {:induction false} TotalSupports(bands: seq<seq<Byte>>, d: Direction, n: nat)
    requires AllHeaders(bands) && n >= 2
    ensures StreamsOf(Total(bands), d) >= n <==> AnySupports(bands, d, n)
  {
    if bands != [] {
      var rest := bands[1..];
      BandSupports(bands[0], d, n);
      TotalSupports(rest, d, n);
      StreamsOfCombine(BandOf(bands[0]), Total(rest), d, n);
      SupportsSplit(bands, d, n);
    }
  }

  /** A packet has n streams in a direction exactly when one of its HT, VHT or HE sets says so; one stream is free. */
  lemma PacketStreams(packet: seq<Byte>, bands: seq<seq<Byte>>, d: Direction, n: nat)
    requires HasBands(packet, bands) && n >= 2
    ensures AllHeaders(bands) && PacketBands(packet).Some?
    ensures 1 <= StreamsOf(PacketBands(packet).value, d) <= 8
    ensures StreamsOf(PacketBands(packet).value, d) >= n <==> AnySupports(bands, d, n)
  {
    PacketTotal(packet, bands);
    TotalSupports(bands, d, n);
  }

  // ----- parsing is a homomorphism over merging -----

  lemma {:induction false} TotalAppend(a: seq<seq<Byte>>, b: seq<seq<Byte>>)
    requires AllHeaders(a) && AllHeaders(b)
    ensures AllHeaders(a + b) && Total(a + b) == Combine(Total(a), Total(b))
  {
    if a == [] {
      assert a + b == b;
      CombineEmpty(Total(b));
    } else {
      assert (a + b)[1..] == a[1..] + b;
      TotalAppend(a[1..], b);
      CombineAssoc(BandOf(a[0]), Total(a[1..]), Total(b));
    }
  }

  function CombineOption(a: Option<BandInfo>, b: Option<BandInfo>): Option<BandInfo> {
    if a.None? || b.None? then None else Some(Combine(a.value, b.value))
  }

  /** Parsing complete bands followed by any bytes combines the two parses; if the second fails so does the whole. */
  lemma BandsAppend(p: seq<Byte>, q: seq<Byte>)
    requires Tiled(p)
    ensures BandsIn(p + q) == CombineOption(BandsIn(p), BandsIn(q))
  {
    ChildrenAppend(p, q);
    ListableIsWalkable(p);
    if Children(q).Some? {
      ListableIsWalkable(q);
      ListableIsWalkable(p + q);
      TotalAppend(Children(p).value, Children(q).value);
    }
  }

  /** ParseBandInfo of two merged band attributes is the combination of the separate parses. */
  lemma MergedBands(p: seq<Byte>, q: seq<Byte>)
    requires Fits(NL80211_ATTR_WIPHY_BANDS, p + q) && Tiled(p)
    ensures var a, b := Enc(NL80211_ATTR_WIPHY_BANDS, p), Enc(NL80211_ATTR_WIPHY_BANDS, q);
            && WellFormed(a) && WellFormed(b)
            && BandsIn(Merged(a, b)[NLA_HDRLEN..])
               == CombineOption(BandsIn(a[NLA_HDRLEN..]), BandsIn(b[NLA_HDRLEN..]))
  {
    TiledAligned(p);
    AlignedReads(NL80211_ATTR_WIPHY_BANDS, p);
    EncReads(NL80211_ATTR_WIPHY_BANDS, q);
    EncJoined(NL80211_ATTR_WIPHY_BANDS, p, q);
    BandsAppend(p, q + Padding(q));
  }

  /** The combination, in arrival order, of the parses of every band fragment of a wiphy. */
  function FragmentBands(frs: seq<Fragment>, w: U32): Option<BandInfo> {
    if frs == [] then Some(EMPTY)
    else if Matches(frs[0], w, NL80211_ATTR_WIPHY_BANDS) then
      CombineOption(BandsIn(frs[0].payload), FragmentBands(frs[1..], w))
    else FragmentBands(frs[1..], w)
  }

  lemma {:induction false} JoinedBands(frs: seq<Fragment>, w: U32)
    requires forall f :: f in frs && Matches(f, w, NL80211_ATTR_WIPHY_BANDS) ==> Tiled(f.payload)
    ensures BandsIn(Joined(frs, w, NL80211_ATTR_WIPHY_BANDS)) == FragmentBands(frs, w)
    ensures Tiled(Joined(frs, w, NL80211_ATTR_WIPHY_BANDS))
  {
    if frs != [] {
      JoinedBands(frs[1..], w);
      var rest := Joined(frs[1..], w, NL80211_ATTR_WIPHY_BANDS);
      if Matches(frs[0], w, NL80211_ATTR_WIPHY_BANDS) {
        BandsAppend(frs[0].payload, rest);
        TiledAppend(frs[0].payload, rest);
      } else {
        assert [] + rest == rest;
      }
    }
  }

  lemma {:induction false} TiledAppend(a: seq<Byte>, b: seq<Byte>)
    requires Tiled(a) && Tiled(b)
    ensures Tiled(a + b)
  {
    if a == [] {
      assert a + b == b;
    } else {
      var n := Align4(NlaLen(a));
      TiledAppend(a[n..], b);
      assert (a + b)[n..] == a[n..] + b && NlaLen(a + b) == NlaLen(a);
    }
  }

  /** Reassembling a dump and parsing the bands of a wiphy is parsing the joined fragments. */
  lemma DumpBandsJoined(frs: seq<Fragment>, w: U32)
    requires AllJoinsFit(frs)
    ensures var joined := Joined(frs, w, NL80211_ATTR_WIPHY_BANDS);
            PacketBands(PacketFor(frs, w))
            == if NL80211_ATTR_WIPHY_BANDS in Ids(frs, w) then BandsIn(joined + Padding(joined)) else None
  {
    OutputReads(frs, w, NL80211_ATTR_WIPHY_BANDS);
    var joined := Joined(frs, w, NL80211_ATTR_WIPHY_BANDS);
    assert Fits(NL80211_ATTR_WIPHY_BANDS, joined);
    EncReads(NL80211_ATTR_WIPHY_BANDS, joined);
  }

  /**
   * End to end: reassembling a split dump and then parsing the bands of a wiphy gives the combination of what
   * each fragment says on its own, whatever the split.
   */
  lemma DumpBands(frs: seq<Fragment>, w: U32)
    requires AllJoinsFit(frs)
    requires forall f :: f in frs && Matches(f, w, NL80211_ATTR_WIPHY_BANDS) ==> Tiled(f.payload)
    ensures PacketBands(PacketFor(frs, w))
            == if NL80211_ATTR_WIPHY_BANDS in Ids(frs, w) then FragmentBands(frs, w) else None
  {
    var joined := Joined(frs, w, NL80211_ATTR_WIPHY_BANDS);
    DumpBandsJoined(frs, w);
    JoinedBands(frs, w);
    TiledAligned(joined);
    NoPadding(joined);
  }

  // ----- the code -----

  /** Every search made in a channel attribute ends. */
  predicate FreqEnds(freq: seq<Byte>) {
    && Ends(freq, NL80211_FREQUENCY_ATTR_FREQ)
    && (GetInt(freq, NL80211_FREQUENCY_ATTR_FREQ, 4).Some? ==> Ends(freq, NL80211_FREQUENCY_ATTR_DISABLED))
    && (Enabled(freq).Some? && Is5g(Enabled(freq).value) ==> DfsEnds(freq))
  }

  predicate DfsEnds(freq: seq<Byte>) {
    && Ends(freq, NL80211_FREQUENCY_ATTR_DFS_STATE)
    && (RadarChannel(freq) || Ends(freq, NL80211_FREQUENCY_ATTR_NO_IR))
  }

  predicate FreqsEnd(attr: seq<Byte>)
    requires |attr| >= NLA_HDRLEN
  {
    var freqs := Children(attr[NLA_HDRLEN..]);
    freqs.Some? ==> forall f :: f in freqs.value ==> FreqEnds(f)
  }

  /** The three reads made of an interface type. */
  predicate IfTypeLegible(attr: seq<Byte>) {
    && Legible(attr, NL80211_BAND_IFTYPE_ATTR_HE_CAP_PHY) && Legible(attr, NL80211_BAND_IFTYPE_ATTR_HE_CAP_MCS_SET)
    && Legible(attr, NL80211_BAND_IFTYPE_ATTR_EHT_CAP_PHY)
  }

  /** The reads of the HT and VHT capabilities of a band. */
  predicate PhyLegible(band: seq<Byte>) {
    && Legible(band, NL80211_BAND_ATTR_HT_MCS_SET) && Legible(band, NL80211_BAND_ATTR_VHT_MCS_SET)
    && Ends(band, NL80211_BAND_ATTR_VHT_CAPA)
  }

  /** Everything read while parsing a band: searches end and payloads taken as bytes are byte ranges. */
  predicate BandLegible(band: seq<Byte>) {
    && Ends(band, NL80211_BAND_ATTR_FREQS) && Ends(band, NL80211_BAND_ATTR_HT_CAPA)
    && Ends(band, NL80211_BAND_ATTR_IFTYPE_DATA) && PhyLegible(band)
    && (var freqs := Get(band, NL80211_BAND_ATTR_FREQS);
        freqs.Some? ==> FreqsEnd(freqs.value))
    && (var ifType := FirstIfType(band);
        ifType.Some? ==> IfTypeLegible(ifType.value))
  }

  /** Headers that cover themselves, as the kernel writes them, are enough. */
  lemma SoundIsLegible(d: seq<Byte>, id: U16)
    requires |d| >= NLA_HDRLEN && Sound(d[NLA_HDRLEN..])
    ensures Legible(d, id)
  {
    SoundSearch(d[NLA_HDRLEN..]);
  }

  /** Scan the stream fields from the top; the first supported one wins. */
  method ParseMcsMap(map16: U16) returns (maxNss: nat)
    ensures maxNss == HighestStream(map16, MAX_STREAMS)
  {
    maxNss := 1;
    var i := MAX_STREAMS;
    while i >= 1
      invariant 0 <= i <= MAX_STREAMS
      invariant i >= 1 ==> HighestStream(map16, MAX_STREAMS) == HighestStream(map16, i)
      invariant i == 0 ==> HighestStream(map16, MAX_STREAMS) == 1
    {
      if McsField(map16, i) != 3 {
        return i;
      }
      i := i - 1;
    }
  }

  method ParseHtMcsSet(mcs: seq<Byte>) returns (tx: nat, rx: nat)
    requires |mcs| >= HT_MCS_SET_NUM_BYTE
    ensures tx == HtTxStreams(mcs) && rx == HtRxStreams(mcs)
  {
    rx := 1;
    var i := 4;
    while i >= 1
      invariant 0 <= i <= 4 && rx == 1 && forall j :: i <= j < 4 ==> mcs[j] == 0
    {
      if mcs[i - 1] > 0 {
        rx := i;
        break;
      }
      i := i - 1;
    }
    tx := rx;
    if mcs[12] % 2 == 1 && mcs[12] / 2 % 2 == 1 {
      tx := mcs[12] / 4 % 4 + 1;
    }
  }

  /** Stands for the structure that ParseBandInfo fills in place. */
  class BandParser {
    var info: BandInfo

    constructor ()
      ensures info == EMPTY
    {
      info := EMPTY;
    }

    method RaiseStreams(tx: nat, rx: nat)
      requires 1 <= tx <= MAX_STREAMS && 1 <= rx <= MAX_STREAMS
      modifies this
      ensures info == Combine(old(info), Streams(tx, rx))
    {
      info := info.(maxTxStreams := Max(info.maxTxStreams, tx), maxRxStreams := Max(info.maxRxStreams, rx));
      CombineEmpty(old(info));
    }

    method HandleFreq(freq: seq<Byte>)
      requires FreqEnds(freq)
      modifies this
      ensures info == Combine(old(info), FreqInfo(freq))
    {
      var enabled := ReadEnabled(freq);
      if enabled.None? {
        CombineEmpty(info);
        return;
      }
      PushFreq(info, enabled.value, IsDfs(freq));
      AddFreq(enabled.value, freq);
    }

    method AddFreq(f: nat, freq: seq<Byte>)
      requires |freq| >= NLA_HDRLEN && (Is5g(f) ==> DfsEnds(freq))
      modifies this
      ensures info == Pushed(old(info), f, IsDfs(freq))
    {
      if 2400 < f < 2500 {
        info := info.(band2g := info.band2g + [f]);
      } else if 5000 < f <= 5885 {
        AddFreq5g(f, freq);
      } else if 5925 < f < 7125 {
        info := info.(band6g := info.band6g + [f]);
      } else if 58320 <= f < 70200 {
        info := info.(band60g := info.band60g + [f]);
      }
    }

    method AddFreq5g(f: nat, freq: seq<Byte>)
      requires DfsEnds(freq)
      modifies this
      ensures info == if IsDfs(freq) then old(info).(bandDfs := old(info).bandDfs + [f])
                      else old(info).(band5g := old(info).band5g + [f])
    {
      var dfs := ReadDfs(freq);
      if dfs {
        info := info.(bandDfs := info.bandDfs + [f]);
        return;
      }
      info := info.(band5g := info.band5g + [f]);
    }

    method HandleBandFreqAttributes(freqsAttr: seq<Byte>)
      requires |freqsAttr| >= NLA_HDRLEN && FreqsEnd(freqsAttr)
      modifies this
      ensures var freqs := Children(freqsAttr[NLA_HDRLEN..]);
              && (freqs.Some? ==> AllHeaders(freqs.value))
              && info == if freqs.None? then old(info) else Combine(old(info), FreqsInfo(freqs.value))
    {
      var attr := new NL80211Attr.FromBuffer(freqsAttr);
      var list := attr.GetListOfNestedAttributes();
      if list.None? {
        return;
      }
      HandleFreqs(list.value);
    }

    method HandleFreqs(freqs: seq<seq<Byte>>)
      requires AllHeaders(freqs) && forall f :: f in freqs ==> FreqEnds(f)
      modifies this
      ensures info == Combine(old(info), FreqsInfo(freqs))
    {
      ghost var goal := Combine(info, FreqsInfo(freqs));
      assert freqs[0..] == freqs;
      for i := 0 to |freqs|
        invariant goal == Combine(info, FreqsInfo(freqs[i..]))
      {
        assert freqs[i] in freqs;
        FreqsStep(info, freqs, i);
        HandleFreq(freqs[i]);
      }
      CombineEmpty(info);
    }

    method ParseIfTypeDataAttributes(ifTypeAttr: seq<Byte>)
      requires |ifTypeAttr| >= NLA_HDRLEN
      requires var list := Children(ifTypeAttr[NLA_HDRLEN..]);
               list.Some? && list.value != [] ==> IfTypeLegible(list.value[0])
      modifies this
      ensures var list := Children(ifTypeAttr[NLA_HDRLEN..]);
              info == if list.None? || list.value == [] then old(info)
                      else Combine(old(info), IfTypeOf(list.value[0]))
    {
      var outer := new NL80211Attr.FromBuffer(ifTypeAttr);
      var list := outer.GetListOfNestedAttributes();
      if list.None? || list.value == [] {
        return;
      }
      var first := list.value[0];
      var attr := new NL80211Attr.FromBuffer(first);
      ParseHe(attr);
      ParseHeMcs(attr);
      ParseEht(attr);
      CombineAssoc(old(info), HeOf(first), HeMcsOf(first));
      CombineAssoc(old(info), Combine(HeOf(first), HeMcsOf(first)), EhtOf(first));
    }

    method ParseHe(attr: NL80211Attr)
      requires Legible(attr.data, NL80211_BAND_IFTYPE_ATTR_HE_CAP_PHY)
      modifies this
      ensures info == Combine(old(info), HeOf(attr.data))
    {
      var has := attr.HasAttribute(NL80211_BAND_IFTYPE_ATTR_HE_CAP_PHY);
      if has {
        var phy := attr.GetBytesValue(NL80211_BAND_IFTYPE_ATTR_HE_CAP_PHY);
        RaiseHe(phy);
      } else {
        CombineEmpty(info);
      }
    }

    method RaiseHe(phy: Option<seq<Byte>>)
      modifies this
      ensures info == Combine(old(info), HeFrom(true, phy))
    {
      CombineFlags(info, HeFrom(true, phy));
      info := info.(is80211ax := true);
      if phy.Some? && |phy.value| >= HE_CAP_PHY_NUM_BYTE {
        RaiseWidths(Bit(phy.value[0], 0x8), Bit(phy.value[0], 0x10));
      }
    }

    /** Set the flags of the channel widths that a capability field announces. */
    method RaiseWidths(has160: bool, has80p80: bool)
      modifies this
      ensures info == old(info).(is160Mhz := old(info).is160Mhz || has160,
                                 is80p80Mhz := old(info).is80p80Mhz || has80p80)
    {
      if has160 {
        info := info.(is160Mhz := true);
      }
      if has80p80 {
        info := info.(is80p80Mhz := true);
      }
    }

    method ParseHeMcs(attr: NL80211Attr)
      requires Legible(attr.data, NL80211_BAND_IFTYPE_ATTR_HE_CAP_MCS_SET)
      modifies this
      ensures info == Combine(old(info), HeMcsOf(attr.data))
    {
      CombineEmpty(info);
      var has := attr.HasAttribute(NL80211_BAND_IFTYPE_ATTR_HE_CAP_MCS_SET);
      if has {
        var mcs := attr.GetBytesValue(NL80211_BAND_IFTYPE_ATTR_HE_CAP_MCS_SET);
        if mcs.Some? && |mcs.value| >= HE_MCS_SET_NUM_BYTE_MIN {
          var rx := ParseMcsMap(GetU16(mcs.value, 0));
          var tx := ParseMcsMap(GetU16(mcs.value, 2));
          RaiseStreams(tx, rx);
        }
      }
    }

    method ParseEht(attr: NL80211Attr)
      requires Legible(attr.data, NL80211_BAND_IFTYPE_ATTR_EHT_CAP_PHY)
      modifies this
      ensures info == Combine(old(info), EhtOf(attr.data))
    {
      var has := attr.HasAttribute(NL80211_BAND_IFTYPE_ATTR_EHT_CAP_PHY);
      if has {
        var phy := attr.GetBytesValue(NL80211_BAND_IFTYPE_ATTR_EHT_CAP_PHY);
        RaiseEht(phy);
      } else {
        CombineEmpty(info);
      }
    }

    method RaiseEht(phy: Option<seq<Byte>>)
      modifies this
      ensures info == Combine(old(info), EhtFrom(true, phy))
    {
      CombineFlags(info, EhtFrom(true, phy));
      info := info.(is80211be := true);
      if phy.Some? && |phy.value| >= EHT_CAP_PHY_NUM_BYTE && Bit(phy.value[0], 0x2) {
        info := info.(is320Mhz := true);
      }
    }

    method ParseHtMcsSetAttribute(band: NL80211Attr)
      requires Legible(band.data, NL80211_BAND_ATTR_HT_MCS_SET)
      modifies this
      ensures info == Combine(old(info), IfPresent(GetBytes(band.data, NL80211_BAND_ATTR_HT_MCS_SET), HtMcsInfo))
    {
      CombineEmpty(info);
      var mcs := band.GetBytesValue(NL80211_BAND_ATTR_HT_MCS_SET);
      if mcs.Some? && |mcs.value| >= HT_MCS_SET_NUM_BYTE {
        var tx, rx := ParseHtMcsSet(mcs.value);
        RaiseStreams(tx, rx);
      }
    }

    method ParseVhtMcsSetAttribute(band: NL80211Attr)
      requires Legible(band.data, NL80211_BAND_ATTR_VHT_MCS_SET)
      modifies this
      ensures info == Combine(old(info), IfPresent(GetBytes(band.data, NL80211_BAND_ATTR_VHT_MCS_SET), VhtMcsInfo))
    {
      CombineEmpty(info);
      var mcs := band.GetBytesValue(NL80211_BAND_ATTR_VHT_MCS_SET);
      if mcs.Some? && |mcs.value| >= VHT_MCS_SET_NUM_BYTE {
        var rx := ParseMcsMap(GetU16(mcs.value, 0));
        var tx := ParseMcsMap(GetU16(mcs.value, 4));
        RaiseStreams(tx, rx);
      }
    }

    method ParseVhtCapAttribute(band: NL80211Attr)
      requires Ends(band.data, NL80211_BAND_ATTR_VHT_CAPA)
      modifies this
      ensures info == Combine(old(info), VhtCapOf(band.data))
    {
      CombineEmpty(info);
      var cap := band.GetIntValue(NL80211_BAND_ATTR_VHT_CAPA, 4);
      if cap.None? {
        return;
      }
      CombineFlags(info, VhtCapInfo(cap.value));
      RaiseWidths(Bit(cap.value, 0x4), Bit(cap.value, 0x8));
    }

    method ParseHtVhtPhyCapabilities(band: NL80211Attr)
      requires PhyLegible(band.data)
      modifies this
      ensures info == Combine(old(info), PhyOf(band.data))
    {
      ghost var ht := IfPresent(GetBytes(band.data, NL80211_BAND_ATTR_HT_MCS_SET), HtMcsInfo);
      ghost var vht := IfPresent(GetBytes(band.data, NL80211_BAND_ATTR_VHT_MCS_SET), VhtMcsInfo);
      ParseHtMcsSetAttribute(band);
      ParseVhtMcsSetAttribute(band);
      ParseVhtCapAttribute(band);
      CombineAssoc(old(info), ht, vht);
      CombineAssoc(old(info), Combine(ht, vht), VhtCapOf(band.data));
    }

    method ParseBandFreqs(attr: NL80211Attr)
      requires BandLegible(attr.data)
      modifies this
      ensures info == Combine(old(info), FreqsOf(attr.data))
    {
      CombineEmpty(info);
      var freqs := attr.GetAttribute(NL80211_BAND_ATTR_FREQS);
      if freqs.Some? {
        HandleBandFreqAttributes(freqs.value);
      }
    }

    method ParseBandFlags(attr: NL80211Attr)
      requires Ends(attr.data, NL80211_BAND_ATTR_HT_CAPA) && Ends(attr.data, NL80211_BAND_ATTR_VHT_CAPA)
      modifies this
      ensures info == Combine(old(info), CapFlagsOf(attr.data))
    {
      CombineFlags(info, CapFlagsOf(attr.data));
      var ht := attr.HasAttribute(NL80211_BAND_ATTR_HT_CAPA);
      var vht := attr.HasAttribute(NL80211_BAND_ATTR_VHT_CAPA);
      RaiseCaps(ht, vht);
    }

    method RaiseCaps(ht: bool, vht: bool)
      modifies this
      ensures info == old(info).(is80211n := old(info).is80211n || ht, is80211ac := old(info).is80211ac || vht)
    {
      if ht {
        info := info.(is80211n := true);
      }
      if vht {
        info := info.(is80211ac := true);
      }
    }

    method ParseBandIfType(attr: NL80211Attr)
      requires BandLegible(attr.data)
      modifies this
      ensures info == Combine(old(info), FirstIfTypeOf(attr.data))
    {
      CombineEmpty(info);
      var ifType := attr.GetAttribute(NL80211_BAND_ATTR_IFTYPE_DATA);
      if ifType.Some? {
        ListableHeads(ifType.value[NLA_HDRLEN..]);
        ParseIfTypeDataAttributes(ifType.value);
      }
    }

    /** The body of the loop over bands. */
    method ParseBand(band: seq<Byte>)
      requires BandLegible(band)
      modifies this
      ensures info == Combine(old(info), BandOf(band))
    {
      var attr := new NL80211Attr.FromBuffer(band);
      ParseBandFreqs(attr);
      ParseBandFlags(attr);
      ParseBandIfType(attr);
      ParseHtVhtPhyCapabilities(attr);
      BandSteps(old(info), FreqsOf(band), CapFlagsOf(band), FirstIfTypeOf(band), PhyOf(band));
    }

    method ParseBandInfo(packet: NL80211Packet) returns (ok: bool)
      requires |packet.data| >= HDRLEN && Find(packet.data[HDRLEN..], NL80211_ATTR_WIPHY_BANDS) != Stuck
      requires var attr := PacketGet(packet.data, NL80211_ATTR_WIPHY_BANDS);
               attr.Some? ==> BandsLegible(attr.value[NLA_HDRLEN..])
      modifies this
      ensures ok <==> PacketBands(packet.data).Some?
      ensures info == if ok then PacketBands(packet.data).value else old(info)
    {
      var found := packet.GetAttribute(NL80211_ATTR_WIPHY_BANDS);
      if found.None? {
        return false;
      }
      var attr := new NL80211Attr.FromBuffer(found.value);
      var list := attr.GetListOfNestedAttributes();
      if list.None? {
        return false;
      }
      info := EMPTY;
      ListableHeads(found.value[NLA_HDRLEN..]);
      ParseBands(list.value);
      ListableIsWalkable(found.value[NLA_HDRLEN..]);
      CombineEmpty(Total(list.value));
      return true;
    }

    method ParseBands(bands: seq<seq<Byte>>)
      requires AllHeaders(bands) && forall b :: b in bands ==> BandLegible(b)
      modifies this
      ensures info == Combine(old(info), Total(bands))
    {
      ghost var goal := Combine(info, Total(bands));
      assert bands[0..] == bands;
      for i := 0 to |bands|
        invariant goal == Combine(info, Total(bands[i..]))
      {
        assert bands[i] in bands;
        TotalStep(info, bands, i);
        ParseBand(bands[i]);
      }
      CombineEmpty(info);
    }
  }

  lemma FreqsStep(a: BandInfo, freqs: seq<seq<Byte>>, i: nat)
    requires AllHeaders(freqs) && i < |freqs|
    ensures Combine(a, FreqsInfo(freqs[i..])) == Combine(Combine(a, FreqInfo(freqs[i])), FreqsInfo(freqs[i + 1..]))
  {
    assert freqs[i..][0] == freqs[i] && freqs[i..][1..] == freqs[i + 1..];
    CombineAssoc(a, FreqInfo(freqs[i]), FreqsInfo(freqs[i + 1..]));
  }

  lemma TotalStep(a: BandInfo, bands: seq<seq<Byte>>, i: nat)
    requires AllHeaders(bands) && i < |bands|
    ensures Combine(a, Total(bands[i..])) == Combine(Combine(a, BandOf(bands[i])), Total(bands[i + 1..]))
  {
    assert bands[i..][0] == bands[i] && bands[i..][1..] == bands[i + 1..];
    CombineAssoc(a, BandOf(bands[i]), Total(bands[i + 1..]));
  }

  /** What appending one frequency to its list leaves. */
  function Pushed(a: BandInfo, f: nat, dfs: bool): BandInfo {
    if Is2g(f) then a.(band2g := a.band2g + [f])
    else if Is5g(f) then (if dfs then a.(bandDfs := a.bandDfs + [f]) else a.(band5g := a.band5g + [f]))
    else if Is6g(f) then a.(band6g := a.band6g + [f])
    else if Is60g(f) then a.(band60g := a.band60g + [f])
    else a
  }

  lemma PushFreq(a: BandInfo, f: nat, dfs: bool)
    ensures Combine(a, Classified(f, dfs)) == Pushed(a, f, dfs)
  {
    if Is2g(f) {
      PushOne(a, EMPTY.(band2g := [f]));
    } else if Is5g(f) && dfs {
      PushOne(a, EMPTY.(bandDfs := [f]));
    } else if Is5g(f) {
      PushOne(a, EMPTY.(band5g := [f]));
    } else if Is6g(f) {
      PushOne(a, EMPTY.(band6g := [f]));
    } else if Is60g(f) {
      PushOne(a, EMPTY.(band60g := [f]));
    } else {
      CombineEmpty(a);
    }
  }

  predicate BandsLegible(buf: seq<Byte>) {
    var bands := Children(buf);
    bands.Some? ==> forall b :: b in bands.value ==> BandLegible(b)
  }

  lemma ListableHeads(buf: seq<Byte>)
    ensures Children(buf).Some? ==> AllHeaders(Children(buf).value)
  {
    if Children(buf).Some? {
      ListableIsWalkable(buf);
    }
  }

  lemma BandSteps(a: BandInfo, b: BandInfo, c: BandInfo, d: BandInfo, e: BandInfo)
    ensures Combine(Combine(Combine(Combine(a, b), c), d), e) == Combine(a, Combine(Combine(Combine(b, c), d), e))
  {
    CombineAssoc(a, b, c);
    CombineAssoc(a, Combine(b, c), d);
    CombineAssoc(a, Combine(Combine(b, c), d), e);
  }

  method ReadEnabled(freq: seq<Byte>) returns (r: Option<nat>)
    requires FreqEnds(freq)
    ensures r == Enabled(freq)
  {
    var attr := new NL80211Attr.FromBuffer(freq);
    r := attr.GetIntValue(NL80211_FREQUENCY_ATTR_FREQ, 4);
    if r.Some? {
      var disabled := attr.HasAttribute(NL80211_FREQUENCY_ATTR_DISABLED);
      if disabled {
        r := None;
      }
    }
  }

  method ReadDfs(freq: seq<Byte>) returns (dfs: bool)
    requires DfsEnds(freq)
    ensures dfs == IsDfs(freq)
  {
    var attr := new NL80211Attr.FromBuffer(freq);
    var state := attr.GetIntValue(NL80211_FREQUENCY_ATTR_DFS_STATE, 4);
    if state.Some? && (state.value == NL80211_DFS_AVAILABLE || state.value == NL80211_DFS_USABLE) {
      return true;
    }
    dfs := attr.HasAttribute(NL80211_FREQUENCY_ATTR_NO_IR);
  }
}
