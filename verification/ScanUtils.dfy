/**
 * The SSID element parser and the scheduled-scan request builder (scanning/scan_utils.cpp).
 */
module ScanUtils {
  import opened Bytes
  import opened Attribute
  import opened Packet

  // ----- information elements: sections 9.4.2.1 and 9.4.2.2 of IEEE 802.11-2016 -----

  const ELEM_ID_SSID := 0

  datatype Element = Element(id: Byte, payload: seq<Byte>)

  predicate ElementsFit(es: seq<Element>) {
    forall e :: e in es ==> |e.payload| < 256
  }

  predicate NoSsid(es: seq<Element>) {
    forall e :: e in es ==> e.id != ELEM_ID_SSID
  }

  function EncodeElement(e: Element): seq<Byte>
    requires |e.payload| < 256
  {
    [e.id, |e.payload|] + e.payload
  }

  function EncodeElements(es: seq<Element>): seq<Byte>
    requires ElementsFit(es)
  {
    if es == [] then [] else EncodeElement(es[0]) + EncodeElements(es[1..])
  }

  /** The bytes end before the element at their front does. */
  predicate Truncated(ie: seq<Byte>) {
    |ie| < 2 || |ie| < 2 + ie[1] as int
  }

  function FindSsid(ie: seq<Byte>): Option<seq<Byte>> {
    if Truncated(ie) then None
    else if ie[0] == ELEM_ID_SSID then Some(ie[2..2 + ie[1]])
    else FindSsid(ie[2 + ie[1]..])
  }

  /** A cursor walks the elements; it never leaves the buffer. */
  method GetSSIDFromInfoElement(ie: seq<Byte>) returns (r: Option<seq<Byte>>)
    ensures r == FindSsid(ie)
  {
    var ptr := 0;
    assert ie[0..] == ie;
    while ptr + 1 < |ie|
      invariant ptr <= |ie| && FindSsid(ie) == FindSsid(ie[ptr..])
      decreases |ie| - ptr
    {
      var elementType := ie[ptr];
      var length: int := ie[ptr + 1];
      if ptr + 1 + length >= |ie| {
        return None;
      }
      SliceOfDrop(ie, ptr, 2, 2 + length);
      if elementType == ELEM_ID_SSID {
        return if length == 0 then Some([]) else Some(ie[ptr + 2..ptr + length + 2]);
      }
      ptr := ptr + 2 + length;
    }
    return None;
  }

  lemma ElementFirst(e: Element, rest: seq<Byte>)
    requires |e.payload| < 256
    ensures FindSsid(EncodeElement(e) + rest) == if e.id == ELEM_ID_SSID then Some(e.payload) else FindSsid(rest)
  {
    var ie := EncodeElement(e) + rest;
    assert ie[0] == e.id && ie[1] == |e.payload|;
    assert ie[2..2 + |e.payload|] == e.payload && ie[2 + |e.payload|..] == rest;
  }

  /** On the wire an element is its id, its length and its payload; the SSID has id 0. */
  lemma ElementOnTheWire(id: Byte, payload: seq<Byte>, rest: seq<Byte>)
    requires |payload| < 256
    ensures FindSsid([id, |payload|] + payload + rest) == if id == 0 then Some(payload) else FindSsid(rest)
  {
    ElementFirst(Element(id, payload), rest);
  }

  /** Bytes that end before their first element does hold no SSID. */
  lemma CutElement(ie: seq<Byte>)
    requires |ie| < 2 || |ie| < 2 + ie[1] as int
    ensures FindSsid(ie) == None
  {
  }

  lemma {:induction false} SkipElements(es: seq<Element>, rest: seq<Byte>)
    requires ElementsFit(es) && NoSsid(es)
    ensures FindSsid(EncodeElements(es) + rest) == FindSsid(rest)
  {
    if es == [] {
      assert EncodeElements(es) + rest == rest;
    } else {
      var tail := EncodeElements(es[1..]) + rest;
      assert EncodeElements(es) + rest == EncodeElement(es[0]) + tail;
      ElementFirst(es[0], tail);
      SkipElements(es[1..], rest);
    }
  }

  /** Every byte string is complete foreign elements followed by a truncated element or by a complete SSID. */
  lemma {:induction false} Decompose(ie: seq<Byte>) returns (es: seq<Element>, rest: seq<Byte>)
    ensures ElementsFit(es) && NoSsid(es) && ie == EncodeElements(es) + rest
    ensures Truncated(rest) || rest[0] == ELEM_ID_SSID
  {
    es, rest := [], ie;
    if !Truncated(ie) && ie[0] != ELEM_ID_SSID {
      var n := 2 + ie[1] as int;
      var first := Element(ie[0], ie[2..n]);
      var tail;
      tail, rest := Decompose(ie[n..]);
      es := [first] + tail;
      assert ie == EncodeElement(first) + ie[n..];
      assert es[1..] == tail;
      assert EncodeElements(es) + rest == EncodeElement(first) + (EncodeElements(tail) + rest);
    }
  }

  ghost predicate SsidAt(ie: seq<Byte>, es: seq<Element>, ssid: seq<Byte>, rest: seq<Byte>) {
    && ElementsFit(es) && NoSsid(es) && |ssid| < 256
    && ie == EncodeElements(es) + (EncodeElement(Element(ELEM_ID_SSID, ssid)) + rest)
  }

  ghost predicate TruncatedAt(ie: seq<Byte>, es: seq<Element>, rest: seq<Byte>) {
    ElementsFit(es) && NoSsid(es) && Truncated(rest) && ie == EncodeElements(es) + rest
  }

  /** The parser returns an SSID exactly when its element is the first SSID, reached through complete elements. */
  lemma FindsFirstSsid(ie: seq<Byte>, ssid: seq<Byte>)
    ensures FindSsid(ie) == Some(ssid) <==> exists es, rest :: SsidAt(ie, es, ssid, rest)
  {
    if FindSsid(ie) == Some(ssid) {
      var es, tail := Decompose(ie);
      SkipElements(es, tail);
      var rest := tail[2 + tail[1]..];
      assert tail == EncodeElement(Element(ELEM_ID_SSID, ssid)) + rest;
      assert SsidAt(ie, es, ssid, rest);
    }
    if es, rest :| SsidAt(ie, es, ssid, rest) {
      SkipElements(es, EncodeElement(Element(ELEM_ID_SSID, ssid)) + rest);
      ElementFirst(Element(ELEM_ID_SSID, ssid), rest);
    }
  }

  /** It fails exactly when a truncated element, or the end, comes before any SSID. */
  lemma FailsOnTruncation(ie: seq<Byte>)
    ensures FindSsid(ie) == None <==> exists es, rest :: TruncatedAt(ie, es, rest)
  {
    if FindSsid(ie) == None {
      var es, rest := Decompose(ie);
      SkipElements(es, rest);
      assert TruncatedAt(ie, es, rest);
    }
    if es, rest :| TruncatedAt(ie, es, rest) {
      SkipElements(es, rest);
    }
  }

  function FirstSsid(es: seq<Element>): Option<seq<Byte>> {
    if es == [] then None else if es[0].id == ELEM_ID_SSID then Some(es[0].payload) else FirstSsid(es[1..])
  }

  /** Parsing inverts encoding. */
  lemma {:induction false} SsidRoundTrip(es: seq<Element>)
    requires ElementsFit(es)
    ensures FindSsid(EncodeElements(es)) == FirstSsid(es)
  {
    if es != [] {
      ElementFirst(es[0], EncodeElements(es[1..]));
      SsidRoundTrip(es[1..]);
    }
  }

  // ----- the scheduled-scan request -----

  const NL80211_CMD_START_SCHED_SCAN: Byte := 75
  const NL80211_ATTR_SCAN_FREQUENCIES: U16 := 44
  const NL80211_ATTR_SCAN_SSIDS: U16 := 45
  const NL80211_ATTR_SCHED_SCAN_INTERVAL: U16 := 119
  const NL80211_ATTR_SCHED_SCAN_MATCH: U16 := 132
  const NL80211_ATTR_SCAN_FLAGS: U16 := 158
  const NL80211_ATTR_SCHED_SCAN_PLANS: U16 := 225
  const NL80211_ATTR_SCHED_SCAN_RSSI_ADJUST: U16 := 247
  const NL80211_SCHED_SCAN_PLAN_INTERVAL: U16 := 1
  const NL80211_SCHED_SCAN_PLAN_ITERATIONS: U16 := 2
  const NL80211_SCHED_SCAN_MATCH_ATTR_SSID: U16 := 1
  const NL80211_SCHED_SCAN_MATCH_ATTR_RSSI: U16 := 2
  const NL80211_SCAN_FLAG_RANDOM_ADDR := 8
  const NL80211_SCAN_FLAG_LOW_POWER := 512
  const MSEC_PER_SEC := 1000

  /** The numbers are the kernel's. */
  lemma KernelNumbers()
    ensures NL80211_CMD_START_SCHED_SCAN == 75 && NL80211_ATTR_SCAN_FREQUENCIES == 44 && NL80211_ATTR_SCAN_SSIDS == 45
    ensures NL80211_ATTR_SCHED_SCAN_INTERVAL == 119 && NL80211_ATTR_SCHED_SCAN_MATCH == 132
    ensures NL80211_ATTR_SCHED_SCAN_PLANS == 225
    ensures NL80211_SCHED_SCAN_PLAN_INTERVAL == 1 && NL80211_SCHED_SCAN_PLAN_ITERATIONS == 2
    ensures NL80211_SCHED_SCAN_MATCH_ATTR_SSID == 1 && NL80211_SCHED_SCAN_MATCH_ATTR_RSSI == 2 && MSEC_PER_SEC == 1000
  {
  }

  datatype ScanPlan = ScanPlan(intervalMs: U32, iterations: U32)

  datatype IntervalSetting = IntervalSetting(plans: seq<ScanPlan>, finalIntervalMs: U32)

  datatype SchedScan = SchedScan(
    ifIndex: U32, setting: IntervalSetting, rssi2g: int, rssi5g: int,
    randomMac: bool, lowPower: bool, relativeRssi: bool,
    scanSsids: seq<seq<Byte>>, matchSsids: seq<seq<Byte>>, freqs: seq<U32>)

  function Low(x: int, width: nat): seq<Byte> {
    LE(x % Pow256(width), width)
  }

  function Wrap16(i: nat): U16 {
    i % 0x1_0000
  }

  /** Sub-attributes numbered from 0 in list order. */
  function Numbered(items: seq<seq<Byte>>): (ts: seq<Tree>)
    ensures |ts| == |items| && forall i :: 0 <= i < |items| ==> ts[i] == Leaf(Wrap16(i), items[i])
  {
    seq(|items|, i requires 0 <= i < |items| => Leaf(Wrap16(i), items[i]))
  }

  function NumberedFreqs(freqs: seq<U32>): (ts: seq<Tree>)
    ensures |ts| == |freqs| && forall i :: 0 <= i < |freqs| ==> ts[i] == IntLeaf(Wrap16(i), freqs[i], 4)
  {
    seq(|freqs|, i requires 0 <= i < |freqs| => IntLeaf(Wrap16(i), freqs[i], 4))
  }

  function MatchSet(id: U16, ssid: seq<Byte>, rssi: int): Tree {
    Nest(id, [Leaf(NL80211_SCHED_SCAN_MATCH_ATTR_SSID, ssid), Leaf(NL80211_SCHED_SCAN_MATCH_ATTR_RSSI, Low(rssi, 4))])
  }

  function MatchSets(ssids: seq<seq<Byte>>, rssi: int): (ts: seq<Tree>)
    ensures |ts| == |ssids| && forall i :: 0 <= i < |ssids| ==> ts[i] == MatchSet(Wrap16(i), ssids[i], rssi)
  {
    seq(|ssids|, i requires 0 <= i < |ssids| => MatchSet(Wrap16(i), ssids[i], rssi))
  }

  /** Plans are numbered from 1 and carry seconds; the last plan repeats forever and has no iteration count. */
  function PlanTree(id: nat, plan: ScanPlan): Tree {
    Nest(Wrap16(id), [IntLeaf(NL80211_SCHED_SCAN_PLAN_INTERVAL, plan.intervalMs / MSEC_PER_SEC, 4),
                      IntLeaf(NL80211_SCHED_SCAN_PLAN_ITERATIONS, plan.iterations, 4)])
  }

  function LastPlanTree(id: nat, finalIntervalMs: U32): Tree {
    Nest(Wrap16(id), [IntLeaf(NL80211_SCHED_SCAN_PLAN_INTERVAL, finalIntervalMs / MSEC_PER_SEC, 4)])
  }

  function PlanTrees(setting: IntervalSetting): (ts: seq<Tree>)
    ensures |ts| == |setting.plans| + 1
    ensures forall i :: 0 <= i < |setting.plans| ==> ts[i] == PlanTree(i + 1, setting.plans[i])
    ensures ts[|setting.plans|] == LastPlanTree(|setting.plans| + 1, setting.finalIntervalMs)
  {
    seq(|setting.plans|, i requires 0 <= i < |setting.plans| => PlanTree(i + 1, setting.plans[i])) +
    [LastPlanTree(|setting.plans| + 1, setting.finalIntervalMs)]
  }

  function IntervalTree(setting: IntervalSetting): Tree {
    if setting.plans != [] then Nest(NL80211_ATTR_SCHED_SCAN_PLANS, PlanTrees(setting))
    else IntLeaf(NL80211_ATTR_SCHED_SCAN_INTERVAL, setting.finalIntervalMs, 4)
  }

  function ScanFlags(req: SchedScan): nat {
    (if req.randomMac then NL80211_SCAN_FLAG_RANDOM_ADDR else 0) +
    (if req.lowPower then NL80211_SCAN_FLAG_LOW_POWER else 0)
  }

  function MatchTree(req: SchedScan): Tree {
    Nest(NL80211_ATTR_SCHED_SCAN_MATCH, MatchSets(req.matchSsids, req.rssi5g))
  }

  function AdjustTree(req: SchedScan): Tree {
    Leaf(NL80211_ATTR_SCHED_SCAN_RSSI_ADJUST, [0, (req.rssi2g - req.rssi5g) % 256])
  }

  function SsidsTree(req: SchedScan): Tree {
    Nest(NL80211_ATTR_SCAN_SSIDS, Numbered(req.scanSsids))
  }

  function FreqsTree(req: SchedScan): Tree {
    Nest(NL80211_ATTR_SCAN_FREQUENCIES, NumberedFreqs(req.freqs))
  }

  function FirstTrees(req: SchedScan): seq<Tree> {
    [MatchTree(req)] + (if req.relativeRssi then [AdjustTree(req)] else []) +
    [IntLeaf(NL80211_ATTR_IFINDEX, req.ifIndex, 4)]
  }

  function MiddleTrees(req: SchedScan): seq<Tree> {
    [SsidsTree(req)] + if req.freqs != [] then [FreqsTree(req)] else []
  }

  function LastTrees(req: SchedScan): seq<Tree> {
    [IntervalTree(req.setting)] +
    if ScanFlags(req) != 0 then [IntLeaf(NL80211_ATTR_SCAN_FLAGS, ScanFlags(req), 4)] else []
  }

  /** All attributes of the request, in the order in which they are added. */
  function RequestTrees(req: SchedScan): seq<Tree> {
    FirstTrees(req) + MiddleTrees(req) + LastTrees(req)
  }

  // ----- building the request -----

  lemma EmptyNest(id: U16)
    ensures Encode(Nest(id, [])) == Enc(id, [])
  {
    assert Body(Nest(id, [])) == EncodeAll([]) == [];
  }

  /** The buffer of a nested attribute while its children are being appended. */
  ghost predicate Holding(attr: NL80211Attr, id: U16, kids: seq<Tree>, i: nat)
    reads attr
    requires i <= |kids|
  {
    attr.data == Encode(Nest(id, kids[..i]))
  }

  /** Append the i-th child. */
  method AppendKid(attr: NL80211Attr, kid: NL80211Attr, ghost id: U16, ghost kids: seq<Tree>, ghost i: nat)
    requires attr != kid && i < |kids|
    requires Holding(attr, id, kids, i) && kid.data == Encode(kids[i])
    modifies attr
    ensures Holding(attr, id, kids, i + 1)
  {
    AppendedIsEncode(id, kids[..i], kids[i]);
    PrefixSnoc(kids, i);
    attr.AddAttribute(kid);
  }

  /** A nested attribute with one byte-vector child per item. */
  method ByteList(id: U16, items: seq<seq<Byte>>) returns (attr: NL80211Attr)
    ensures fresh(attr) && attr.data == Encode(Nest(id, Numbered(items)))
  {
    ghost var kids := Numbered(items);
    attr := new NL80211Attr(id, []);
    EmptyNest(id);
    for i := 0 to |items|
      invariant fresh(attr) && Holding(attr, id, kids, i)
    {
      var kid := new NL80211Attr(Wrap16(i), items[i]);
      AppendKid(attr, kid, id, kids, i);
    }
    assert kids[..|items|] == kids;
  }

  /** A nested attribute with one integer child per frequency. */
  method FreqList(id: U16, freqs: seq<U32>) returns (attr: NL80211Attr)
    ensures fresh(attr) && attr.data == Encode(Nest(id, NumberedFreqs(freqs)))
  {
    ghost var kids := NumberedFreqs(freqs);
    attr := new NL80211Attr(id, []);
    EmptyNest(id);
    for i := 0 to |freqs|
      invariant fresh(attr) && Holding(attr, id, kids, i)
    {
      var kid := new NL80211Attr(Wrap16(i), LE(freqs[i], 4));
      AppendKid(attr, kid, id, kids, i);
    }
    assert kids[..|freqs|] == kids;
  }

  lemma KidFits(id: U16, kids: seq<Tree>, i: nat)
    requires TreeFits(Nest(id, kids)) && i < |kids|
    ensures TreeFits(kids[i])
  {
    assert AllFit(kids);
  }

  /** A nested attribute with two leaves. */
  method Pair(id: U16, first: Tree, second: Tree) returns (attr: NL80211Attr)
    requires first.Leaf? && second.Leaf?
    ensures fresh(attr) && attr.data == Encode(Nest(id, [first, second]))
  {
    ghost var kids := [first, second];
    attr := new NL80211Attr(id, []);
    EmptyNest(id);
    var kid := new NL80211Attr(first.id, first.payload);
    AppendKid(attr, kid, id, kids, 0);
    kid := new NL80211Attr(second.id, second.payload);
    AppendKid(attr, kid, id, kids, 1);
    assert kids[..2] == kids;
  }

  method MatchAttr(ssids: seq<seq<Byte>>, rssi: int) returns (attr: NL80211Attr)
    ensures fresh(attr) && attr.data == Encode(Nest(NL80211_ATTR_SCHED_SCAN_MATCH, MatchSets(ssids, rssi)))
  {
    ghost var kids := MatchSets(ssids, rssi);
    attr := new NL80211Attr(NL80211_ATTR_SCHED_SCAN_MATCH, []);
    EmptyNest(NL80211_ATTR_SCHED_SCAN_MATCH);
    for i := 0 to |ssids|
      invariant fresh(attr) && Holding(attr, NL80211_ATTR_SCHED_SCAN_MATCH, kids, i)
    {
      var group := Pair(Wrap16(i), Leaf(NL80211_SCHED_SCAN_MATCH_ATTR_SSID, ssids[i]),
                        Leaf(NL80211_SCHED_SCAN_MATCH_ATTR_RSSI, Low(rssi, 4)));
      AppendKid(attr, group, NL80211_ATTR_SCHED_SCAN_MATCH, kids, i);
    }
    assert kids[..|ssids|] == kids;
  }

  /** The plans, numbered from 1, and then the one that repeats forever. */
  method PlansAttr(setting: IntervalSetting) returns (attr: NL80211Attr)
    ensures fresh(attr) && attr.data == Encode(Nest(NL80211_ATTR_SCHED_SCAN_PLANS, PlanTrees(setting)))
  {
    ghost var kids := PlanTrees(setting);
    attr := new NL80211Attr(NL80211_ATTR_SCHED_SCAN_PLANS, []);
    EmptyNest(NL80211_ATTR_SCHED_SCAN_PLANS);
    for i := 0 to |setting.plans|
      invariant fresh(attr) && Holding(attr, NL80211_ATTR_SCHED_SCAN_PLANS, kids, i)
    {
      var plan := setting.plans[i];
      var kid := Pair(Wrap16(i + 1), IntLeaf(NL80211_SCHED_SCAN_PLAN_INTERVAL, plan.intervalMs / MSEC_PER_SEC, 4),
                      IntLeaf(NL80211_SCHED_SCAN_PLAN_ITERATIONS, plan.iterations, 4));
      AppendKid(attr, kid, NL80211_ATTR_SCHED_SCAN_PLANS, kids, i);
    }
    var n := |setting.plans|;
    var last := LastPlan(n + 1, setting.finalIntervalMs);
    AppendKid(attr, last, NL80211_ATTR_SCHED_SCAN_PLANS, kids, n);
    assert kids[..n + 1] == kids;
  }

  method LastPlan(id: nat, finalIntervalMs: U32) returns (attr: NL80211Attr)
    ensures fresh(attr) && attr.data == Encode(LastPlanTree(id, finalIntervalMs))
  {
    ghost var kids := LastPlanTree(id, finalIntervalMs).kids;
    attr := new NL80211Attr(Wrap16(id), []);
    EmptyNest(Wrap16(id));
    var kid := new NL80211Attr(NL80211_SCHED_SCAN_PLAN_INTERVAL, LE(finalIntervalMs / MSEC_PER_SEC, 4));
    AppendKid(attr, kid, Wrap16(id), kids, 0);
    assert kids[..1] == kids;
  }

  method IntervalAttr(setting: IntervalSetting) returns (attr: NL80211Attr)
    ensures fresh(attr) && attr.data == Encode(IntervalTree(setting))
  {
    if setting.plans != [] {
      attr := PlansAttr(setting);
    } else {
      attr := new NL80211Attr(NL80211_ATTR_SCHED_SCAN_INTERVAL, LE(setting.finalIntervalMs, 4));
    }
  }

  function SchedScanHeader(family: U16, sequence: U32, pid: U32): (h: seq<Byte>)
    ensures |h| == HDRLEN - 4
  {
    RequestHeader(family, NLM_F_REQUEST + NLM_F_ACK, NL80211_CMD_START_SCHED_SCAN, sequence, pid)
  }

  /** The fresh packet asks for an acknowledgement. */
  method NewSchedScan(family: U16, sequence: U32, pid: U32) returns (packet: NL80211Packet)
    ensures fresh(packet) && packet.data == Packed(SchedScanHeader(family, sequence, pid), EncodeAll([]))
  {
    packet := new NL80211Packet(family, NL80211_CMD_START_SCHED_SCAN, sequence, pid);
    RequestReads(family, NLM_F_REQUEST, NL80211_CMD_START_SCHED_SCAN, sequence, pid, []);
    packet.AddFlag(NLM_F_ACK);
    assert BitOr(NLM_F_REQUEST, NLM_F_ACK) == NLM_F_REQUEST + NLM_F_ACK;
    FlagsReplaced(family, NLM_F_REQUEST, NLM_F_REQUEST + NLM_F_ACK, NL80211_CMD_START_SCHED_SCAN, sequence, pid, []);
  }

  /** Append one attribute to a packet. */
  method Put(packet: NL80211Packet, attr: NL80211Attr, ghost h: seq<Byte>, ghost ts: seq<Tree>, ghost t: Tree)
    requires |h| == HDRLEN - 4 && packet.data == Packed(h, EncodeAll(ts)) && attr.data == Encode(t)
    modifies packet
    ensures packet.data == Packed(h, EncodeAll(ts + [t]))
  {
    AddedTree(h, ts, t);
    packet.AddAttribute(attr);
  }

  /** The packet of a scheduled scan, each attribute added in turn. */
  method StartScheduledScan(req: SchedScan, family: U16, sequence: U32, pid: U32) returns (data: seq<Byte>)
    ensures data == Packed(SchedScanHeader(family, sequence, pid), EncodeAll(RequestTrees(req)))
  {
    ghost var h := SchedScanHeader(family, sequence, pid);
    var packet := NewSchedScan(family, sequence, pid);
    PutMatchAndIndex(packet, req, h);
    PutSsidsAndFreqs(packet, req, h);
    PutIntervalAndFlags(packet, req, h);
    return packet.data;
  }

  method PutMatchAndIndex(packet: NL80211Packet, req: SchedScan, ghost h: seq<Byte>)
    requires |h| == HDRLEN - 4 && packet.data == Packed(h, EncodeAll([]))
    modifies packet
    ensures packet.data == Packed(h, EncodeAll(FirstTrees(req)))
  {
    ghost var ts: seq<Tree> := [];
    var attr := MatchAttr(req.matchSsids, req.rssi5g);
    Put(packet, attr, h, ts, MatchTree(req));
    ts := ts + [MatchTree(req)];
    if req.relativeRssi {
      attr := new NL80211Attr(NL80211_ATTR_SCHED_SCAN_RSSI_ADJUST, [0, (req.rssi2g - req.rssi5g) % 256]);
      Put(packet, attr, h, ts, AdjustTree(req));
      ts := ts + [AdjustTree(req)];
    }
    attr := new NL80211Attr(NL80211_ATTR_IFINDEX, LE(req.ifIndex, 4));
    Put(packet, attr, h, ts, IntLeaf(NL80211_ATTR_IFINDEX, req.ifIndex, 4));
    assert ts + [IntLeaf(NL80211_ATTR_IFINDEX, req.ifIndex, 4)] == FirstTrees(req);
  }

  method PutSsidsAndFreqs(packet: NL80211Packet, req: SchedScan, ghost h: seq<Byte>)
    requires |h| == HDRLEN - 4 && packet.data == Packed(h, EncodeAll(FirstTrees(req)))
    modifies packet
    ensures packet.data == Packed(h, EncodeAll(FirstTrees(req) + MiddleTrees(req)))
  {
    ghost var ts := FirstTrees(req);
    var attr := ByteList(NL80211_ATTR_SCAN_SSIDS, req.scanSsids);
    Put(packet, attr, h, ts, SsidsTree(req));
    ts := ts + [SsidsTree(req)];
    if req.freqs != [] {
      attr := FreqList(NL80211_ATTR_SCAN_FREQUENCIES, req.freqs);
      Put(packet, attr, h, ts, FreqsTree(req));
      ts := ts + [FreqsTree(req)];
    }
    assert ts == FirstTrees(req) + MiddleTrees(req);
  }

  method PutIntervalAndFlags(packet: NL80211Packet, req: SchedScan, ghost h: seq<Byte>)
    requires |h| == HDRLEN - 4 && packet.data == Packed(h, EncodeAll(FirstTrees(req) + MiddleTrees(req)))
    modifies packet
    ensures packet.data == Packed(h, EncodeAll(RequestTrees(req)))
  {
    ghost var ts := FirstTrees(req) + MiddleTrees(req);
    var attr := IntervalAttr(req.setting);
    Put(packet, attr, h, ts, IntervalTree(req.setting));
    ts := ts + [IntervalTree(req.setting)];
    var flags := 0;
    if req.randomMac {
      flags := BitOr(flags, NL80211_SCAN_FLAG_RANDOM_ADDR);
    }
    if req.lowPower {
      flags := BitOr(flags, NL80211_SCAN_FLAG_LOW_POWER);
    }
    FlagsAdd();
    assert flags == ScanFlags(req);
    if flags != 0 {
      attr := new NL80211Attr(NL80211_ATTR_SCAN_FLAGS, LE(flags, 4));
      Put(packet, attr, h, ts, IntLeaf(NL80211_ATTR_SCAN_FLAGS, flags, 4));
      ts := ts + [IntLeaf(NL80211_ATTR_SCAN_FLAGS, flags, 4)];
    }
    assert ts == RequestTrees(req);
  }

  lemma FlagsAdd()
    ensures BitOr(0, NL80211_SCAN_FLAG_RANDOM_ADDR) == NL80211_SCAN_FLAG_RANDOM_ADDR
    ensures BitOr(0, NL80211_SCAN_FLAG_LOW_POWER) == NL80211_SCAN_FLAG_LOW_POWER
    ensures BitOr(NL80211_SCAN_FLAG_RANDOM_ADDR, NL80211_SCAN_FLAG_LOW_POWER)
            == NL80211_SCAN_FLAG_RANDOM_ADDR + NL80211_SCAN_FLAG_LOW_POWER
  {
    assert BitOr(1, 64) == 65 && BitOr(2, 128) == 130 && BitOr(4, 256) == 260;
  }

  lemma {:induction false} FirstMatchIn(ts: seq<Tree>, id: U16, i: nat)
    requires i < |ts| && ts[i].id == id && forall j :: 0 <= j < i ==> ts[j].id != id
    ensures FirstMatch(ts, id) == Some(ts[i])
  {
    if i > 0 {
      FirstMatchIn(ts[1..], id, i - 1);
    }
  }

  lemma {:induction false} NoMatchIn(ts: seq<Tree>, id: U16)
    requires forall j :: 0 <= j < |ts| ==> ts[j].id != id
    ensures FirstMatch(ts, id) == None
  {
    if ts != [] {
      NoMatchIn(ts[1..], id);
    }
  }

  // ----- what fits -----

  /** The three lists of the request fit their length fields. */
  predicate ListsFit(req: SchedScan) {
    && TreeFits(MatchTree(req)) && TreeFits(SsidsTree(req))
    && (req.freqs != [] ==> TreeFits(FreqsTree(req)))
  }

  lemma IntLeafFits(id: U16, value: nat)
    ensures TreeFits(IntLeaf(id, value, 4)) && |Encode(IntLeaf(id, value, 4))| == 8
  {
  }

  lemma PairLength(a: Tree, b: Tree)
    ensures |EncodeAll([a, b])| == |Encode(a)| + |Encode(b)|
  {
    assert [a, b][1..] == [b] && [b][1..] == [];
    assert EncodeAll([b]) == Encode(b) + EncodeAll([b][1..]);
  }

  lemma NestFits(id: U16, kids: seq<Tree>)
    requires AllFit(kids) && |EncodeAll(kids)| <= 100
    ensures TreeFits(Nest(id, kids)) && |Encode(Nest(id, kids))| == 4 + |EncodeAll(kids)|
  {
    var payload := EncodeAll(kids);
    assert Body(Nest(id, kids)) == payload;
    EncLength(id, payload);
  }

  lemma EncLength(id: U16, payload: seq<Byte>)
    requires |payload| % 4 == 0
    ensures |Enc(id, payload)| == 4 + |payload|
  {
    AlignAdd(|payload|, 0);
  }

  lemma PairFits(id: U16, a: Tree, b: Tree)
    requires TreeFits(a) && TreeFits(b) && |Encode(a)| + |Encode(b)| <= 100
    ensures TreeFits(Nest(id, [a, b])) && |Encode(Nest(id, [a, b]))| == 4 + |Encode(a)| + |Encode(b)|
  {
    PairLength(a, b);
    NestFits(id, [a, b]);
  }

  lemma SingleFits(id: U16, a: Tree)
    requires TreeFits(a) && |Encode(a)| <= 100
    ensures TreeFits(Nest(id, [a])) && |Encode(Nest(id, [a]))| == 4 + |Encode(a)|
  {
    assert EncodeAll([a]) == Encode(a) + EncodeAll([a][1..]);
    NestFits(id, [a]);
  }

  /** One plan and the final one always fit, and so does a single interval. */
  lemma IntervalFits(setting: IntervalSetting)
    requires |setting.plans| <= 1
    ensures TreeFits(IntervalTree(setting))
  {
    if setting.plans == [] {
      IntLeafFits(NL80211_ATTR_SCHED_SCAN_INTERVAL, setting.finalIntervalMs);
    } else {
      var plan, last := setting.plans[0], setting.finalIntervalMs / MSEC_PER_SEC;
      IntLeafFits(NL80211_SCHED_SCAN_PLAN_INTERVAL, plan.intervalMs / MSEC_PER_SEC);
      IntLeafFits(NL80211_SCHED_SCAN_PLAN_ITERATIONS, plan.iterations);
      IntLeafFits(NL80211_SCHED_SCAN_PLAN_INTERVAL, last);
      PairFits(1, PlanTree(1, plan).kids[0], PlanTree(1, plan).kids[1]);
      SingleFits(2, LastPlanTree(2, setting.finalIntervalMs).kids[0]);
      PairFits(NL80211_ATTR_SCHED_SCAN_PLANS, PlanTree(1, plan), LastPlanTree(2, setting.finalIntervalMs));
      assert PlanTrees(setting) == [PlanTree(1, plan), LastPlanTree(2, setting.finalIntervalMs)];
    }
  }

  lemma FirstFit(req: SchedScan)
    requires ListsFit(req)
    ensures AllFit(FirstTrees(req)) && AllFit(MiddleTrees(req))
  {
    IntLeafFits(NL80211_ATTR_IFINDEX, req.ifIndex);
    assert TreeFits(AdjustTree(req));
  }

  lemma LastFit(req: SchedScan)
    requires |req.setting.plans| <= 1
    ensures AllFit(LastTrees(req))
  {
    IntervalFits(req.setting);
    IntLeafFits(NL80211_ATTR_SCAN_FLAGS, ScanFlags(req));
  }

  /** Then the whole request fits. */
  lemma RequestFits(req: SchedScan)
    requires ListsFit(req) && |req.setting.plans| <= 1
    ensures AllFit(RequestTrees(req))
  {
    FirstFit(req);
    LastFit(req);
  }

  // ----- what the kernel reads back -----

  /** The sub-attributes of the first attribute with an id. */
  function Listed(buf: seq<Byte>, id: U16): Option<seq<seq<Byte>>> {
    match Find(buf, id)
    case Found(attr) => if |attr| >= NLA_HDRLEN then Children(attr[NLA_HDRLEN..]) else None
    case _ => None
  }

  lemma {:induction false} EncodeEachAt(ts: seq<Tree>, i: nat)
    ensures |EncodeEach(ts)| == |ts|
    ensures i < |ts| ==> EncodeEach(ts)[i] == Encode(ts[i])
  {
    if ts != [] {
      EncodeEachAt(ts[1..], if i > 0 then i - 1 else 0);
    }
  }

  lemma KidsRead(t: Tree)
    requires TreeFits(t) && t.Nest?
    ensures Children(Encode(t)[NLA_HDRLEN..]) == Some(EncodeEach(t.kids))
  {
    AlignedReads(t.id, Body(t));
    WalkEncoded(t.kids, 0);
  }

  lemma ListReads(ts: seq<Tree>, at: nat, i: nat)
    requires AllFit(ts) && at < |ts| && ts[at].Nest? && forall j :: 0 <= j < at ==> ts[j].id != ts[at].id
    ensures var list := Listed(EncodeAll(ts), ts[at].id);
            && list.Some? && |list.value| == |ts[at].kids|
            && (i < |list.value| ==> list.value[i] == Encode(ts[at].kids[i]) && TreeFits(ts[at].kids[i]))
  {
    assert TreeFits(ts[at]);
    WalkEncoded(ts, ts[at].id);
    FirstMatchIn(ts, ts[at].id, at);
    KidsRead(ts[at]);
    EncodeEachAt(ts[at].kids, i);
    if i < |ts[at].kids| {
      KidFits(ts[at].id, ts[at].kids, i);
    }
  }

  /** Each match set carries its SSID and the 5 GHz threshold, in the order of the request. */
  lemma MatchSetsReadBack(req: SchedScan, i: nat)
    requires AllFit(RequestTrees(req))
    ensures var sets := Listed(EncodeAll(RequestTrees(req)), NL80211_ATTR_SCHED_SCAN_MATCH);
            && sets.Some? && |sets.value| == |req.matchSsids|
            && (i < |req.matchSsids| ==>
                  && |sets.value[i]| >= NLA_HDRLEN && NlaType(sets.value[i]) == i % 0x1_0000
                  && GetBytes(sets.value[i], NL80211_SCHED_SCAN_MATCH_ATTR_SSID) == Some(req.matchSsids[i])
                  && GetInt(sets.value[i], NL80211_SCHED_SCAN_MATCH_ATTR_RSSI, 4) == Some(req.rssi5g % 0x1_0000_0000))
  {
    assert RequestTrees(req)[0] == MatchTree(req);
    ListReads(RequestTrees(req), 0, i);
    if i < |req.matchSsids| {
      MatchSetReads(Wrap16(i), req.matchSsids[i], req.rssi5g);
    }
  }

  lemma MatchSetReads(id: U16, ssid: seq<Byte>, rssi: int)
    requires TreeFits(MatchSet(id, ssid, rssi))
    ensures var d := Encode(MatchSet(id, ssid, rssi));
            && NlaType(d) == id
            && GetBytes(d, NL80211_SCHED_SCAN_MATCH_ATTR_SSID) == Some(ssid)
            && GetInt(d, NL80211_SCHED_SCAN_MATCH_ATTR_RSSI, 4) == Some(rssi % 0x1_0000_0000)
  {
    var t := MatchSet(id, ssid, rssi);
    EncReads(id, Body(t));
    assert Pow256(4) == 0x1_0000_0000;
    FirstMatchIn(t.kids, NL80211_SCHED_SCAN_MATCH_ATTR_SSID, 0);
    FirstMatchIn(t.kids, NL80211_SCHED_SCAN_MATCH_ATTR_RSSI, 1);
    BytesRoundTrip(t, NL80211_SCHED_SCAN_MATCH_ATTR_SSID);
    IntRoundTrip(t, NL80211_SCHED_SCAN_MATCH_ATTR_RSSI, rssi % 0x1_0000_0000, 4);
  }

  /** The SSIDs to scan for come back in order. */
  lemma ScanSsidsReadBack(req: SchedScan, i: nat)
    requires AllFit(RequestTrees(req))
    ensures var list := Listed(EncodeAll(RequestTrees(req)), NL80211_ATTR_SCAN_SSIDS);
            && list.Some? && |list.value| == |req.scanSsids|
            && (i < |req.scanSsids| ==>
                  && WellFormed(list.value[i]) && NlaType(list.value[i]) == i % 0x1_0000
                  && PayloadOf(list.value[i]) == req.scanSsids[i])
  {
    var at := |FirstTrees(req)|;
    assert RequestTrees(req)[at] == SsidsTree(req);
    ListReads(RequestTrees(req), at, i);
    if i < |req.scanSsids| {
      EncReads(Wrap16(i), req.scanSsids[i]);
    }
  }

  /** So do the frequencies; when there are none the attribute is absent, which means all of them. */
  lemma FreqsReadBack(req: SchedScan, i: nat)
    requires AllFit(RequestTrees(req))
    ensures var buf := EncodeAll(RequestTrees(req));
            var list := Listed(buf, NL80211_ATTR_SCAN_FREQUENCIES);
            if req.freqs == [] then Find(buf, NL80211_ATTR_SCAN_FREQUENCIES) == Missing
            else
              && list.Some? && |list.value| == |req.freqs|
              && (i < |req.freqs| ==>
                    && IsValidInt(list.value[i], 4) && NlaType(list.value[i]) == i % 0x1_0000
                    && IntValue(list.value[i], 4) == req.freqs[i])
  {
    var ts := RequestTrees(req);
    if req.freqs == [] {
      WalkEncoded(ts, NL80211_ATTR_SCAN_FREQUENCIES);
      NoMatchIn(ts, NL80211_ATTR_SCAN_FREQUENCIES);
    } else {
      var at := |FirstTrees(req)| + 1;
      assert ts[at] == FreqsTree(req);
      ListReads(ts, at, i);
      if i < |req.freqs| {
        FreqReads(Wrap16(i), req.freqs[i]);
      }
    }
  }

  lemma FreqReads(id: U16, freq: U32)
    ensures var d := Encode(IntLeaf(id, freq, 4)); IsValidInt(d, 4) && NlaType(d) == id && IntValue(d, 4) == freq
  {
    assert Pow256(4) == 0x1_0000_0000;
    FromLEofLE(freq, 4);
    EncReads(id, LE(freq, 4));
  }

  /** A 32-bit integer attribute of the request. */
  function ReadInt(buf: seq<Byte>, id: U16): Option<nat> {
    match Find(buf, id)
    case Found(attr) => if IsValidInt(attr, 4) then Some(IntValue(attr, 4)) else None
    case _ => None
  }

  lemma LeafReads(ts: seq<Tree>, at: nat)
    requires AllFit(ts) && at < |ts| && forall j :: 0 <= j < at ==> ts[j].id != ts[at].id
    ensures Find(EncodeAll(ts), ts[at].id) == Found(Encode(ts[at]))
  {
    WalkEncoded(ts, ts[at].id);
    FirstMatchIn(ts, ts[at].id, at);
  }

  /** The request is for its interface. */
  lemma IfIndexReadBack(req: SchedScan)
    requires AllFit(RequestTrees(req))
    ensures ReadInt(EncodeAll(RequestTrees(req)), 3) == Some(req.ifIndex)
  {
    var at := |FirstTrees(req)| - 1;
    assert RequestTrees(req)[at] == IntLeaf(3, req.ifIndex, 4);
    LeafReads(RequestTrees(req), at);
    FreqReads(3, req.ifIndex);
  }

  /** The RSSI adjustment is for band 0 and the difference of the thresholds as one byte; it is there if asked for. */
  lemma AdjustReadBack(req: SchedScan)
    requires AllFit(RequestTrees(req))
    ensures var found := Find(EncodeAll(RequestTrees(req)), 247);
            if req.relativeRssi then
              && found.Found? && WellFormed(found.attr)
              && PayloadOf(found.attr) == [0, (req.rssi2g - req.rssi5g) % 256]
            else found == Missing
  {
    var ts := RequestTrees(req);
    if req.relativeRssi {
      assert ts[1] == AdjustTree(req);
      LeafReads(ts, 1);
      EncReads(247, [0, (req.rssi2g - req.rssi5g) % 256]);
    } else {
      WalkEncoded(ts, 247);
      NoMatchIn(ts, 247);
    }
  }

  /** Bit 3 asks for random addresses, bit 9 for low power; without either there is no flags attribute. */
  lemma FlagsReadBack(req: SchedScan)
    requires AllFit(RequestTrees(req))
    ensures var flags := ReadInt(EncodeAll(RequestTrees(req)), 158);
            if !req.randomMac && !req.lowPower then Find(EncodeAll(RequestTrees(req)), 158) == Missing
            else flags == Some((if req.randomMac then 8 else 0) + (if req.lowPower then 512 else 0))
  {
    var ts := RequestTrees(req);
    if !req.randomMac && !req.lowPower {
      WalkEncoded(ts, 158);
      NoMatchIn(ts, 158);
    } else {
      var at := |ts| - 1;
      assert ts[at] == IntLeaf(158, ScanFlags(req), 4);
      LeafReads(ts, at);
      FreqReads(158, ScanFlags(req));
    }
  }

  /** Without plans the request carries the single interval in milliseconds. */
  lemma IntervalReadBack(req: SchedScan)
    requires AllFit(RequestTrees(req)) && req.setting.plans == []
    ensures ReadInt(EncodeAll(RequestTrees(req)), 119) == Some(req.setting.finalIntervalMs)
  {
    OneIntervalAttribute(req);
    FreqReads(119, req.setting.finalIntervalMs);
  }

  /** A plan attribute with its seconds and its number of iterations, if it has one. */
  predicate ReadsAs(plan: seq<Byte>, seconds: int, iterations: Option<nat>) {
    && |plan| >= NLA_HDRLEN
    && GetInt(plan, NL80211_SCHED_SCAN_PLAN_INTERVAL, 4) == Some(seconds)
    && GetInt(plan, NL80211_SCHED_SCAN_PLAN_ITERATIONS, 4) == iterations
  }

  /** With plans, each carries its seconds and iterations, numbered from 1, and the last one repeats forever. */
  lemma PlansReadBack(req: SchedScan, i: nat)
    requires AllFit(RequestTrees(req)) && req.setting.plans != []
    ensures var list, plans := Listed(EncodeAll(RequestTrees(req)), 225), req.setting.plans;
            && list.Some? && |list.value| == |plans| + 1
            && (i < |plans| ==>
                  && ReadsAs(list.value[i], plans[i].intervalMs / 1000, Some(plans[i].iterations))
                  && NlaType(list.value[i]) == (i + 1) % 0x1_0000)
            && (i == |plans| ==>
                  && ReadsAs(list.value[i], req.setting.finalIntervalMs / 1000, None)
                  && NlaType(list.value[i]) == (i + 1) % 0x1_0000)
  {
    var at := IntervalPosition(req);
    IntervalIsAlone(req);
    ListReads(RequestTrees(req), at, i);
    if i < |req.setting.plans| {
      FastPlanReads(i + 1, req.setting.plans[i]);
    } else if i == |req.setting.plans| {
      LastPlanReads(i + 1, req.setting.finalIntervalMs);
    }
  }

  lemma FastPlanReads(id: nat, plan: ScanPlan)
    requires TreeFits(PlanTree(id, plan))
    ensures var d := Encode(PlanTree(id, plan));
            && NlaType(d) == Wrap16(id)
            && GetInt(d, NL80211_SCHED_SCAN_PLAN_INTERVAL, 4) == Some(plan.intervalMs / MSEC_PER_SEC)
            && GetInt(d, NL80211_SCHED_SCAN_PLAN_ITERATIONS, 4) == Some(plan.iterations)
  {
    var t := PlanTree(id, plan);
    EncReads(t.id, Body(t));
    FirstMatchIn(t.kids, NL80211_SCHED_SCAN_PLAN_INTERVAL, 0);
    FirstMatchIn(t.kids, NL80211_SCHED_SCAN_PLAN_ITERATIONS, 1);
    assert Pow256(4) == 0x1_0000_0000;
    IntRoundTrip(t, NL80211_SCHED_SCAN_PLAN_INTERVAL, plan.intervalMs / MSEC_PER_SEC, 4);
    IntRoundTrip(t, NL80211_SCHED_SCAN_PLAN_ITERATIONS, plan.iterations, 4);
  }

  lemma LastPlanReads(id: nat, ms: U32)
    requires TreeFits(LastPlanTree(id, ms))
    ensures var d := Encode(LastPlanTree(id, ms));
            && NlaType(d) == Wrap16(id)
            && GetInt(d, NL80211_SCHED_SCAN_PLAN_INTERVAL, 4) == Some(ms / MSEC_PER_SEC)
            && GetInt(d, NL80211_SCHED_SCAN_PLAN_ITERATIONS, 4) == None
  {
    var t := LastPlanTree(id, ms);
    EncReads(t.id, Body(t));
    FirstMatchIn(t.kids, NL80211_SCHED_SCAN_PLAN_INTERVAL, 0);
    NoMatchIn(t.kids, NL80211_SCHED_SCAN_PLAN_ITERATIONS);
    assert Pow256(4) == 0x1_0000_0000;
    IntRoundTrip(t, NL80211_SCHED_SCAN_PLAN_INTERVAL, ms / MSEC_PER_SEC, 4);
    GetIntEncoded(t, NL80211_SCHED_SCAN_PLAN_ITERATIONS, 4);
  }

  /** The message is an acknowledged START_SCHED_SCAN request of the family. */
  lemma HeaderReadBack(req: SchedScan, family: U16, sequence: U32, pid: U32)
    requires 20 + |EncodeAll(RequestTrees(req))| < 0x1_0000_0000
    ensures var d := Packed(SchedScanHeader(family, sequence, pid), EncodeAll(RequestTrees(req)));
            && IsValidPacket(d) && MsgLen(d) == |d| && MsgType(d) == family && Flags(d) == 5 && Command(d) == 75
            && MsgSeq(d) == sequence && PortId(d) == pid
  {
    RequestReads(family, 5, 75, sequence, pid, EncodeAll(RequestTrees(req)));
  }

  /** The request carries its interval exactly once: as plans, or as a single interval, never both. */
  lemma OneIntervalAttribute(req: SchedScan)
    requires AllFit(RequestTrees(req))
    ensures var buf := EncodeAll(RequestTrees(req));
            && Find(buf, NL80211_ATTR_SCHED_SCAN_PLANS)
               == (if req.setting.plans != [] then Found(Encode(IntervalTree(req.setting))) else Missing)
            && Find(buf, NL80211_ATTR_SCHED_SCAN_INTERVAL)
               == (if req.setting.plans == [] then Found(Encode(IntervalTree(req.setting))) else Missing)
  {
    var ts := RequestTrees(req);
    var at := IntervalPosition(req);
    IntervalIsAlone(req);
    var present := ts[at].id;
    var absent := if req.setting.plans != [] then NL80211_ATTR_SCHED_SCAN_INTERVAL else NL80211_ATTR_SCHED_SCAN_PLANS;
    WalkEncoded(ts, present);
    FirstMatchIn(ts, present, at);
    WalkEncoded(ts, absent);
    NoMatchIn(ts, absent);
  }

  function IntervalPosition(req: SchedScan): nat {
    (if req.relativeRssi then 4 else 3) + if req.freqs != [] then 1 else 0
  }

  predicate IsIntervalId(id: U16) {
    id == NL80211_ATTR_SCHED_SCAN_PLANS || id == NL80211_ATTR_SCHED_SCAN_INTERVAL
  }

  lemma IntervalIsAlone(req: SchedScan)
    ensures var ts, at := RequestTrees(req), IntervalPosition(req);
            && at < |ts| && ts[at] == IntervalTree(req.setting) && IsIntervalId(ts[at].id)
            && forall j :: 0 <= j < |ts| && j != at ==> !IsIntervalId(ts[j].id)
  {
  }
}
