/**
 * The scanner (scanning/scanner_impl.cpp): scan-plan arithmetic, construction of the PNO request within the device's
 * limits, and the scan/PNO state machine with its ENODEV abort.
 */
module Scanner {
  import opened Bytes
  import opened Attribute
  import opened Bands
  import opened ScanUtils

  datatype ScanCapabilities = ScanCapabilities(
    maxNumScanSsids: Byte, maxNumSchedScanSsids: Byte, maxMatchSets: Byte,
    maxNumScanPlans: U32, maxScanPlanInterval: U32, maxScanPlanIterations: U32)

  // ----- scan plans -----

  function Wrap32(x: int): U32 {
    x % 0x1_0000_0000
  }

  predicate FitsInt64(x: int) {
    -0x8000_0000_0000_0000 <= x < 0x8000_0000_0000_0000
  }

  /**
   * The limit in milliseconds is a 32-bit product and may wrap; the requested interval times the multiplier is a
   * 64-bit product and must not overflow.
   */
  function GenerateIntervalSetting(caps: ScanCapabilities, interval: int, multiplier: U32, iterations: U32)
    : IntervalSetting
    requires FitsInt64(interval) && FitsInt64(interval * multiplier)
  {
    var fast := Wrap32(interval);
    if caps.maxNumScanPlans >= 2
       && Wrap32(caps.maxScanPlanInterval * 1000) as int >= interval * multiplier
       && caps.maxScanPlanIterations >= iterations
    then IntervalSetting([ScanPlan(fast, iterations)], Wrap32(fast as int * multiplier))
    else IntervalSetting([], fast)
  }

  lemma ProductBound(interval: int, multiplier: nat)
    requires interval >= 0 && multiplier >= 1
    ensures 0 <= interval <= interval * multiplier
  {
    assert interval * multiplier == interval + interval * (multiplier - 1);
  }

  /** Both intervals are what was asked for, and within the device's limit in seconds. */
  predicate PlansSound(caps: ScanCapabilities, interval: int, multiplier: U32, setting: IntervalSetting) {
    && |setting.plans| == 1
    && setting.plans[0].intervalMs == interval
    && setting.finalIntervalMs == interval * multiplier
    && setting.plans[0].intervalMs / MSEC_PER_SEC <= caps.maxScanPlanInterval
    && setting.finalIntervalMs / MSEC_PER_SEC <= caps.maxScanPlanInterval
  }

  /**
   * Whenever plans are chosen with a multiplier of at least 1 they are sound exactly when the interval is not negative.
   * A multiplier of 0 makes the choice blind to the interval, which then has to be within the limit by itself.
   */
  lemma PlansSoundIff(caps: ScanCapabilities, interval: int, multiplier: U32, iterations: U32)
    requires FitsInt64(interval) && FitsInt64(interval * multiplier)
    requires GenerateIntervalSetting(caps, interval, multiplier, iterations).plans != []
    ensures var setting := GenerateIntervalSetting(caps, interval, multiplier, iterations);
            && (multiplier >= 1 ==> (PlansSound(caps, interval, multiplier, setting) <==> interval >= 0))
            && (multiplier == 0 ==>
                  (PlansSound(caps, interval, multiplier, setting) <==>
                   0 <= interval < 0x1_0000_0000 && interval / MSEC_PER_SEC <= caps.maxScanPlanInterval))
            && |PlanTrees(setting)| <= caps.maxNumScanPlans
            && setting.plans[0].iterations == iterations <= caps.maxScanPlanIterations
  {
    var product := interval * multiplier;
    if interval >= 0 && multiplier >= 1 {
      ProductBound(interval, multiplier);
      WithinLimit(caps.maxScanPlanInterval, interval, product);
    } else if interval >= 0 {
      assert product == 0;
    }
  }

  /** Plans are chosen exactly when the device allows two, its wrapped limit covers the product, and iterations fit. */
  lemma PlansChosenIff(caps: ScanCapabilities, interval: int, multiplier: U32, iterations: U32)
    requires FitsInt64(interval) && FitsInt64(interval * multiplier)
    ensures var setting := GenerateIntervalSetting(caps, interval, multiplier, iterations);
            var fast := interval % 0x1_0000_0000;
            if && caps.maxNumScanPlans >= 2 && caps.maxScanPlanIterations >= iterations
               && caps.maxScanPlanInterval * 1000 % 0x1_0000_0000 >= interval * multiplier
            then
              && setting.plans == [ScanPlan(fast, iterations)]
              && setting.finalIntervalMs == fast * multiplier % 0x1_0000_0000
            else setting.plans == [] && setting.finalIntervalMs == fast
  {
  }

  lemma WithinLimit(m: U32, interval: int, product: int)
    requires 0 <= interval <= product <= Wrap32(m * 1000)
    ensures interval / MSEC_PER_SEC <= m && product / MSEC_PER_SEC <= m
    ensures Wrap32(interval) == interval && Wrap32(product) == product && interval < 0x1_0000_0000
  {
    assert Wrap32(m * 1000) <= m * 1000;
  }

  /** A multiplier of 0 defeats the check: an hour-long interval passes for a device limited to one second. */
  lemma ZeroMultiplierUnsound()
    ensures var caps := ScanCapabilities(1, 1, 1, 2, 1, 10);
            var setting := GenerateIntervalSetting(caps, 3_600_000, 0, 3);
            setting.plans != [] && setting.plans[0].intervalMs / MSEC_PER_SEC == 3600 > caps.maxScanPlanInterval
  {
  }

  /** What the kernel reads back from the plan attribute of the request. */
  lemma EmittedPlans(req: SchedScan, caps: ScanCapabilities, interval: int, multiplier: U32, iterations: U32)
    requires interval >= 0 && multiplier >= 1 && FitsInt64(interval) && FitsInt64(interval * multiplier)
    requires req.setting == GenerateIntervalSetting(caps, interval, multiplier, iterations) && req.setting.plans != []
    requires ListsFit(req)
    ensures var plans := Listed(EncodeAll(RequestTrees(req)), NL80211_ATTR_SCHED_SCAN_PLANS);
            && plans.Some? && |plans.value| == 2
            && ReadsAs(plans.value[0], interval / MSEC_PER_SEC, Some(iterations))
            && ReadsAs(plans.value[1], interval * multiplier / MSEC_PER_SEC, None)
    ensures interval / MSEC_PER_SEC <= caps.maxScanPlanInterval
    ensures interval * multiplier / MSEC_PER_SEC <= caps.maxScanPlanInterval
  {
    PlansSoundIff(caps, interval, multiplier, iterations);
    RequestFits(req);
    PlansReadBack(req, 0);
    PlansReadBack(req, 1);
  }

  // ----- the PNO request -----

  type I32 = x: int | -0x8000_0000 <= x < 0x8000_0000

  datatype PnoNetwork = PnoNetwork(hidden: bool, ssid: seq<Byte>, freqs: seq<I32>)

  const DEFAULT_FREQS_2G: seq<I32> := [2412, 2417, 2422, 2427, 2432, 2437, 2447, 2452, 2457, 2462]
  const DEFAULT_FREQS_5G: seq<I32> := [5180, 5200, 5220, 5240, 5745, 5765, 5785, 5805]
  const PERCENT_NETWORKS_WITH_FREQ := 30

  function Take<T>(s: seq<T>, k: nat): seq<T> {
    if k < |s| then s[..k] else s
  }

  function Drop<T>(s: seq<T>, k: nat): seq<T> {
    if k < |s| then s[k..] else []
  }

  function Room(limit: nat, used: nat): nat {
    if used < limit then limit - used else 0
  }

  function HiddenOnes(nets: seq<PnoNetwork>): seq<PnoNetwork> {
    if nets == [] then [] else (if nets[0].hidden then [nets[0]] else []) + HiddenOnes(nets[1..])
  }

  /** The networks left for matching when only the first `room` hidden ones can be scanned for by name. */
  function Candidates(nets: seq<PnoNetwork>, room: nat): seq<PnoNetwork>
    decreases |nets|
  {
    if nets == [] then []
    else if nets[0].hidden && room == 0 then Candidates(nets[1..], room)
    else [nets[0]] + Candidates(nets[1..], if nets[0].hidden then room - 1 else room)
  }

  function Ssids(nets: seq<PnoNetwork>): (r: seq<seq<Byte>>)
    ensures |r| == |nets| && forall i :: 0 <= i < |nets| ==> r[i] == nets[i].ssid
  {
    seq(|nets|, i requires 0 <= i < |nets| => nets[i].ssid)
  }

  function ListedFreqs(nets: seq<PnoNetwork>): set<int> {
    if nets == [] then {} else (set f | f in nets[0].freqs) + ListedFreqs(nets[1..])
  }

  function CountWithoutFreqs(nets: seq<PnoNetwork>): nat {
    if nets == [] then 0 else (if nets[0].freqs == [] then 1 else 0) + CountWithoutFreqs(nets[1..])
  }

  function ChipFreqs(info: BandInfo): set<int> {
    (set f | f in info.band2g) + (set f | f in info.band5g) + (set f | f in info.bandDfs) +
    (set f | f in info.band6g) + (set f | f in info.band60g)
  }

  function DefaultFreqs(info: BandInfo): set<int> {
    (set f | f in DEFAULT_FREQS_2G && f in info.band2g) + (set f | f in DEFAULT_FREQS_5G && f in info.band5g)
  }

  datatype PnoRequest = PnoRequest(
    scanSsids: seq<seq<Byte>>, matchSsids: seq<seq<Byte>>, freqs: seq<int>,
    skippedScan: seq<seq<Byte>>, skippedMatch: seq<seq<Byte>>)

  /** The frequencies to scan for the accepted networks. */
  function FreqsFor(accepted: seq<PnoNetwork>, info: BandInfo): set<int> {
    ListedFreqs(accepted) * ChipFreqs(info) +
    if CountWithoutFreqs(accepted) * 100 > PERCENT_NETWORKS_WITH_FREQ * |accepted| then DefaultFreqs(info) else {}
  }

  /**
   * The request in closed form: the wildcard and the first hidden networks that fit are scanned for; of the networks
   * that remain the first that fit are matched; the frequencies are those of the matched networks that the chip
   * supports, with the defaults when too many matched networks list none.
   */
  function PnoRequestFor(caps: ScanCapabilities, nets: seq<PnoNetwork>, info: BandInfo): PnoRequest {
    var room := Room(caps.maxNumSchedScanSsids, 1);
    var candidates := Candidates(nets, room);
    var accepted := Take(candidates, caps.maxMatchSets);
    PnoRequest([[]] + Ssids(Take(HiddenOnes(nets), room)), Ssids(accepted), Ascending(FreqsFor(accepted, info)),
               Ssids(Drop(HiddenOnes(nets), room)), Ssids(Drop(candidates, caps.maxMatchSets)))
  }

  lemma PnoWithinLimits(caps: ScanCapabilities, nets: seq<PnoNetwork>, info: BandInfo)
    ensures var r := PnoRequestFor(caps, nets, info);
            && |r.scanSsids| <= (if caps.maxNumSchedScanSsids > 1 then caps.maxNumSchedScanSsids else 1)
            && |r.matchSsids| <= caps.maxMatchSets
            && StrictlyAscending(r.freqs)
            && (forall f :: f in r.freqs ==> f in ChipFreqs(info))
  {
  }

  lemma DropNone<T>(s: seq<T>)
    ensures Drop(s, 0) == s && Take(s, 0) == []
  {
  }

  /** Networks are matched in the order of the request. */
  lemma {:induction false} CandidatesInOrder(nets: seq<PnoNetwork>, room: nat)
    ensures IsSubsequence(Candidates(nets, room), nets)
    decreases |nets|
  {
    if nets != [] {
      if nets[0].hidden && room == 0 {
        CandidatesInOrder(nets[1..], room);
      } else {
        var room' := if nets[0].hidden then room - 1 else room;
        CandidatesInOrder(nets[1..], room');
        assert Candidates(nets, room)[1..] == Candidates(nets[1..], room');
      }
    }
  }

  lemma CutParts<T>(s: seq<T>, k: nat)
    ensures Take(s, k) + Drop(s, k) == s
    ensures multiset(s) == multiset(Take(s, k)) + multiset(Drop(s, k))
  {
    assert Take(s, k) + Drop(s, k) == s;
  }

  // ----- what becomes of each network, by its position -----

  /** A network is matched, or there are enough matches, or it is hidden and cannot be scanned for. */
  datatype Fate = Matched | CrowdedOut | Unscannable

  function HiddenBefore(nets: seq<PnoNetwork>, i: nat): nat
    requires i <= |nets|
  {
    if i == 0 then 0 else HiddenBefore(nets, i - 1) + if nets[i - 1].hidden then 1 else 0
  }

  /** The wildcard and the hidden networks before it have used up the device's scan SSIDs. */
  predicate IsUnscannable(caps: ScanCapabilities, nets: seq<PnoNetwork>, i: nat)
    requires i < |nets|
  {
    nets[i].hidden && 2 + HiddenBefore(nets, i) > caps.maxNumSchedScanSsids
  }

  function ScannableBefore(caps: ScanCapabilities, nets: seq<PnoNetwork>, i: nat): nat
    requires i <= |nets|
  {
    if i == 0 then 0 else ScannableBefore(caps, nets, i - 1) + if IsUnscannable(caps, nets, i - 1) then 0 else 1
  }

  function FateOf(caps: ScanCapabilities, nets: seq<PnoNetwork>, i: nat): Fate
    requires i < |nets|
  {
    if IsUnscannable(caps, nets, i) then Unscannable
    else if ScannableBefore(caps, nets, i) < caps.maxMatchSets then Matched else CrowdedOut
  }

  /** The networks with a fate among the first k, in order. */
  function WithFate(caps: ScanCapabilities, nets: seq<PnoNetwork>, k: nat, fate: Fate): seq<PnoNetwork>
    requires k <= |nets|
  {
    if k == 0 then []
    else WithFate(caps, nets, k - 1, fate) + if FateOf(caps, nets, k - 1) == fate then [nets[k - 1]] else []
  }

  /** The hidden networks among the first k that are scanned for. */
  function ScannedFor(caps: ScanCapabilities, nets: seq<PnoNetwork>, k: nat): seq<PnoNetwork>
    requires k <= |nets|
  {
    if k == 0 then []
    else ScannedFor(caps, nets, k - 1) +
         if nets[k - 1].hidden && !IsUnscannable(caps, nets, k - 1) then [nets[k - 1]] else []
  }

  lemma {:induction false} HiddenSnoc(a: seq<PnoNetwork>, n: PnoNetwork)
    ensures HiddenOnes(a + [n]) == HiddenOnes(a) + if n.hidden then [n] else []
  {
    if a == [] {
      assert a + [n] == [n] && [n][1..] == [];
    } else {
      assert (a + [n])[0] == a[0] && (a + [n])[1..] == a[1..] + [n];
      HiddenSnoc(a[1..], n);
      ConcatAssoc(if a[0].hidden then [a[0]] else [], HiddenOnes(a[1..]), if n.hidden then [n] else []);
    }
  }

  lemma {:induction false} CandidatesSnoc(a: seq<PnoNetwork>, n: PnoNetwork, room: nat)
    ensures Candidates(a + [n], room)
            == Candidates(a, room) + if n.hidden && |HiddenOnes(a)| >= room then [] else [n]
    decreases |a|
  {
    if a == [] {
      assert a + [n] == [n] && [n][1..] == [];
    } else {
      assert (a + [n])[0] == a[0] && (a + [n])[1..] == a[1..] + [n];
      var last := if n.hidden && |HiddenOnes(a)| >= room then [] else [n];
      if a[0].hidden && room == 0 {
        CandidatesSnoc(a[1..], n, room);
      } else {
        var room' := if a[0].hidden then room - 1 else room;
        CandidatesSnoc(a[1..], n, room');
        ConcatAssoc([a[0]], Candidates(a[1..], room'), last);
      }
    }
  }

  lemma CutSnoc<T>(s: seq<T>, x: T, k: nat)
    ensures Take(s + [x], k) == Take(s, k) + if |s| < k then [x] else []
    ensures Drop(s + [x], k) == Drop(s, k) + if |s| < k then [] else [x]
  {
  }

  lemma {:induction false} CountsAre(caps: ScanCapabilities, nets: seq<PnoNetwork>, k: nat, room: nat)
    requires k <= |nets| && room == Room(caps.maxNumSchedScanSsids, 1)
    ensures HiddenBefore(nets, k) == |HiddenOnes(nets[..k])|
    ensures ScannableBefore(caps, nets, k) == |Candidates(nets[..k], room)|
  {
    if k > 0 {
      CountsAre(caps, nets, k - 1, room);
      PrefixSnoc(nets, k - 1);
      HiddenSnoc(nets[..k - 1], nets[k - 1]);
      CandidatesSnoc(nets[..k - 1], nets[k - 1], room);
    }
  }

  lemma {:induction false} MatchedAre(caps: ScanCapabilities, nets: seq<PnoNetwork>, k: nat, room: nat)
    requires k <= |nets| && room == Room(caps.maxNumSchedScanSsids, 1)
    ensures WithFate(caps, nets, k, Matched) == Take(Candidates(nets[..k], room), caps.maxMatchSets)
  {
    if k > 0 {
      var front, n := nets[..k - 1], nets[k - 1];
      MatchedAre(caps, nets, k - 1, room);
      CountsAre(caps, nets, k - 1, room);
      PrefixSnoc(nets, k - 1);
      CandidatesSnoc(front, n, room);
      CutSnoc(Candidates(front, room), n, caps.maxMatchSets);
    }
  }

  lemma {:induction false} CrowdedOutAre(caps: ScanCapabilities, nets: seq<PnoNetwork>, k: nat, room: nat)
    requires k <= |nets| && room == Room(caps.maxNumSchedScanSsids, 1)
    ensures WithFate(caps, nets, k, CrowdedOut) == Drop(Candidates(nets[..k], room), caps.maxMatchSets)
  {
    if k > 0 {
      var front, n := nets[..k - 1], nets[k - 1];
      CrowdedOutAre(caps, nets, k - 1, room);
      CountsAre(caps, nets, k - 1, room);
      PrefixSnoc(nets, k - 1);
      CandidatesSnoc(front, n, room);
      CutSnoc(Candidates(front, room), n, caps.maxMatchSets);
    }
  }

  lemma {:induction false} UnscannableAre(caps: ScanCapabilities, nets: seq<PnoNetwork>, k: nat, room: nat)
    requires k <= |nets| && room == Room(caps.maxNumSchedScanSsids, 1)
    ensures WithFate(caps, nets, k, Unscannable) == Drop(HiddenOnes(nets[..k]), room)
  {
    if k > 0 {
      var front, n := nets[..k - 1], nets[k - 1];
      UnscannableAre(caps, nets, k - 1, room);
      CountsAre(caps, nets, k - 1, room);
      PrefixSnoc(nets, k - 1);
      HiddenSnoc(front, n);
      CutSnoc(HiddenOnes(front), n, room);
    }
  }

  lemma {:induction false} ScannedAre(caps: ScanCapabilities, nets: seq<PnoNetwork>, k: nat, room: nat)
    requires k <= |nets| && room == Room(caps.maxNumSchedScanSsids, 1)
    ensures ScannedFor(caps, nets, k) == Take(HiddenOnes(nets[..k]), room)
  {
    if k > 0 {
      var front, n := nets[..k - 1], nets[k - 1];
      ScannedAre(caps, nets, k - 1, room);
      CountsAre(caps, nets, k - 1, room);
      PrefixSnoc(nets, k - 1);
      HiddenSnoc(front, n);
      CutSnoc(HiddenOnes(front), n, room);
    }
  }

  lemma {:induction false} FateMembers(caps: ScanCapabilities, nets: seq<PnoNetwork>, k: nat, fate: Fate, n: PnoNetwork)
    requires k <= |nets|
    ensures n in WithFate(caps, nets, k, fate) <==>
            exists i :: 0 <= i < k && FateOf(caps, nets, i) == fate && nets[i] == n
  {
    if k > 0 {
      FateMembers(caps, nets, k - 1, fate, n);
    }
  }

  lemma {:induction false} ListedMeans(ns: seq<PnoNetwork>, f: int)
    ensures f in ListedFreqs(ns) <==> exists n :: n in ns && f in n.freqs
  {
    if ns != [] {
      ListedMeans(ns[1..], f);
      assert ns == [ns[0]] + ns[1..];
    }
  }

  /** The positions of the networks that list no frequency. */
  function Silent(ns: seq<PnoNetwork>): set<int> {
    set i | 0 <= i < |ns| && ns[i].freqs == []
  }

  lemma SilentSnoc(a: seq<PnoNetwork>, n: PnoNetwork)
    ensures |Silent(a + [n])| == |Silent(a)| + if n.freqs == [] then 1 else 0
  {
    assert Silent(a + [n]) == Silent(a) + if n.freqs == [] then {|a|} else {};
  }

  lemma {:induction false} SilentCounts(ns: seq<PnoNetwork>)
    ensures |Silent(ns)| == CountWithoutFreqs(ns)
  {
    if ns != [] {
      var a, n := ns[..|ns| - 1], ns[|ns| - 1];
      assert ns == a + [n];
      SilentCounts(a);
      ListedAppend(a, n);
      SilentSnoc(a, n);
    }
  }

  predicate OnChip(info: BandInfo, f: int) {
    f in info.band2g || f in info.band5g || f in info.bandDfs || f in info.band6g || f in info.band60g
  }

  predicate IsDefault(info: BandInfo, f: int) {
    || (f in info.band2g && f in [2412, 2417, 2422, 2427, 2432, 2437, 2447, 2452, 2457, 2462])
    || (f in info.band5g && f in [5180, 5200, 5220, 5240, 5745, 5765, 5785, 5805])
  }

  /**
   * The request said network by network: which SSIDs are scanned for, matched and skipped, and which frequencies are
   * scanned: those on the chip that a matched network lists, and the defaults when over 30% of the matched list none.
   */
  ghost predicate Meets(caps: ScanCapabilities, nets: seq<PnoNetwork>, info: BandInfo, r: PnoRequest) {
    var matched := WithFate(caps, nets, |nets|, Matched);
    && r.scanSsids == [[]] + Ssids(ScannedFor(caps, nets, |nets|))
    && r.matchSsids == Ssids(matched)
    && r.skippedMatch == Ssids(WithFate(caps, nets, |nets|, CrowdedOut))
    && r.skippedScan == Ssids(WithFate(caps, nets, |nets|, Unscannable))
    && StrictlyAscending(r.freqs)
    && forall f :: f in r.freqs <==>
         || (OnChip(info, f) && exists i :: 0 <= i < |nets| && FateOf(caps, nets, i) == Matched && f in nets[i].freqs)
         || (|Silent(matched)| * 100 > 30 * |matched| && IsDefault(info, f))
  }

  lemma MatchedFreqs(caps: ScanCapabilities, nets: seq<PnoNetwork>, matched: seq<PnoNetwork>, f: int)
    requires matched == WithFate(caps, nets, |nets|, Matched)
    ensures f in ListedFreqs(matched) <==>
            exists i :: 0 <= i < |nets| && FateOf(caps, nets, i) == Matched && f in nets[i].freqs
  {
    ListedMeans(matched, f);
    if n :| n in matched && f in n.freqs {
      FateMembers(caps, nets, |nets|, Matched, n);
    }
    if i :| 0 <= i < |nets| && FateOf(caps, nets, i) == Matched && f in nets[i].freqs {
      FateMembers(caps, nets, |nets|, Matched, nets[i]);
    }
  }

  lemma ChipMeans(info: BandInfo, f: int)
    ensures f in ChipFreqs(info) <==> OnChip(info, f)
    ensures f in DefaultFreqs(info) <==> IsDefault(info, f)
  {
  }

  /** The closed form meets this description. */
  lemma RequestMeets(caps: ScanCapabilities, nets: seq<PnoNetwork>, info: BandInfo)
    ensures Meets(caps, nets, info, PnoRequestFor(caps, nets, info))
  {
    var matched := WithFate(caps, nets, |nets|, Matched);
    var room := Room(caps.maxNumSchedScanSsids, 1);
    assert nets[..|nets|] == nets;
    MatchedAre(caps, nets, |nets|, room);
    CrowdedOutAre(caps, nets, |nets|, room);
    UnscannableAre(caps, nets, |nets|, room);
    ScannedAre(caps, nets, |nets|, room);
    SilentCounts(matched);
    var r := PnoRequestFor(caps, nets, info);
    assert forall f :: f in r.freqs <==> f in FreqsFor(matched, info);
    forall f ensures f in r.freqs <==>
        || (OnChip(info, f) && exists i :: 0 <= i < |nets| && FateOf(caps, nets, i) == Matched && f in nets[i].freqs)
        || (|Silent(matched)| * 100 > 30 * |matched| && IsDefault(info, f))
    {
      MatchedFreqs(caps, nets, matched, f);
      ChipMeans(info, f);
    }
  }

  function AllFates(caps: ScanCapabilities, nets: seq<PnoNetwork>, k: nat): multiset<PnoNetwork>
    requires k <= |nets|
  {
    multiset(WithFate(caps, nets, k, Matched)) + multiset(WithFate(caps, nets, k, CrowdedOut)) +
    multiset(WithFate(caps, nets, k, Unscannable))
  }

  lemma AllFatesStep(caps: ScanCapabilities, nets: seq<PnoNetwork>, k: nat)
    requires 0 < k <= |nets|
    ensures AllFates(caps, nets, k) == AllFates(caps, nets, k - 1) + multiset{nets[k - 1]}
  {
    FateGrows(caps, nets, k, Matched);
    FateGrows(caps, nets, k, CrowdedOut);
    FateGrows(caps, nets, k, Unscannable);
  }

  lemma PrefixBag<T>(s: seq<T>, k: nat)
    requires 0 < k <= |s|
    ensures multiset(s[..k]) == multiset(s[..k - 1]) + multiset{s[k - 1]}
  {
    PrefixSnoc(s, k - 1);
  }

  /** Every network has one fate, so the three lists together hold each network once. */
  lemma {:induction false} FatesPartition(caps: ScanCapabilities, nets: seq<PnoNetwork>, k: nat)
    requires k <= |nets|
    ensures multiset(nets[..k]) == AllFates(caps, nets, k)
  {
    if k > 0 {
      FatesPartition(caps, nets, k - 1);
      AllFatesStep(caps, nets, k);
      PrefixBag(nets, k);
    }
  }

  lemma FateGrows(caps: ScanCapabilities, nets: seq<PnoNetwork>, k: nat, fate: Fate)
    requires 0 < k <= |nets|
    ensures multiset(WithFate(caps, nets, k, fate)) == multiset(WithFate(caps, nets, k - 1, fate)) +
            if FateOf(caps, nets, k - 1) == fate then multiset{nets[k - 1]} else multiset{}
  {
    assert multiset([nets[k - 1]]) == multiset{nets[k - 1]};
  }

  lemma SsidsSnoc(a: seq<PnoNetwork>, n: PnoNetwork)
    ensures Ssids(a + [n]) == Ssids(a) + [n.ssid]
  {
  }

  function AllFateSsids(caps: ScanCapabilities, nets: seq<PnoNetwork>, k: nat): multiset<seq<Byte>>
    requires k <= |nets|
  {
    multiset(Ssids(WithFate(caps, nets, k, Matched))) + multiset(Ssids(WithFate(caps, nets, k, CrowdedOut))) +
    multiset(Ssids(WithFate(caps, nets, k, Unscannable)))
  }

  lemma FateSsidsGrow(caps: ScanCapabilities, nets: seq<PnoNetwork>, k: nat, fate: Fate)
    requires 0 < k <= |nets|
    ensures multiset(Ssids(WithFate(caps, nets, k, fate))) == multiset(Ssids(WithFate(caps, nets, k - 1, fate))) +
            if FateOf(caps, nets, k - 1) == fate then multiset{nets[k - 1].ssid} else multiset{}
  {
    var before, n := WithFate(caps, nets, k - 1, fate), nets[k - 1];
    SsidsSnoc(before, n);
    assert before + [] == before;
    assert multiset([n.ssid]) == multiset{n.ssid};
  }

  lemma AllFateSsidsStep(caps: ScanCapabilities, nets: seq<PnoNetwork>, k: nat)
    requires 0 < k <= |nets|
    ensures AllFateSsids(caps, nets, k) == AllFateSsids(caps, nets, k - 1) + multiset{nets[k - 1].ssid}
  {
    FateSsidsGrow(caps, nets, k, Matched);
    FateSsidsGrow(caps, nets, k, CrowdedOut);
    FateSsidsGrow(caps, nets, k, Unscannable);
  }

  lemma {:induction false} SsidsPartition(caps: ScanCapabilities, nets: seq<PnoNetwork>, k: nat)
    requires k <= |nets|
    ensures multiset(Ssids(nets)[..k]) == AllFateSsids(caps, nets, k)
  {
    if k > 0 {
      SsidsPartition(caps, nets, k - 1);
      AllFateSsidsStep(caps, nets, k);
      PrefixBag(Ssids(nets), k);
    }
  }

  lemma {:induction false} SubsequenceSsids(a: seq<PnoNetwork>, b: seq<PnoNetwork>)
    requires IsSubsequence(a, b)
    ensures IsSubsequence(Ssids(a), Ssids(b))
    decreases |b|
  {
    if a != [] {
      assert Ssids(b)[1..] == Ssids(b[1..]);
      if a[0] == b[0] && IsSubsequence(a[1..], b[1..]) {
        SubsequenceSsids(a[1..], b[1..]);
        assert Ssids(a)[1..] == Ssids(a[1..]);
      } else {
        SubsequenceSsids(a, b[1..]);
      }
    }
  }

  lemma MatchesInOrder(caps: ScanCapabilities, nets: seq<PnoNetwork>)
    ensures var matched, crowded := WithFate(caps, nets, |nets|, Matched), WithFate(caps, nets, |nets|, CrowdedOut);
            && IsSubsequence(Ssids(matched) + Ssids(crowded), Ssids(nets))
            && |matched| == Min(caps.maxMatchSets, |matched| + |crowded|)
  {
    var room := Room(caps.maxNumSchedScanSsids, 1);
    var candidates := Candidates(nets, room);
    assert nets[..|nets|] == nets;
    MatchedAre(caps, nets, |nets|, room);
    CrowdedOutAre(caps, nets, |nets|, room);
    CandidatesInOrder(nets, room);
    CutInOrder(candidates, caps.maxMatchSets, nets);
  }

  lemma CutInOrder(s: seq<PnoNetwork>, k: nat, nets: seq<PnoNetwork>)
    requires IsSubsequence(s, nets)
    ensures IsSubsequence(Ssids(Take(s, k)) + Ssids(Drop(s, k)), Ssids(nets))
    ensures |Take(s, k)| == Min(k, |Take(s, k)| + |Drop(s, k)|)
  {
    CutParts(s, k);
    SsidsAppend(Take(s, k), Drop(s, k));
    SubsequenceSsids(s, nets);
  }

  lemma SsidsAppend(a: seq<PnoNetwork>, b: seq<PnoNetwork>)
    ensures Ssids(a + b) == Ssids(a) + Ssids(b)
  {
  }

  /** No SSID is lost or doubled, the order is that of the request, and matches are cut only at the device's limit. */
  lemma RequestAccounts(caps: ScanCapabilities, nets: seq<PnoNetwork>, info: BandInfo, r: PnoRequest)
    requires Meets(caps, nets, info, r)
    ensures multiset(Ssids(nets)) == multiset(r.matchSsids) + multiset(r.skippedMatch) + multiset(r.skippedScan)
    ensures IsSubsequence(r.matchSsids + r.skippedMatch, Ssids(nets))
    ensures |r.matchSsids| == Min(caps.maxMatchSets, |r.matchSsids| + |r.skippedMatch|)
  {
    assert Ssids(nets)[..|nets|] == Ssids(nets);
    SsidsPartition(caps, nets, |nets|);
    MatchesInOrder(caps, nets);
  }

  function Min(a: nat, b: nat): nat {
    if a < b then a else b
  }

  // ----- the parsing loop -----

  lemma TakeStep<T>(x: T, s: seq<T>, k: nat)
    ensures Take([x] + s, k) == if k == 0 then [] else [x] + Take(s, k - 1)
    ensures Drop([x] + s, k) == if k == 0 then [x] + s else Drop(s, k - 1)
  {
  }

  /** The frequencies of one network that the chip supports join the set. */
  method AddFreqs(unique: set<int>, freqs: seq<I32>, chip: set<int>) returns (r: set<int>)
    requires forall f :: f in chip ==> 0 <= f < 0x8000_0000
    ensures r == unique + (set f | f in freqs) * chip
  {
    r := unique;
    for i := 0 to |freqs|
      invariant r == unique + (set f | f in freqs[..i]) * chip
    {
      assert freqs[..i + 1] == freqs[..i] + [freqs[i]];
      if Wrap32(freqs[i]) in chip {
        r := r + {freqs[i]};
      }
    }
    assert freqs[..|freqs|] == freqs;
  }

  method AddDefaults(unique: set<int>, defaults: seq<I32>, band: seq<nat>) returns (r: set<int>)
    ensures r == unique + set f | f in defaults && f in band
  {
    r := unique;
    for i := 0 to |defaults|
      invariant r == unique + set f | f in defaults[..i] && f in band
    {
      assert defaults[..i + 1] == defaults[..i] + [defaults[i]];
      if defaults[i] in band {
        r := r + {defaults[i]};
      }
    }
    assert defaults[..|defaults|] == defaults;
  }

  /** The networks of each list so far: those scanned for, matched, and skipped for either reason. */
  datatype Sorted = Sorted(
    scan: seq<PnoNetwork>, matched: seq<PnoNetwork>, skipScan: seq<PnoNetwork>, skipMatch: seq<PnoNetwork>)

  /** The final lists, given the lists so far, the space left, and the hidden and matchable networks still to come. */
  function Filled(so: Sorted, room: nat, slots: nat, hidden: seq<PnoNetwork>, candidates: seq<PnoNetwork>): Sorted {
    Sorted(so.scan + Take(hidden, room), so.matched + Take(candidates, slots),
           so.skipScan + Drop(hidden, room), so.skipMatch + Drop(candidates, slots))
  }

  function Completed(caps: ScanCapabilities, so: Sorted, rest: seq<PnoNetwork>): Sorted {
    var room := Room(caps.maxNumSchedScanSsids, 1 + |so.scan|);
    Filled(so, room, Room(caps.maxMatchSets, |so.matched|), HiddenOnes(rest), Candidates(rest, room))
  }

  function SortOne(caps: ScanCapabilities, so: Sorted, n: PnoNetwork): Sorted {
    if n.hidden && Room(caps.maxNumSchedScanSsids, 1 + |so.scan|) == 0 then so.(skipScan := so.skipScan + [n])
    else
      var so' := if n.hidden then so.(scan := so.scan + [n]) else so;
      if Room(caps.maxMatchSets, |so.matched|) == 0 then so'.(skipMatch := so'.skipMatch + [n])
      else so'.(matched := so'.matched + [n])
  }

  /** Moving the head of a list that is cut at k over to the side it falls on. */
  lemma CutStep(taken: seq<PnoNetwork>, dropped: seq<PnoNetwork>, n: PnoNetwork, tail: seq<PnoNetwork>, k: nat)
    ensures taken + Take([n] + tail, k) == if k > 0 then (taken + [n]) + Take(tail, k - 1) else taken + Take(tail, 0)
    ensures dropped + Drop([n] + tail, k)
            == if k > 0 then dropped + Drop(tail, k - 1) else (dropped + [n]) + Drop(tail, 0)
  {
    TakeStep(n, tail, k);
    DropNone(tail);
    Shift(dropped, n, tail);
    if k > 0 {
      Shift(taken, n, Take(tail, k - 1));
    }
  }

  lemma FilledSkipScan(so: Sorted, slots: nat, n: PnoNetwork, hidden: seq<PnoNetwork>, candidates: seq<PnoNetwork>)
    ensures Filled(so, 0, slots, [n] + hidden, candidates)
            == Filled(so.(skipScan := so.skipScan + [n]), 0, slots, hidden, candidates)
  {
    CutStep(so.scan, so.skipScan, n, hidden, 0);
  }

  lemma FilledScan(so: Sorted, room: nat, slots: nat, n: PnoNetwork, hidden: seq<PnoNetwork>,
                   candidates: seq<PnoNetwork>)
    requires room > 0
    ensures Filled(so, room, slots, [n] + hidden, candidates)
            == Filled(so.(scan := so.scan + [n]), room - 1, slots, hidden, candidates)
  {
    CutStep(so.scan, so.skipScan, n, hidden, room);
  }

  lemma FilledMatch(so: Sorted, room: nat, slots: nat, n: PnoNetwork, hidden: seq<PnoNetwork>,
                    candidates: seq<PnoNetwork>)
    ensures Filled(so, room, slots, hidden, [n] + candidates)
            == if slots > 0 then Filled(so.(matched := so.matched + [n]), room, slots - 1, hidden, candidates)
               else Filled(so.(skipMatch := so.skipMatch + [n]), room, 0, hidden, candidates)
  {
    CutStep(so.matched, so.skipMatch, n, candidates, slots);
  }

  /** What the final lists are computed from. */
  lemma CompletedIs(caps: ScanCapabilities, so: Sorted, rest: seq<PnoNetwork>, room: nat, slots: nat,
                    hidden: seq<PnoNetwork>, candidates: seq<PnoNetwork>)
    requires room == Room(caps.maxNumSchedScanSsids, 1 + |so.scan|) && slots == Room(caps.maxMatchSets, |so.matched|)
    requires hidden == HiddenOnes(rest) && candidates == Candidates(rest, room)
    ensures Completed(caps, so, rest) == Filled(so, room, slots, hidden, candidates)
  {
  }

  lemma CompletedStep(caps: ScanCapabilities, so: Sorted, nets: seq<PnoNetwork>)
    requires nets != []
    ensures Completed(caps, so, nets) == Completed(caps, SortOne(caps, so, nets[0]), nets[1..])
  {
    if !nets[0].hidden {
      PlainNetworkStep(caps, so, nets);
    } else if Room(caps.maxNumSchedScanSsids, 1 + |so.scan|) == 0 {
      SkippedNetworkStep(caps, so, nets);
    } else {
      HiddenNetworkStep(caps, so, nets);
    }
  }

  lemma PlainNetworkStep(caps: ScanCapabilities, so: Sorted, nets: seq<PnoNetwork>)
    requires nets != [] && !nets[0].hidden
    ensures Completed(caps, so, nets) == Completed(caps, SortOne(caps, so, nets[0]), nets[1..])
  {
    var n, hidden := nets[0], HiddenOnes(nets[1..]);
    var room, slots := Room(caps.maxNumSchedScanSsids, 1 + |so.scan|), Room(caps.maxMatchSets, |so.matched|);
    var tail := Candidates(nets[1..], room);
    assert HiddenOnes(nets) == [] + hidden == hidden;
    CompletedIs(caps, so, nets, room, slots, hidden, [n] + tail);
    FilledMatch(so, room, slots, n, hidden, tail);
    CompletedIs(caps, SortOne(caps, so, n), nets[1..], room, if slots > 0 then slots - 1 else 0, hidden, tail);
  }

  lemma SkippedNetworkStep(caps: ScanCapabilities, so: Sorted, nets: seq<PnoNetwork>)
    requires nets != [] && nets[0].hidden && Room(caps.maxNumSchedScanSsids, 1 + |so.scan|) == 0
    ensures Completed(caps, so, nets) == Completed(caps, SortOne(caps, so, nets[0]), nets[1..])
  {
    var n, hidden, slots := nets[0], HiddenOnes(nets[1..]), Room(caps.maxMatchSets, |so.matched|);
    var tail := Candidates(nets[1..], 0);
    CompletedIs(caps, so, nets, 0, slots, [n] + hidden, tail);
    FilledSkipScan(so, slots, n, hidden, tail);
    CompletedIs(caps, SortOne(caps, so, n), nets[1..], 0, slots, hidden, tail);
  }

  lemma HiddenNetworkStep(caps: ScanCapabilities, so: Sorted, nets: seq<PnoNetwork>)
    requires nets != [] && nets[0].hidden && Room(caps.maxNumSchedScanSsids, 1 + |so.scan|) > 0
    ensures Completed(caps, so, nets) == Completed(caps, SortOne(caps, so, nets[0]), nets[1..])
  {
    var n, hidden := nets[0], HiddenOnes(nets[1..]);
    var room, slots := Room(caps.maxNumSchedScanSsids, 1 + |so.scan|), Room(caps.maxMatchSets, |so.matched|);
    var tail := Candidates(nets[1..], room - 1);
    CompletedIs(caps, so, nets, room, slots, [n] + hidden, [n] + tail);
    FilledScan(so, room, slots, n, hidden, [n] + tail);
    FilledMatch(so.(scan := so.scan + [n]), room - 1, slots, n, hidden, tail);
    CompletedIs(caps, SortOne(caps, so, n), nets[1..], room - 1, if slots > 0 then slots - 1 else 0, hidden, tail);
  }

  lemma {:induction false} ListedAppend(a: seq<PnoNetwork>, n: PnoNetwork)
    ensures ListedFreqs(a + [n]) == ListedFreqs(a) + set f | f in n.freqs
    ensures CountWithoutFreqs(a + [n]) == CountWithoutFreqs(a) + if n.freqs == [] then 1 else 0
  {
    if a == [] {
      assert a + [n] == [n] && [n][1..] == [];
    } else {
      assert (a + [n])[1..] == a[1..] + [n];
      ListedAppend(a[1..], n);
    }
  }

  /** The vectors and the set that the loop fills. */
  datatype Lists = Lists(scan: seq<seq<Byte>>, matched: seq<seq<Byte>>, skippedScan: seq<seq<Byte>>,
                         skippedMatch: seq<seq<Byte>>, unique: set<int>, without: nat)

  ghost predicate Tracks(ls: Lists, so: Sorted, chip: set<int>) {
    && ls.scan == [[]] + Ssids(so.scan) && ls.matched == Ssids(so.matched)
    && ls.skippedScan == Ssids(so.skipScan) && ls.skippedMatch == Ssids(so.skipMatch)
    && ls.unique == ListedFreqs(so.matched) * chip && ls.without == CountWithoutFreqs(so.matched)
  }

  /** The loop body. */
  method ParseNetwork(caps: ScanCapabilities, n: PnoNetwork, chip: set<int>, ls: Lists, ghost so: Sorted)
    returns (r: Lists)
    requires forall f :: f in chip ==> 0 <= f < 0x8000_0000
    requires Tracks(ls, so, chip)
    ensures Tracks(r, SortOne(caps, so, n), chip)
  {
    r := ls;
    if n.hidden {
      if |r.scan| + 1 > caps.maxNumSchedScanSsids {
        r := r.(skippedScan := r.skippedScan + [n.ssid]);
        return;
      }
      r := r.(scan := r.scan + [n.ssid]);
      assert r.scan == [[]] + Ssids(so.scan + [n]);
    }
    if |r.matched| + 1 > caps.maxMatchSets {
      r := r.(skippedMatch := r.skippedMatch + [n.ssid]);
      return;
    }
    var unique := AddFreqs(r.unique, n.freqs, chip);
    ListedAppend(so.matched, n);
    r := r.(matched := r.matched + [n.ssid], unique := unique,
            without := if n.freqs == [] then r.without + 1 else r.without);
  }

  method ParseNetworks(caps: ScanCapabilities, nets: seq<PnoNetwork>, chip: set<int>)
    returns (ls: Lists, ghost so: Sorted)
    requires forall f :: f in chip ==> 0 <= f < 0x8000_0000
    ensures Tracks(ls, so, chip) && Completed(caps, so, []) == Completed(caps, Sorted([], [], [], []), nets)
  {
    ls, so := Lists([[]], [], [], [], {}, 0), Sorted([], [], [], []);
    assert nets[0..] == nets;
    for i := 0 to |nets|
      invariant Completed(caps, so, nets[i..]) == Completed(caps, Sorted([], [], [], []), nets)
      invariant Tracks(ls, so, chip)
    {
      assert nets[i..][0] == nets[i] && nets[i..][1..] == nets[i + 1..];
      CompletedStep(caps, so, nets[i..]);
      ls := ParseNetwork(caps, nets[i], chip, ls, so);
      so := SortOne(caps, so, nets[i]);
    }
  }

  method ParsePnoSettings(caps: ScanCapabilities, nets: seq<PnoNetwork>, info: BandInfo) returns (r: PnoRequest)
    requires ListsInRange(info)
    ensures r == PnoRequestFor(caps, nets, info)
    ensures Meets(caps, nets, info, r)
  {
    r := BuildPnoRequest(caps, nets, info);
    RequestMeets(caps, nets, info);
  }

  method BuildPnoRequest(caps: ScanCapabilities, nets: seq<PnoNetwork>, info: BandInfo) returns (r: PnoRequest)
    requires ListsInRange(info)
    ensures r == PnoRequestFor(caps, nets, info)
  {
    ghost var so;
    var ls;
    ls, so := ParseNetworks(caps, nets, ChipFreqs(info));
    CompletedAll(caps, so, nets);
    var unique := WithDefaults(ls.unique, ls.without, |ls.matched|, info, so.matched);
    r := PnoRequest(ls.scan, ls.matched, Ascending(unique), ls.skippedScan, ls.skippedMatch);
  }

  /** The defaults join the set when too many of the matched networks list no frequency. */
  method WithDefaults(unique: set<int>, without: nat, count: nat, info: BandInfo, ghost matched: seq<PnoNetwork>)
    returns (r: set<int>)
    requires unique == ListedFreqs(matched) * ChipFreqs(info)
    requires without == CountWithoutFreqs(matched) && count == |matched|
    ensures r == FreqsFor(matched, info)
  {
    r := unique;
    if without * 100 > PERCENT_NETWORKS_WITH_FREQ * count {
      r := AddDefaults(r, DEFAULT_FREQS_2G, info.band2g);
      r := AddDefaults(r, DEFAULT_FREQS_5G, info.band5g);
    }
  }

  lemma CompletedAll(caps: ScanCapabilities, so: Sorted, nets: seq<PnoNetwork>)
    requires Completed(caps, so, []) == Completed(caps, Sorted([], [], [], []), nets)
    ensures var room := Room(caps.maxNumSchedScanSsids, 1);
            && so.scan == Take(HiddenOnes(nets), room) && so.skipScan == Drop(HiddenOnes(nets), room)
            && so.matched == Take(Candidates(nets, room), caps.maxMatchSets)
            && so.skipMatch == Drop(Candidates(nets, room), caps.maxMatchSets)
  {
    var room := Room(caps.maxNumSchedScanSsids, 1);
    var slots := caps.maxMatchSets;
    assert so.scan + [] == so.scan && so.matched + [] == so.matched;
    assert so.skipScan + [] == so.skipScan && so.skipMatch + [] == so.skipMatch;
    assert [] + Take(HiddenOnes(nets), room) == Take(HiddenOnes(nets), room);
    assert [] + Drop(HiddenOnes(nets), room) == Drop(HiddenOnes(nets), room);
    assert [] + Take(Candidates(nets, room), slots) == Take(Candidates(nets, room), slots);
    assert [] + Drop(Candidates(nets, room), slots) == Drop(Candidates(nets, room), slots);
  }

  // ----- the scan and PNO state machine -----

  const ENODEV := 19
  const MAX_NODEV_FAILURES := 3

  /** The kernel's answer to a start request: accepted, or an error number. */
  datatype Reply = Accepted | Error(errno: int)

  datatype Op =
    | ScanRequest(reply: Reply)
    | StartPno(reply: Reply)
    | StopPno(stopped: bool)
    | SubscribeScan
    | UnsubscribeScan
    | SubscribePno
    | UnsubscribePno
    | ScanResultsReady(scanAborted: bool)
    | SchedScanResultsReady(scanStopped: bool)
    | Invalidate

  /** A call to a subscribed event handler. */
  datatype Call = ScanResultReady | ScanRequestFailed | PnoNetworkFound | PnoScanFailed

  datatype State = State(
    valid: bool, scanStarted: bool, pnoStarted: bool, scanHandler: bool, pnoHandler: bool,
    nodevCounter: nat, aborted: bool, calls: seq<Call>)

  const FRESH := State(true, false, false, false, false, 0, false, [])

  /** A failed start counts an ENODEV and kills the process when there have been too many. */
  function Failed(st: State, errno: int): State {
    if errno != ENODEV then st
    else st.(nodevCounter := st.nodevCounter + 1, aborted := st.nodevCounter + 1 > MAX_NODEV_FAILURES)
  }

  function Called(st: State, yes: bool, call: Call): State {
    if yes then st.(calls := st.calls + [call]) else st
  }

  /** Nothing happens any more once the process has aborted. */
  function Apply(st: State, op: Op): State {
    if st.aborted then st else
    match op
    case ScanRequest(reply) =>
      if !st.valid then st
      else if reply.Error? then Failed(st, reply.errno)
      else st.(nodevCounter := 0, scanStarted := true)
    case StartPno(reply) =>
      if !st.valid then st
      else if reply.Error? then Failed(st, reply.errno)
      else st.(nodevCounter := 0, pnoStarted := true)
    case StopPno(stopped) => if st.valid && stopped then st.(pnoStarted := false) else st
    case SubscribeScan => if st.valid then st.(scanHandler := true) else st
    case UnsubscribeScan => st.(scanHandler := false)
    case SubscribePno => if st.valid then st.(pnoHandler := true) else st
    case UnsubscribePno => st.(pnoHandler := false)
    case ScanResultsReady(scanAborted) =>
      Called(st.(scanStarted := false), st.scanHandler, if scanAborted then ScanRequestFailed else ScanResultReady)
    case SchedScanResultsReady(scanStopped) =>
      if !scanStopped then Called(st, st.pnoHandler, PnoNetworkFound)
      else if st.pnoHandler then Called(st.(pnoStarted := false), st.pnoStarted, PnoScanFailed)
      else st
    case Invalidate => st.(valid := false)
  }

  function Run(st: State, ops: seq<Op>): State
    decreases |ops|
  {
    if ops == [] then st else Apply(Run(st, ops[..|ops| - 1]), ops[|ops| - 1])
  }

  function Count<T(==)>(t: seq<T>, e: T): nat {
    if t == [] then 0 else Count(t[..|t| - 1], e) + if t[|t| - 1] == e then 1 else 0
  }

  lemma CountSnoc<T>(t: seq<T>, x: T, e: T)
    ensures Count(t + [x], e) == Count(t, e) + if x == e then 1 else 0
  {
    assert (t + [x])[..|t|] == t;
  }

  function Appended<T>(s: seq<T>, x: Option<T>): seq<T> {
    if x.Some? then s + [x.value] else s
  }

  lemma CountAppended<T>(t: seq<T>, x: Option<T>, e: T)
    ensures Count(Appended(t, x), e) == Count(t, e) + if x == Some(e) then 1 else 0
  {
    if x.Some? {
      CountSnoc(t, x.value, e);
    }
  }

  // ----- the machine from its history alone -----

  /** ENODEV (19) failures of valid starts since the last successful one; it stays at four, where the process ends. */
  function NodevOf(ops: seq<Op>): (n: nat)
    ensures n <= 4
    decreases |ops|
  {
    if ops == [] then 0 else
    var front, op := ops[..|ops| - 1], ops[|ops| - 1];
    var n := NodevOf(front);
    if n == 4 || Invalidate in front || !(op.ScanRequest? || op.StartPno?) then n
    else if op.reply.Accepted? then 0
    else if op.reply.errno == 19 then n + 1 else n
  }

  /** A PNO handler is subscribed. */
  predicate HandlerOn(ops: seq<Op>)
    decreases |ops|
  {
    ops != [] &&
    var front, op := ops[..|ops| - 1], ops[|ops| - 1];
    if NodevOf(front) == 4 then HandlerOn(front)
    else (op.SubscribePno? && Invalidate !in front) || (!op.UnsubscribePno? && HandlerOn(front))
  }

  /** A PNO scan was started and has neither been stopped nor, with a handler there, been reported stopped. */
  predicate PnoOn(ops: seq<Op>)
    decreases |ops|
  {
    ops != [] &&
    var front, op := ops[..|ops| - 1], ops[|ops| - 1];
    if NodevOf(front) == 4 then PnoOn(front)
    else if op.StartPno? && op.reply.Accepted? && Invalidate !in front then true
    else if op.StopPno? && op.stopped && Invalidate !in front then false
    else if op.SchedScanResultsReady? && op.scanStopped && HandlerOn(front) then false
    else PnoOn(front)
  }

  predicate ScanHandlerOn(ops: seq<Op>)
    decreases |ops|
  {
    ops != [] &&
    var front, op := ops[..|ops| - 1], ops[|ops| - 1];
    if NodevOf(front) == 4 then ScanHandlerOn(front)
    else (op.SubscribeScan? && Invalidate !in front) || (!op.UnsubscribeScan? && ScanHandlerOn(front))
  }

  /** A single scan was started and no results have come since. */
  predicate ScanOn(ops: seq<Op>)
    decreases |ops|
  {
    ops != [] &&
    var front, op := ops[..|ops| - 1], ops[|ops| - 1];
    if NodevOf(front) == 4 then ScanOn(front)
    else (op.ScanRequest? && op.reply.Accepted? && Invalidate !in front) || (!op.ScanResultsReady? && ScanOn(front))
  }

  /** The call that the last operation makes. */
  function CallDue(front: seq<Op>, op: Op): Option<Call> {
    if NodevOf(front) == 4 then None
    else if op.ScanResultsReady? && ScanHandlerOn(front) then
      Some(if op.scanAborted then ScanRequestFailed else ScanResultReady)
    else if op.SchedScanResultsReady? && HandlerOn(front) && !op.scanStopped then Some(PnoNetworkFound)
    else if op.SchedScanResultsReady? && HandlerOn(front) && op.scanStopped && PnoOn(front) then Some(PnoScanFailed)
    else None
  }

  function CallsDue(ops: seq<Op>): seq<Call>
    decreases |ops|
  {
    if ops == [] then []
    else Appended(CallsDue(ops[..|ops| - 1]), CallDue(ops[..|ops| - 1], ops[|ops| - 1]))
  }

  ghost predicate Agrees(st: State, ops: seq<Op>) {
    && st.nodevCounter == NodevOf(ops) && (st.aborted <==> NodevOf(ops) == 4)
    && st.pnoHandler == HandlerOn(ops) && st.pnoStarted == PnoOn(ops)
    && st.scanHandler == ScanHandlerOn(ops) && st.scanStarted == ScanOn(ops)
    && st.calls == CallsDue(ops)
    && (NodevOf(ops) < 4 ==> (st.valid <==> Invalidate !in ops))
  }

  lemma LastOf(front: seq<Op>, op: Op)
    ensures (front + [op])[..|front|] == front && (front + [op])[|front|] == op
    ensures |front + [op]| == |front| + 1 && (Invalidate in front + [op] <==> Invalidate in front || op.Invalidate?)
  {
  }

  lemma AgreesScanRequest(st: State, front: seq<Op>, op: Op)
    requires Agrees(st, front) && op.ScanRequest?
    ensures Agrees(Apply(st, op), front + [op])
  {
    LastOf(front, op);
  }

  lemma AgreesStartPno(st: State, front: seq<Op>, op: Op)
    requires Agrees(st, front) && op.StartPno?
    ensures Agrees(Apply(st, op), front + [op])
  {
    LastOf(front, op);
  }

  lemma AgreesStopPno(st: State, front: seq<Op>, op: Op)
    requires Agrees(st, front) && op.StopPno?
    ensures Agrees(Apply(st, op), front + [op])
  {
    LastOf(front, op);
  }

  lemma AgreesSubscriptions(st: State, front: seq<Op>, op: Op)
    requires Agrees(st, front)
    requires op.SubscribeScan? || op.UnsubscribeScan? || op.SubscribePno? || op.UnsubscribePno? || op.Invalidate?
    ensures Agrees(Apply(st, op), front + [op])
  {
    LastOf(front, op);
  }

  lemma AgreesResults(st: State, front: seq<Op>, op: Op)
    requires Agrees(st, front) && (op.ScanResultsReady? || op.SchedScanResultsReady?)
    ensures Agrees(Apply(st, op), front + [op])
  {
    LastOf(front, op);
  }

  /**
   * On every run the counter, the abort, both scans, both handlers and all calls made are what the operations so far
   * say. In particular OnPnoScanFailed is called exactly when a stop is reported with a handler there and PNO on.
   */
  lemma {:induction false} HistoryIs(ops: seq<Op>)
    ensures Agrees(Run(FRESH, ops), ops)
    decreases |ops|
  {
    if ops != [] {
      var front, op := ops[..|ops| - 1], ops[|ops| - 1];
      HistoryIs(front);
      assert front + [op] == ops;
      if op.ScanRequest? {
        AgreesScanRequest(Run(FRESH, front), front, op);
      } else if op.StartPno? {
        AgreesStartPno(Run(FRESH, front), front, op);
      } else if op.StopPno? {
        AgreesStopPno(Run(FRESH, front), front, op);
      } else if op.ScanResultsReady? || op.SchedScanResultsReady? {
        AgreesResults(Run(FRESH, front), front, op);
      } else {
        AgreesSubscriptions(Run(FRESH, front), front, op);
      }
    }
  }

  /** A PNO start that the kernel accepted, of a valid scanner in a living process. */
  predicate StartsPno(front: seq<Op>, op: Op) {
    op.StartPno? && op.reply.Accepted? && Invalidate !in front && NodevOf(front) < 4
  }

  function PnoStarts(ops: seq<Op>): nat
    decreases |ops|
  {
    if ops == [] then 0
    else PnoStarts(ops[..|ops| - 1]) + if StartsPno(ops[..|ops| - 1], ops[|ops| - 1]) then 1 else 0
  }

  lemma {:induction false} FailuresBounded(ops: seq<Op>)
    ensures Count(CallsDue(ops), PnoScanFailed) + (if PnoOn(ops) then 1 else 0) <= PnoStarts(ops)
    decreases |ops|
  {
    if ops != [] {
      var front, op := ops[..|ops| - 1], ops[|ops| - 1];
      FailuresBounded(front);
      CountAppended(CallsDue(front), CallDue(front, op), PnoScanFailed);
    }
  }

  /** On every run OnPnoScanFailed is called at most once for each successful PNO start. */
  lemma PnoFailedBounded(ops: seq<Op>)
    ensures Count(Run(FRESH, ops).calls, PnoScanFailed) <= PnoStarts(ops)
  {
    HistoryIs(ops);
    FailuresBounded(ops);
  }

  lemma {:induction false} StartedSince(ops: seq<Op>, a: nat, b: nat)
    requires a <= b <= |ops| && !PnoOn(ops[..a]) && PnoOn(ops[..b])
    ensures exists k :: a <= k < b && StartsPno(ops[..k], ops[k])
    decreases b
  {
    assert ops[..b][..b - 1] == ops[..b - 1] && ops[..b][b - 1] == ops[b - 1];
    if PnoOn(ops[..b - 1]) {
      StartedSince(ops, a, b - 1);
    } else {
      assert StartsPno(ops[..b - 1], ops[b - 1]);
    }
  }

  /** On every run, between a successful stop and a later OnPnoScanFailed lies a successful start. */
  lemma NoFailureAfterStop(ops: seq<Op>, stop: nat, i: nat)
    requires stop < i < |ops| && ops[stop] == StopPno(true) && Invalidate !in ops[..stop] && NodevOf(ops[..stop]) < 4
    requires CallDue(ops[..i], ops[i]) == Some(PnoScanFailed)
    ensures exists k :: stop < k < i && StartsPno(ops[..k], ops[k])
  {
    assert ops[..stop + 1][..stop] == ops[..stop] && ops[..stop + 1][stop] == ops[stop];
    StartedSince(ops, stop + 1, i);
  }

  // ----- the code -----

  const MAX_SSID_LENGTH := 32

  function ShortOnes(ssids: seq<seq<Byte>>): seq<seq<Byte>> {
    if ssids == [] then []
    else (if |ssids[0]| <= MAX_SSID_LENGTH then [ssids[0]] else []) + ShortOnes(ssids[1..])
  }

  function ShortBefore(hidden: seq<seq<Byte>>, i: nat): nat
    requires i <= |hidden|
  {
    if i == 0 then 0 else ShortBefore(hidden, i - 1) + if |hidden[i - 1]| <= 32 then 1 else 0
  }

  /** Of the first k, those of at most 32 bytes that the device has room for behind the wildcard and those before. */
  function SinglyScanned(caps: ScanCapabilities, hidden: seq<seq<Byte>>, k: nat): seq<seq<Byte>>
    requires k <= |hidden|
  {
    if k == 0 then [] else
    SinglyScanned(caps, hidden, k - 1) +
    if |hidden[k - 1]| <= 32 && 2 + ShortBefore(hidden, k - 1) <= caps.maxNumScanSsids then [hidden[k - 1]] else []
  }

  lemma {:induction false} ShortSnoc(a: seq<seq<Byte>>, x: seq<Byte>)
    ensures ShortOnes(a + [x]) == ShortOnes(a) + if |x| <= 32 then [x] else []
  {
    if a == [] {
      assert a + [x] == [x] && [x][1..] == [];
    } else {
      assert (a + [x])[0] == a[0] && (a + [x])[1..] == a[1..] + [x];
      ShortSnoc(a[1..], x);
      ConcatAssoc(if |a[0]| <= 32 then [a[0]] else [], ShortOnes(a[1..]), if |x| <= 32 then [x] else []);
    }
  }

  lemma {:induction false} SinglyScannedAre(caps: ScanCapabilities, hidden: seq<seq<Byte>>, k: nat)
    requires k <= |hidden|
    ensures ShortBefore(hidden, k) == |ShortOnes(hidden[..k])|
    ensures SinglyScanned(caps, hidden, k) == Take(ShortOnes(hidden[..k]), Room(caps.maxNumScanSsids, 1))
  {
    if k > 0 {
      SinglyScannedAre(caps, hidden, k - 1);
      PrefixSnoc(hidden, k - 1);
      ShortSnoc(hidden[..k - 1], hidden[k - 1]);
      CutSnoc(ShortOnes(hidden[..k - 1]), hidden[k - 1], Room(caps.maxNumScanSsids, 1));
    }
  }

  /** The SSIDs of a single scan: the wildcard, then the well-formed hidden SSIDs that fit, in order. */
  method SingleScanSsids(caps: ScanCapabilities, hidden: seq<seq<Byte>>) returns (ssids: seq<seq<Byte>>)
    ensures ssids == [[]] + Take(ShortOnes(hidden), Room(caps.maxNumScanSsids, 1))
    ensures ssids == [[]] + SinglyScanned(caps, hidden, |hidden|)
  {
    SinglyScannedAre(caps, hidden, |hidden|);
    assert hidden[..|hidden|] == hidden;
    ssids := [[]];
    ghost var goal := [[]] + Take(ShortOnes(hidden), Room(caps.maxNumScanSsids, 1));
    assert hidden[0..] == hidden;
    for i := 0 to |hidden|
      invariant |ssids| >= 1
      invariant ssids + Take(ShortOnes(hidden[i..]), Room(caps.maxNumScanSsids, |ssids|)) == goal
    {
      ghost var tail := ShortOnes(hidden[i + 1..]);
      assert hidden[i..][0] == hidden[i] && hidden[i..][1..] == hidden[i + 1..];
      TakeStep(hidden[i], tail, Room(caps.maxNumScanSsids, |ssids|));
      if |ssids| + 1 > caps.maxNumScanSsids {
        DropNone(tail);
        continue;
      }
      if |hidden[i]| > MAX_SSID_LENGTH {
        assert ShortOnes(hidden[i..]) == tail;
        continue;
      }
      Shift(ssids, hidden[i], Take(tail, Room(caps.maxNumScanSsids, |ssids|) - 1));
      ssids := ssids + [hidden[i]];
    }
  }

  const EINVAL := 22
  const EBUSY := 16
  const SCAN_STATUS_SUCCESS := 0
  const SCAN_STATUS_FAILED_GENERIC := 1
  const SCAN_STATUS_FAILED_BUSY := 2
  const SCAN_STATUS_FAILED_NODEV := 4
  const SCAN_STATUS_FAILED_INVALID_ARGS := 5

  function ScanStatus(errno: int): int {
    if errno == EINVAL then SCAN_STATUS_FAILED_INVALID_ARGS
    else if errno == EBUSY then SCAN_STATUS_FAILED_BUSY
    else if errno == ENODEV then SCAN_STATUS_FAILED_NODEV
    else SCAN_STATUS_FAILED_GENERIC
  }

  class ScannerImpl {
    var valid: bool
    var scanStarted: bool
    var pnoStarted: bool
    var scanHandler: bool
    var pnoHandler: bool
    var nodevCounter: nat
    var aborted: bool     // the process died on a failed CHECK
    var calls: seq<Call>  // event handler calls made so far

    ghost function View(): State
      reads this
    {
      State(valid, scanStarted, pnoStarted, scanHandler, pnoHandler, nodevCounter, aborted, calls)
    }

    constructor ()
      ensures View() == FRESH
    {
      valid, scanStarted, pnoStarted, scanHandler, pnoHandler := true, false, false, false, false;
      nodevCounter, aborted, calls := 0, false, [];
    }

    method CountFailure(errno: int)
      requires !aborted
      modifies this`nodevCounter, this`aborted
      ensures View() == Failed(old(View()), errno)
    {
      if errno == ENODEV {
        nodevCounter := nodevCounter + 1;
      }
      if errno == ENODEV && !(nodevCounter <= MAX_NODEV_FAILURES) {
        aborted := true;
      }
    }

    method ScanRequest(reply: Reply) returns (status: int)
      requires !aborted
      modifies this
      ensures View() == Apply(old(View()), Op.ScanRequest(reply))
      ensures status == if !valid then 1 else if reply.Accepted? then 0
                        else if reply.errno == 22 then 5 else if reply.errno == 16 then 2
                        else if reply.errno == 19 then 4 else 1
    {
      if !valid {
        return SCAN_STATUS_FAILED_GENERIC;
      }
      if reply.Error? {
        CountFailure(reply.errno);
        return ScanStatus(reply.errno);
      }
      nodevCounter := 0;
      scanStarted := true;
      return SCAN_STATUS_SUCCESS;
    }

    method StartPnoScanDefault(reply: Reply) returns (ok: bool)
      requires !aborted
      modifies this
      ensures View() == Apply(old(View()), StartPno(reply))
      ensures ok <==> valid && reply.Accepted?
    {
      if !valid {
        return false;
      }
      if reply.Error? {
        CountFailure(reply.errno);
        return false;
      }
      nodevCounter := 0;
      pnoStarted := true;
      return true;
    }

    method StopPnoScanDefault(stopped: bool) returns (ok: bool)
      requires !aborted
      modifies this
      ensures View() == Apply(old(View()), StopPno(stopped))
      ensures ok <==> valid && stopped
    {
      if !valid || !stopped {
        return false;
      }
      pnoStarted := false;
      return true;
    }

    method SubscribeScanEvents()
      requires !aborted
      modifies this
      ensures View() == Apply(old(View()), SubscribeScan)
    {
      if valid {
        scanHandler := true;
      }
    }

    method UnsubscribeScanEvents()
      requires !aborted
      modifies this
      ensures View() == Apply(old(View()), UnsubscribeScan)
    {
      scanHandler := false;
    }

    method SubscribePnoScanEvents()
      requires !aborted
      modifies this
      ensures View() == Apply(old(View()), SubscribePno)
    {
      if valid {
        pnoHandler := true;
      }
    }

    method UnsubscribePnoScanEvents()
      requires !aborted
      modifies this
      ensures View() == Apply(old(View()), UnsubscribePno)
    {
      pnoHandler := false;
    }

    method OnScanResultsReady(scanAborted: bool)
      requires !aborted
      modifies this
      ensures View() == Apply(old(View()), ScanResultsReady(scanAborted))
    {
      scanStarted := false;
      if scanHandler {
        if scanAborted {
          calls := calls + [ScanRequestFailed];
        } else {
          calls := calls + [ScanResultReady];
        }
      }
    }

    method OnSchedScanResultsReady(scanStopped: bool)
      requires !aborted
      modifies this
      ensures View() == Apply(old(View()), SchedScanResultsReady(scanStopped))
    {
      if pnoHandler {
        if scanStopped {
          if pnoStarted {
            calls := calls + [PnoScanFailed];
          }
          pnoStarted := false;
        } else {
          calls := calls + [PnoNetworkFound];
        }
      }
    }

    method InvalidateScanner()
      requires !aborted
      modifies this
      ensures View() == Apply(old(View()), Invalidate)
    {
      valid := false;
    }
  }
}
