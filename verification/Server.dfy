/**
 * The server's interface registry (server.cpp) with the event subscriptions that interface objects hold in the
 * netlink manager's tables (client_interface_impl.cpp, ap_interface_impl.cpp, scanning/scanner_impl.cpp).
 *
 * An interface object is an identity and an interface index. A table maps an interface index to the object whose
 * handler is registered there. Everything the kernel answers is an input.
 */
module Server {
  import opened Bytes
  import opened Bands

  datatype Iface = Iface(obj: nat, index: int)

  /** The six per-interface subscription tables. */
  datatype Tables = Tables(
    station: map<int, nat>, channelSwitch: map<int, nat>,
    mlme: map<int, nat>, frameTx: map<int, nat>, scan: map<int, nat>, schedScan: map<int, nat>)

  datatype State = State(
    aps: map<string, Iface>, clients: map<string, Iface>,
    ifaceWiphy: map<string, int>, bands: map<int, int>,
    tables: Tables, nextObj: nat)

  const NO_TABLES := Tables(map[], map[], map[], map[], map[], map[])
  const INITIAL := State(map[], map[], map[], map[], NO_TABLES, 0)

  // ----- constructors and destructors of interface objects -----

  function SubscribeAp(t: Tables, i: Iface): Tables {
    t.(station := t.station[i.index := i.obj], channelSwitch := t.channelSwitch[i.index := i.obj])
  }

  function UnsubscribeAp(t: Tables, i: Iface): Tables {
    t.(station := t.station - {i.index}, channelSwitch := t.channelSwitch - {i.index})
  }

  function SubscribeClient(t: Tables, i: Iface): Tables {
    t.(mlme := t.mlme[i.index := i.obj], frameTx := t.frameTx[i.index := i.obj],
       channelSwitch := t.channelSwitch[i.index := i.obj],
       scan := t.scan[i.index := i.obj], schedScan := t.schedScan[i.index := i.obj])
  }

  function UnsubscribeClient(t: Tables, i: Iface): Tables {
    t.(mlme := t.mlme - {i.index}, frameTx := t.frameTx - {i.index},
       channelSwitch := t.channelSwitch - {i.index},
       scan := t.scan - {i.index}, schedScan := t.schedScan - {i.index})
  }

  /** Destroying a whole map of objects unsubscribes each of them. */
  function DropIndices(t: map<int, nat>, gone: map<string, Iface>): map<int, nat> {
    map k | k in t && (forall n :: n in gone ==> gone[n].index != k) :: t[k]
  }

  function DropClients(t: Tables, gone: map<string, Iface>): Tables {
    Tables(t.station, DropIndices(t.channelSwitch, gone), DropIndices(t.mlme, gone), DropIndices(t.frameTx, gone),
           DropIndices(t.scan, gone), DropIndices(t.schedScan, gone))
  }

  function DropAps(t: Tables, gone: map<string, Iface>): Tables {
    t.(station := DropIndices(t.station, gone), channelSwitch := DropIndices(t.channelSwitch, gone))
  }

  // ----- bands -----

  const NL80211_BAND_2GHZ := 0
  const NL80211_BAND_5GHZ := 1
  const NL80211_BAND_60GHZ := 2
  const NL80211_BAND_6GHZ := 3
  const NO_WIPHY := 0xFFFF_FFFF  // the wiphy index that reads as -1

  /** A band belongs to whoever claims it first. */
  function Claim(bands: map<int, int>, band: int, wiphy: int, present: bool): map<int, int> {
    if present && band !in bands then bands[band := wiphy] else bands
  }

  function UpdateBands(bands: map<int, int>, wiphy: int, info: Option<BandInfo>): map<int, int> {
    if wiphy == NO_WIPHY || info.None? then bands else
    var i := info.value;
    Claim(Claim(Claim(Claim(Claim(bands, NL80211_BAND_2GHZ, wiphy, |i.band2g| != 0),
                            NL80211_BAND_5GHZ, wiphy, |i.band5g| != 0),
                      NL80211_BAND_5GHZ, wiphy, |i.bandDfs| != 0),
                NL80211_BAND_6GHZ, wiphy, |i.band6g| != 0),
          NL80211_BAND_60GHZ, wiphy, |i.band60g| != 0)
  }

  function EraseBands(bands: map<int, int>, wiphy: int): map<int, int> {
    map b | b in bands && bands[b] != wiphy :: bands[b]
  }

  predicate NoIfaceFor(ifaceWiphy: map<string, int>, wiphy: int) {
    wiphy !in ifaceWiphy.Values
  }

  // ----- operations -----

  /** What SetupInterface learns from the kernel. */
  datatype Setup = Setup(index: int, wiphy: int)

  /** The kernel's answers during a country code change: the wiphy of each name and the bands of each wiphy. */
  datatype Kernel = Kernel(wiphyOf: map<string, int>, infoOf: map<int, BandInfo>)

  datatype Op =
    | CreateAp(name: string, setup: Option<Setup>, info: Option<BandInfo>)
    | CreateClient(name: string, setup: Option<Setup>, info: Option<BandInfo>)
    | TearDownAp(name: string)
    | TearDownClient(name: string)
    | TearDownAll
    | CountryCodeChanged(clientOrder: seq<string>, apOrder: seq<string>, kernel: Kernel)
    | RegDomainChanged(wiphy: int, clientOrder: seq<string>, apOrder: seq<string>, kernel: Kernel)

  /** Register a name on a wiphy, claiming bands when the wiphy had no interface before. */
  function Registered(st: State, name: string, wiphy: int, info: Option<BandInfo>): State {
    st.(bands := if NoIfaceFor(st.ifaceWiphy, wiphy) then UpdateBands(st.bands, wiphy, info) else st.bands,
        ifaceWiphy := st.ifaceWiphy[name := wiphy])
  }

  /** Forget a name; the last one on a wiphy takes the wiphy's bands with it. */
  function Unregistered(st: State, name: string): State {
    if name !in st.ifaceWiphy then st else
    var wiphy, rest := st.ifaceWiphy[name], st.ifaceWiphy - {name};
    st.(ifaceWiphy := rest, bands := if NoIfaceFor(rest, wiphy) then EraseBands(st.bands, wiphy) else st.bands)
  }

  /** The new object subscribes before the old object of that name, if any, is destroyed. */
  function WithAp(st: State, name: string, index: int): State {
    var i := Iface(st.nextObj, index);
    var t := SubscribeAp(st.tables, i);
    st.(aps := st.aps[name := i], nextObj := st.nextObj + 1,
        tables := if name in st.aps then UnsubscribeAp(t, st.aps[name]) else t)
  }

  function WithClient(st: State, name: string, index: int): State {
    var i := Iface(st.nextObj, index);
    var t := SubscribeClient(st.tables, i);
    st.(clients := st.clients[name := i], nextObj := st.nextObj + 1,
        tables := if name in st.clients then UnsubscribeClient(t, st.clients[name]) else t)
  }

  function WithoutAp(st: State, name: string): State {
    if name !in st.aps then st
    else st.(aps := st.aps - {name}, tables := UnsubscribeAp(st.tables, st.aps[name]))
  }

  function WithoutClient(st: State, name: string): State {
    if name !in st.clients then st
    else st.(clients := st.clients - {name}, tables := UnsubscribeClient(st.tables, st.clients[name]))
  }

  /** UpdateBandWiphyIndexMap for the wiphy of every name, in order, each wiphy once. */
  function Refreshed(bands: map<int, int>, names: seq<string>, kernel: Kernel, handled: set<int>): map<int, int>
    decreases |names|
  {
    if names == [] then bands
    else if names[0] !in kernel.wiphyOf || kernel.wiphyOf[names[0]] in handled then
      Refreshed(bands, names[1..], kernel, handled)
    else
      var w := kernel.wiphyOf[names[0]];
      var info := if w in kernel.infoOf then Some(kernel.infoOf[w]) else None;
      Refreshed(UpdateBands(bands, w, info), names[1..], kernel, handled + {w})
  }

  function Apply(st: State, op: Op): State {
    match op
    case CreateAp(name, setup, info) =>
      if setup.None? then st
      else Registered(WithAp(st, name, setup.value.index), name, setup.value.wiphy, info)
    case CreateClient(name, setup, info) =>
      if setup.None? then st
      else Registered(WithClient(st, name, setup.value.index), name, setup.value.wiphy, info)
    case TearDownAp(name) => Unregistered(WithoutAp(st, name), name)
    case TearDownClient(name) => Unregistered(WithoutClient(st, name), name)
    case TearDownAll =>
      State(map[], map[], map[],
            map b | b in st.bands && st.bands[b] !in st.ifaceWiphy.Values :: st.bands[b],
            DropAps(DropClients(st.tables, st.clients), st.aps),
            st.nextObj)
    case CountryCodeChanged(clientOrder, apOrder, kernel) =>
      st.(bands := Refreshed(st.bands, clientOrder + apOrder, kernel, {}))
    case RegDomainChanged(wiphy, clientOrder, apOrder, kernel) =>
      if NoIfaceFor(st.ifaceWiphy, wiphy) then st
      else st.(bands := Refreshed(st.bands, clientOrder + apOrder, kernel, {}))
  }

  function Run(st: State, ops: seq<Op>): State
    decreases |ops|
  {
    if ops == [] then st else Run(Apply(st, ops[0]), ops[1..])
  }

  /** The loops of a country code change visit exactly the live interfaces, in some order. */
  ghost predicate OrdersMatch(st: State, op: Op) {
    op.CountryCodeChanged? || op.RegDomainChanged? ==>
      && (forall n :: n in op.clientOrder <==> n in st.clients)
      && (forall n :: n in op.apOrder <==> n in st.aps)
  }

  // ----- no dangling handlers -----

  function Ifaces(m: map<string, Iface>): set<Iface> {
    set n | n in m :: m[n]
  }

  predicate Owned(t: map<int, nat>, live: set<Iface>) {
    forall k :: k in t ==> Iface(t[k], k) in live
  }

  predicate TablesOwned(t: Tables, aps: set<Iface>, clients: set<Iface>) {
    && Owned(t.station, aps) && Owned(t.channelSwitch, aps + clients)
    && Owned(t.mlme, clients) && Owned(t.frameTx, clients) && Owned(t.scan, clients) && Owned(t.schedScan, clients)
  }

  /** Every registered handler belongs to an object that the server still owns, of the right role. */
  predicate NoDangling(st: State) {
    TablesOwned(st.tables, Ifaces(st.aps), Ifaces(st.clients))
  }

  lemma ReplacedIface(m: map<string, Iface>, name: string, i: Iface)
    ensures forall j :: j in Ifaces(m) && !(name in m && j == m[name]) ==> j in Ifaces(m[name := i])
    ensures i in Ifaces(m[name := i])
    ensures forall j :: j in Ifaces(m) && !(name in m && j == m[name]) ==> j in Ifaces(m - {name})
  {
    var after := m[name := i];
    assert name in after && after[name] == i;
    forall j | j in Ifaces(m) && !(name in m && j == m[name]) ensures j in Ifaces(after) && j in Ifaces(m - {name}) {
      var n :| n in m && m[n] == j;
      assert n in after && after[n] == j;
      assert n in m - {name} && (m - {name})[n] == j;
    }
  }

  lemma WithApOwned(st: State, name: string, index: int)
    requires NoDangling(st)
    ensures NoDangling(WithAp(st, name, index))
  {
    ReplacedIface(st.aps, name, Iface(st.nextObj, index));
  }

  lemma WithClientOwned(st: State, name: string, index: int)
    requires NoDangling(st)
    ensures NoDangling(WithClient(st, name, index))
  {
    ReplacedIface(st.clients, name, Iface(st.nextObj, index));
  }

  lemma WithoutApOwned(st: State, name: string)
    requires NoDangling(st)
    ensures NoDangling(WithoutAp(st, name))
  {
    ReplacedIface(st.aps, name, Iface(0, 0));
  }

  lemma WithoutClientOwned(st: State, name: string)
    requires NoDangling(st)
    ensures NoDangling(WithoutClient(st, name))
  {
    ReplacedIface(st.clients, name, Iface(0, 0));
  }

  lemma DroppedOwned(t: map<int, nat>, m: map<string, Iface>, others: set<Iface>)
    requires Owned(t, Ifaces(m) + others)
    ensures Owned(DropIndices(t, m), others)
  {
    forall k | k in DropIndices(t, m) ensures Iface(t[k], k) !in Ifaces(m) {
    }
  }

  lemma TearDownAllOwned(st: State)
    requires NoDangling(st)
    ensures Apply(st, TearDownAll).tables == NO_TABLES
  {
    var t, aps, clients := st.tables, Ifaces(st.aps), Ifaces(st.clients);
    assert clients + aps == aps + clients && aps + {} == aps && clients + {} == clients;
    DroppedOwned(t.station, st.aps, {});
    DroppedOwned(t.channelSwitch, st.clients, aps);
    DroppedOwned(DropIndices(t.channelSwitch, st.clients), st.aps, {});
    DroppedOwned(t.mlme, st.clients, {});
    DroppedOwned(t.frameTx, st.clients, {});
    DroppedOwned(t.scan, st.clients, {});
    DroppedOwned(t.schedScan, st.clients, {});
    OwnedByNobody(DropIndices(t.station, st.aps));
    OwnedByNobody(DropIndices(DropIndices(t.channelSwitch, st.clients), st.aps));
    OwnedByNobody(DropIndices(t.mlme, st.clients));
    OwnedByNobody(DropIndices(t.frameTx, st.clients));
    OwnedByNobody(DropIndices(t.scan, st.clients));
    OwnedByNobody(DropIndices(t.schedScan, st.clients));
  }

  lemma OwnedByNobody(t: map<int, nat>)
    requires Owned(t, {})
    ensures t == map[]
  {
    assert forall k :: k !in t;
  }

  /** Every operation leaves no dangling handler, whatever the kernel answers and whatever is re-created. */
  lemma NoDanglingStep(st: State, op: Op)
    requires NoDangling(st)
    ensures NoDangling(Apply(st, op))
  {
    match op
    case CreateAp(name, setup, info) =>
      if setup.Some? {
        WithApOwned(st, name, setup.value.index);
      }
    case CreateClient(name, setup, info) =>
      if setup.Some? {
        WithClientOwned(st, name, setup.value.index);
      }
    case TearDownAp(name) => WithoutApOwned(st, name);
    case TearDownClient(name) => WithoutClientOwned(st, name);
    case TearDownAll => TearDownAllOwned(st);
    case CountryCodeChanged(_, _, _) =>
    case RegDomainChanged(_, _, _, _) =>
  }

  lemma {:induction false} NoDanglingRun(st: State, ops: seq<Op>)
    requires NoDangling(st)
    ensures NoDangling(Run(st, ops))
    decreases |ops|
  {
    if ops != [] {
      NoDanglingStep(st, ops[0]);
      NoDanglingRun(Apply(st, ops[0]), ops[1..]);
    }
  }

  // ----- every live interface is subscribed -----

  predicate Entry(t: map<int, nat>, i: Iface) {
    i.index in t && t[i.index] == i.obj
  }

  predicate HasAp(t: Tables, i: Iface) {
    Entry(t.station, i) && Entry(t.channelSwitch, i)
  }

  predicate HasClient(t: Tables, i: Iface) {
    && Entry(t.channelSwitch, i) && Entry(t.mlme, i) && Entry(t.frameTx, i)
    && Entry(t.scan, i) && Entry(t.schedScan, i)
  }

  predicate ApsSubscribed(t: Tables, aps: map<string, Iface>) {
    forall n :: n in aps ==> HasAp(t, aps[n])
  }

  predicate ClientsSubscribed(t: Tables, clients: map<string, Iface>) {
    forall n :: n in clients ==> HasClient(t, clients[n])
  }

  /** Every live interface owns its entry in every table of its role. */
  predicate Subscribed(st: State) {
    ApsSubscribed(st.tables, st.aps) && ClientsSubscribed(st.tables, st.clients)
  }

  /** The objects of a map are different and older than `next`. */
  predicate ObjsDistinct(m: map<string, Iface>, next: nat) {
    && (forall n :: n in m ==> m[n].obj < next)
    && (forall n, k :: n in m && k in m && n != k ==> m[n].obj != m[k].obj)
  }

  predicate NoSharedObjs(a: map<string, Iface>, b: map<string, Iface>) {
    forall n, k :: n in a && k in b ==> a[n].obj != b[k].obj
  }

  /** Object identities are never reused. */
  predicate ObjectsDistinct(st: State) {
    ObjsDistinct(st.aps, st.nextObj) && ObjsDistinct(st.clients, st.nextObj) && NoSharedObjs(st.aps, st.clients)
  }

  function LiveIndices(st: State): set<int> {
    (set n | n in st.aps :: st.aps[n].index) + (set n | n in st.clients :: st.clients[n].index)
  }

  lemma WithApDistinct(st: State, name: string, index: int)
    requires ObjectsDistinct(st)
    ensures ObjectsDistinct(WithAp(st, name, index))
  {
    var aps := st.aps[name := Iface(st.nextObj, index)];
    assert forall n :: n in aps ==> n == name || (n in st.aps && aps[n] == st.aps[n]);
  }

  lemma WithClientDistinct(st: State, name: string, index: int)
    requires ObjectsDistinct(st)
    ensures ObjectsDistinct(WithClient(st, name, index))
  {
    var clients := st.clients[name := Iface(st.nextObj, index)];
    assert forall n :: n in clients ==> n == name || (n in st.clients && clients[n] == st.clients[n]);
  }

  lemma WithoutDistinct(st: State, name: string)
    requires ObjectsDistinct(st)
    ensures ObjectsDistinct(WithoutAp(st, name)) && ObjectsDistinct(WithoutClient(st, name))
  {
  }

  /** Registering and forgetting a name changes no interface object. */
  lemma RegistryDistinct(st: State, name: string, wiphy: int, info: Option<BandInfo>)
    requires ObjectsDistinct(st)
    ensures ObjectsDistinct(Registered(st, name, wiphy, info)) && ObjectsDistinct(Unregistered(st, name))
  {
  }

  lemma CreateDistinct(st: State, name: string, setup: Setup, info: Option<BandInfo>)
    requires ObjectsDistinct(st)
    ensures ObjectsDistinct(Apply(st, CreateAp(name, Some(setup), info)))
    ensures ObjectsDistinct(Apply(st, CreateClient(name, Some(setup), info)))
  {
    WithApDistinct(st, name, setup.index);
    WithClientDistinct(st, name, setup.index);
    RegistryDistinct(WithAp(st, name, setup.index), name, setup.wiphy, info);
    RegistryDistinct(WithClient(st, name, setup.index), name, setup.wiphy, info);
  }

  lemma TearDownDistinct(st: State, name: string)
    requires ObjectsDistinct(st)
    ensures ObjectsDistinct(Apply(st, TearDownAp(name))) && ObjectsDistinct(Apply(st, TearDownClient(name)))
  {
    WithoutDistinct(st, name);
    RegistryDistinct(WithoutAp(st, name), name, 0, None);
    RegistryDistinct(WithoutClient(st, name), name, 0, None);
  }

  lemma OtherDistinct(st: State, op: Op)
    requires ObjectsDistinct(st) && (op.TearDownAll? || op.CountryCodeChanged? || op.RegDomainChanged?)
    ensures ObjectsDistinct(Apply(st, op))
  {
  }

  lemma ObjectsDistinctStep(st: State, op: Op)
    requires ObjectsDistinct(st)
    ensures ObjectsDistinct(Apply(st, op))
  {
    match op
    case CreateAp(name, setup, info) =>
      if setup.Some? {
        CreateDistinct(st, name, setup.value, info);
      }
    case CreateClient(name, setup, info) =>
      if setup.Some? {
        CreateDistinct(st, name, setup.value, info);
      }
    case TearDownAp(name) => TearDownDistinct(st, name);
    case TearDownClient(name) => TearDownDistinct(st, name);
    case TearDownAll => OtherDistinct(st, op);
    case CountryCodeChanged(_, _, _) => OtherDistinct(st, op);
    case RegDomainChanged(_, _, _, _) => OtherDistinct(st, op);
  }

  /** Subscribing and unsubscribing one index leaves the entries of every other index alone. */
  lemma OtherIndex(t: Tables, i: Iface, j: Iface)
    requires i.index != j.index
    ensures HasAp(SubscribeAp(t, i), j) == HasAp(UnsubscribeAp(t, i), j) == HasAp(t, j)
    ensures HasAp(SubscribeClient(t, i), j) == HasAp(UnsubscribeClient(t, i), j) == HasAp(t, j)
    ensures HasClient(SubscribeAp(t, i), j) == HasClient(UnsubscribeAp(t, i), j) == HasClient(t, j)
    ensures HasClient(SubscribeClient(t, i), j) == HasClient(UnsubscribeClient(t, i), j) == HasClient(t, j)
  {
  }

  /** Live interfaces that are all subscribed have different indices: they share the channel switch table. */
  lemma IndicesDiffer(st: State)
    requires ObjectsDistinct(st) && Subscribed(st)
    ensures forall n, m :: n in st.aps && m in st.aps && n != m ==> st.aps[n].index != st.aps[m].index
    ensures forall n, m :: n in st.clients && m in st.clients && n != m ==> st.clients[n].index != st.clients[m].index
    ensures forall n, m :: n in st.aps && m in st.clients ==> st.aps[n].index != st.clients[m].index
  {
    forall n | n in st.aps ensures Entry(st.tables.channelSwitch, st.aps[n]) {
      assert HasAp(st.tables, st.aps[n]);
    }
    forall n | n in st.clients ensures Entry(st.tables.channelSwitch, st.clients[n]) {
      assert HasClient(st.tables, st.clients[n]);
    }
  }

  /** Creating an AP leaves the entries of every index alone but its own and that of the AP it replaces. */
  lemma WithApKeeps(st: State, name: string, index: int, j: Iface)
    requires j.index != index && (name in st.aps ==> j.index != st.aps[name].index)
    ensures HasAp(WithAp(st, name, index).tables, j) == HasAp(st.tables, j)
    ensures HasClient(WithAp(st, name, index).tables, j) == HasClient(st.tables, j)
  {
    var i := Iface(st.nextObj, index);
    OtherIndex(st.tables, i, j);
    if name in st.aps {
      OtherIndex(SubscribeAp(st.tables, i), st.aps[name], j);
    }
  }

  lemma WithClientKeeps(st: State, name: string, index: int, j: Iface)
    requires j.index != index && (name in st.clients ==> j.index != st.clients[name].index)
    ensures HasAp(WithClient(st, name, index).tables, j) == HasAp(st.tables, j)
    ensures HasClient(WithClient(st, name, index).tables, j) == HasClient(st.tables, j)
  {
    var i := Iface(st.nextObj, index);
    OtherIndex(st.tables, i, j);
    if name in st.clients {
      OtherIndex(SubscribeClient(st.tables, i), st.clients[name], j);
    }
  }

  /** The new object itself is subscribed unless the replaced one had its index. */
  lemma NewIsSubscribed(st: State, name: string, index: int)
    ensures (name in st.aps ==> st.aps[name].index != index) ==>
              HasAp(WithAp(st, name, index).tables, Iface(st.nextObj, index))
    ensures (name in st.clients ==> st.clients[name].index != index) ==>
              HasClient(WithClient(st, name, index).tables, Iface(st.nextObj, index))
  {
  }

  lemma FreshApSubscribes(st: State, name: string, index: int)
    requires ObjectsDistinct(st) && Subscribed(st) && index !in LiveIndices(st)
    ensures Subscribed(WithAp(st, name, index))
  {
    var after := WithAp(st, name, index);
    IndicesDiffer(st);
    NewIsSubscribed(st, name, index);
    forall n | n in after.aps ensures HasAp(after.tables, after.aps[n]) {
      if n != name {
        WithApKeeps(st, name, index, st.aps[n]);
      }
    }
    forall n | n in st.clients ensures HasClient(after.tables, st.clients[n]) {
      WithApKeeps(st, name, index, st.clients[n]);
    }
  }

  lemma FreshClientSubscribes(st: State, name: string, index: int)
    requires ObjectsDistinct(st) && Subscribed(st) && index !in LiveIndices(st)
    ensures Subscribed(WithClient(st, name, index))
  {
    var after := WithClient(st, name, index);
    IndicesDiffer(st);
    NewIsSubscribed(st, name, index);
    forall n | n in after.clients ensures HasClient(after.tables, after.clients[n]) {
      if n != name {
        WithClientKeeps(st, name, index, st.clients[n]);
      }
    }
    forall n | n in st.aps ensures HasAp(after.tables, st.aps[n]) {
      WithClientKeeps(st, name, index, st.aps[n]);
    }
  }

  /**
   * Creating an interface keeps everyone subscribed exactly when its index is not in use by a live interface: the
   * old object of the same name would take the new one's entries with it, any other would lose its own.
   */
  lemma CreateApSubscribes(st: State, name: string, index: int)
    requires ObjectsDistinct(st) && Subscribed(st)
    ensures Subscribed(WithAp(st, name, index)) <==> index !in LiveIndices(st)
  {
    var after := WithAp(st, name, index);
    if index !in LiveIndices(st) {
      FreshApSubscribes(st, name, index);
    } else if n :| n in st.aps && st.aps[n].index == index {
      assert n in after.aps && name in after.aps;
      assert after.aps[name].index in after.tables.station ==> n != name;
    } else {
      var n :| n in st.clients && st.clients[n].index == index;
      assert n in after.clients;
    }
  }

  lemma CreateClientSubscribes(st: State, name: string, index: int)
    requires ObjectsDistinct(st) && Subscribed(st)
    ensures Subscribed(WithClient(st, name, index)) <==> index !in LiveIndices(st)
  {
    var after := WithClient(st, name, index);
    if index !in LiveIndices(st) {
      FreshClientSubscribes(st, name, index);
    } else if n :| n in st.clients && st.clients[n].index == index {
      assert n in after.clients && name in after.clients;
      assert after.clients[name].index in after.tables.mlme ==> n != name;
    } else {
      var n :| n in st.aps && st.aps[n].index == index;
      assert n in after.aps;
    }
  }

  lemma WithoutApSubscribed(st: State, name: string)
    requires ObjectsDistinct(st) && Subscribed(st)
    ensures Subscribed(WithoutAp(st, name))
  {
    if name in st.aps {
      IndicesDiffer(st);
      forall n | n in st.aps && n != name ensures HasAp(WithoutAp(st, name).tables, st.aps[n]) {
        OtherIndex(st.tables, st.aps[name], st.aps[n]);
      }
      forall n | n in st.clients ensures HasClient(WithoutAp(st, name).tables, st.clients[n]) {
        OtherIndex(st.tables, st.aps[name], st.clients[n]);
      }
    }
  }

  lemma WithoutClientSubscribed(st: State, name: string)
    requires ObjectsDistinct(st) && Subscribed(st)
    ensures Subscribed(WithoutClient(st, name))
  {
    if name in st.clients {
      IndicesDiffer(st);
      forall n | n in st.clients && n != name ensures HasClient(WithoutClient(st, name).tables, st.clients[n]) {
        OtherIndex(st.tables, st.clients[name], st.clients[n]);
      }
      forall n | n in st.aps ensures HasAp(WithoutClient(st, name).tables, st.aps[n]) {
        OtherIndex(st.tables, st.clients[name], st.aps[n]);
      }
    }
  }

  /** An index is taken only while no live interface has it. */
  predicate FreshIndex(st: State, op: Op) {
    (op.CreateAp? || op.CreateClient?) && op.setup.Some? ==> op.setup.value.index !in LiveIndices(st)
  }

  predicate FreshIndices(st: State, ops: seq<Op>)
    decreases |ops|
  {
    ops == [] || (FreshIndex(st, ops[0]) && FreshIndices(Apply(st, ops[0]), ops[1..]))
  }

  lemma SubscribedStep(st: State, op: Op)
    requires ObjectsDistinct(st) && Subscribed(st)
    ensures Subscribed(Apply(st, op)) <==> FreshIndex(st, op)
  {
    match op
    case CreateAp(name, setup, info) =>
      if setup.Some? {
        CreateApSubscribes(st, name, setup.value.index);
      }
    case CreateClient(name, setup, info) =>
      if setup.Some? {
        CreateClientSubscribes(st, name, setup.value.index);
      }
    case TearDownAp(name) => WithoutApSubscribed(st, name);
    case TearDownClient(name) => WithoutClientSubscribed(st, name);
    case TearDownAll =>
    case CountryCodeChanged(_, _, _) =>
    case RegDomainChanged(_, _, _, _) =>
  }

  /** Every state that the run reaches, the first and the last included, has the property. */
  ghost predicate Always(p: State -> bool, st: State, ops: seq<Op>) {
    forall k :: 0 <= k <= |ops| ==> p(Run(st, ops[..k]))
  }

  lemma AlwaysStep(p: State -> bool, st: State, ops: seq<Op>)
    requires ops != []
    ensures Always(p, st, ops) <==> p(st) && Always(p, Apply(st, ops[0]), ops[1..])
  {
    var next, rest := Apply(st, ops[0]), ops[1..];
    assert Run(st, ops[..0]) == st;
    forall k | 0 <= k < |ops| ensures Run(st, ops[..k + 1]) == Run(next, rest[..k]) {
      assert ops[..k + 1][0] == ops[0] && ops[..k + 1][1..] == rest[..k];
    }
    if Always(p, st, ops) {
      forall k | 0 <= k <= |rest| ensures p(Run(next, rest[..k])) {
        assert p(Run(st, ops[..k + 1]));
      }
      assert p(Run(st, ops[..0]));
    }
    if p(st) && Always(p, next, rest) {
      forall k | 0 <= k <= |ops| ensures p(Run(st, ops[..k])) {
        if k > 0 {
          assert p(Run(next, rest[..k - 1])) && Run(st, ops[..(k - 1) + 1]) == Run(next, rest[..k - 1]);
        }
      }
    }
  }

  lemma AlwaysEnds(p: State -> bool, st: State, ops: seq<Op>)
    requires Always(p, st, ops)
    ensures p(Run(st, ops))
  {
    assert ops[..|ops|] == ops && p(Run(st, ops[..|ops|]));
  }

  lemma AlwaysEmpty(p: State -> bool, st: State)
    requires p(st)
    ensures Always(p, st, [])
  {
    forall k | 0 <= k <= 0 ensures p(Run(st, [][..k])) {
      assert Run(st, [][..k]) == st;
    }
  }

  /** On a run every live interface is subscribed all the time exactly when every index is free when it is taken. */
  lemma {:induction false} SubscribedRun(st: State, ops: seq<Op>)
    requires ObjectsDistinct(st) && Subscribed(st)
    ensures Always(Subscribed, st, ops) <==> FreshIndices(st, ops)
    decreases |ops|
  {
    if ops == [] {
      AlwaysEmpty(Subscribed, st);
    } else {
      var next := Apply(st, ops[0]);
      AlwaysStep(Subscribed, st, ops);
      SubscribedStep(st, ops[0]);
      if FreshIndex(st, ops[0]) {
        ObjectsDistinctStep(st, ops[0]);
        SubscribedRun(next, ops[1..]);
      } else {
        assert Always(Subscribed, next, ops[1..]) ==> Subscribed(Run(next, ops[1..][..0]));
      }
    }
  }

  function Indices(m: map<string, Iface>): set<int> {
    set n | n in m :: m[n].index
  }

  lemma ApKeys(st: State)
    requires NoDangling(st) && Subscribed(st)
    ensures st.tables.station.Keys == Indices(st.aps)
    ensures st.tables.channelSwitch.Keys == Indices(st.aps) + Indices(st.clients)
  {
    forall n | n in st.aps ensures st.aps[n].index in st.tables.station && st.aps[n].index in st.tables.channelSwitch {
      assert HasAp(st.tables, st.aps[n]);
    }
    forall n | n in st.clients ensures st.clients[n].index in st.tables.channelSwitch {
      assert HasClient(st.tables, st.clients[n]);
    }
    OwnedKeys(st.tables.station, st.aps, map[]);
    OwnedKeys(st.tables.channelSwitch, st.aps, st.clients);
  }

  lemma ClientKeys(st: State, t: map<int, nat>)
    requires NoDangling(st) && Subscribed(st)
    requires t == st.tables.mlme || t == st.tables.frameTx || t == st.tables.scan || t == st.tables.schedScan
    ensures t.Keys == Indices(st.clients)
  {
    forall n | n in st.clients ensures st.clients[n].index in t {
      assert HasClient(st.tables, st.clients[n]);
    }
    OwnedKeys(t, map[], st.clients);
  }

  /** On every run that reuses an index only after teardown, the tables' keys are exactly the live interfaces. */
  lemma TablesExact(ops: seq<Op>)
    requires FreshIndices(INITIAL, ops)
    ensures var st := Run(INITIAL, ops);
            var aps, clients := Indices(st.aps), Indices(st.clients);
            && st.tables.station.Keys == aps && st.tables.channelSwitch.Keys == aps + clients
            && st.tables.mlme.Keys == st.tables.frameTx.Keys == clients
            && st.tables.scan.Keys == st.tables.schedScan.Keys == clients
  {
    NoDanglingRun(INITIAL, ops);
    SubscribedRun(INITIAL, ops);
    AlwaysEnds(Subscribed, INITIAL, ops);
    var st := Run(INITIAL, ops);
    ApKeys(st);
    ClientKeys(st, st.tables.mlme);
    ClientKeys(st, st.tables.frameTx);
    ClientKeys(st, st.tables.scan);
    ClientKeys(st, st.tables.schedScan);
  }

  lemma OwnedKeys(t: map<int, nat>, m: map<string, Iface>, m': map<string, Iface>)
    requires Owned(t, Ifaces(m) + Ifaces(m'))
    requires forall n :: n in m ==> m[n].index in t
    requires forall n :: n in m' ==> m'[n].index in t
    ensures t.Keys == Indices(m) + Indices(m')
    ensures Indices(map[]) == {}
  {
    forall k | k in t ensures k in Indices(m) + Indices(m') {
      if Iface(t[k], k) in Ifaces(m) {
        var n :| n in m && m[n] == Iface(t[k], k);
        assert m[n].index in Indices(m);
      } else {
        var n :| n in m' && m'[n] == Iface(t[k], k);
        assert m'[n].index in Indices(m');
      }
    }
  }

  /** Re-creating a live interface with its own index leaves the new object without subscriptions. */
  lemma RecreateLosesSubscriptions()
    ensures var op := CreateClient("wlan0", Some(Setup(5, 0)), None);
            !Subscribed(Run(INITIAL, [op, op])) && NoDangling(Run(INITIAL, [op, op]))
  {
    var op := CreateClient("wlan0", Some(Setup(5, 0)), None);
    var st := Apply(INITIAL, op);
    RunTwo(INITIAL, op, op);
    SubscribedStep(INITIAL, op);
    assert "wlan0" in st.clients && st.clients["wlan0"].index == 5;
    CreateClientSubscribes(st, "wlan0", 5);
    NoDanglingRun(INITIAL, [op, op]);
  }

  lemma RunTwo(st: State, a: Op, b: Op)
    ensures Run(st, [a, b]) == Apply(Apply(st, a), b)
  {
    assert [a, b][1..] == [b];
    assert Run(Apply(st, a), [b]) == Run(Apply(Apply(st, a), b), [b][1..]);
  }

  // ----- interface names, wiphys and bands -----

  /** The kernel's answers follow one fixed assignment of names to wiphys. */
  predicate Respects(op: Op, wiphyOf: string -> int) {
    match op
    case CreateAp(name, setup, _) => setup.Some? ==> setup.value.wiphy == wiphyOf(name)
    case CreateClient(name, setup, _) => setup.Some? ==> setup.value.wiphy == wiphyOf(name)
    case CountryCodeChanged(_, _, kernel) => forall n :: n in kernel.wiphyOf ==> kernel.wiphyOf[n] == wiphyOf(n)
    case RegDomainChanged(_, _, _, kernel) => forall n :: n in kernel.wiphyOf ==> kernel.wiphyOf[n] == wiphyOf(n)
    case _ => true
  }

  /** The wiphy map names exactly the live interfaces, and every claimed band belongs to a wiphy with an interface. */
  predicate Consistent(st: State, wiphyOf: string -> int) {
    && st.ifaceWiphy.Keys == st.aps.Keys + st.clients.Keys
    && (forall n :: n in st.ifaceWiphy ==> st.ifaceWiphy[n] == wiphyOf(n))
    && (forall b :: b in st.bands ==> st.bands[b] in st.ifaceWiphy.Values)
  }

  /** Some frequency list of the band (0: 2.4, 1: 5, 2: 60, 3: 6 GHz) is non-empty. */
  predicate Offers(info: BandInfo, band: int) {
    || (band == 0 && info.band2g != [])
    || (band == 1 && (info.band5g != [] || info.bandDfs != []))
    || (band == 2 && info.band60g != [])
    || (band == 3 && info.band6g != [])
  }

  /** The wiphy gets exactly the bands that it offers and nobody has; every other band stays with its owner. */
  lemma UpdateBandsClaims(bands: map<int, int>, wiphy: int, info: Option<BandInfo>)
    ensures forall b :: b in bands ==>
              b in UpdateBands(bands, wiphy, info) && UpdateBands(bands, wiphy, info)[b] == bands[b]
    ensures forall b :: b !in bands ==>
              (b in UpdateBands(bands, wiphy, info) <==> wiphy != NO_WIPHY && info.Some? && Offers(info.value, b))
    ensures forall b :: b in UpdateBands(bands, wiphy, info) && b !in bands ==>
              UpdateBands(bands, wiphy, info)[b] == wiphy
  {
  }

  lemma RegisteredConsistent(st: State, name: string, info: Option<BandInfo>, wiphyOf: string -> int)
    requires st.ifaceWiphy.Keys + {name} == st.aps.Keys + st.clients.Keys
    requires forall n :: n in st.ifaceWiphy ==> st.ifaceWiphy[n] == wiphyOf(n)
    requires forall b :: b in st.bands ==> st.bands[b] in st.ifaceWiphy.Values
    ensures Consistent(Registered(st, name, wiphyOf(name), info), wiphyOf)
  {
    var w := wiphyOf(name);
    var after := st.ifaceWiphy[name := w];
    UpdateBandsClaims(st.bands, w, info);
    assert name in after && after[name] == w;
    forall v | v in st.ifaceWiphy.Values ensures v in after.Values {
      var n :| n in st.ifaceWiphy && st.ifaceWiphy[n] == v;
      assert n in after && after[n] == v;
    }
  }

  lemma UnregisteredBands(st: State, name: string)
    requires forall b :: b in st.bands ==> st.bands[b] in st.ifaceWiphy.Values
    ensures var after := Unregistered(st, name);
            forall b :: b in after.bands ==> after.bands[b] in after.ifaceWiphy.Values
  {
    if name in st.ifaceWiphy {
      var w, rest := st.ifaceWiphy[name], st.ifaceWiphy - {name};
      forall v | v in st.ifaceWiphy.Values && v != w ensures v in rest.Values {
        var n :| n in st.ifaceWiphy && st.ifaceWiphy[n] == v;
        assert n in rest && rest[n] == v;
      }
    }
  }

  lemma {:induction false} RefreshedBands(bands: map<int, int>, names: seq<string>, kernel: Kernel, handled: set<int>)
    ensures var after := Refreshed(bands, names, kernel, handled);
            && (forall b :: b in bands ==> b in after && after[b] == bands[b])
            && (forall b :: b in after && b !in bands ==>
                  exists n :: n in names && n in kernel.wiphyOf && after[b] == kernel.wiphyOf[n])
    decreases |names|
  {
    if names != [] {
      assert names == [names[0]] + names[1..];
      if names[0] !in kernel.wiphyOf || kernel.wiphyOf[names[0]] in handled {
        RefreshedBands(bands, names[1..], kernel, handled);
      } else {
        var w := kernel.wiphyOf[names[0]];
        var info := if w in kernel.infoOf then Some(kernel.infoOf[w]) else None;
        UpdateBandsClaims(bands, w, info);
        RefreshedBands(UpdateBands(bands, w, info), names[1..], kernel, handled + {w});
      }
    }
  }

  lemma RefreshConsistent(st: State, op: Op, wiphyOf: string -> int)
    requires op.CountryCodeChanged? || op.RegDomainChanged?
    requires Consistent(st, wiphyOf) && Respects(op, wiphyOf) && OrdersMatch(st, op)
    ensures Consistent(Apply(st, op), wiphyOf)
  {
    var names := op.clientOrder + op.apOrder;
    RefreshedBands(st.bands, names, op.kernel, {});
    var after := Refreshed(st.bands, names, op.kernel, {});
    forall b | b in after ensures after[b] in st.ifaceWiphy.Values {
      if b !in st.bands {
        var n :| n in names && n in op.kernel.wiphyOf && after[b] == op.kernel.wiphyOf[n];
        assert n in st.ifaceWiphy && st.ifaceWiphy[n] == after[b];
      }
    }
  }

  lemma TearDownApConsistent(st: State, name: string, wiphyOf: string -> int)
    requires Consistent(st, wiphyOf)
    ensures Consistent(Unregistered(WithoutAp(st, name), name), wiphyOf) <==> name !in st.clients
  {
    UnregisteredBands(WithoutAp(st, name), name);
  }

  lemma TearDownClientConsistent(st: State, name: string, wiphyOf: string -> int)
    requires Consistent(st, wiphyOf)
    ensures Consistent(Unregistered(WithoutClient(st, name), name), wiphyOf) <==> name !in st.aps
  {
    UnregisteredBands(WithoutClient(st, name), name);
  }

  /**
   * Every operation keeps the registry consistent, with one exception that is exact: a teardown does so if and only
   * if the name is not live in the other role.
   */
  lemma ConsistentStep(st: State, op: Op, wiphyOf: string -> int)
    requires Consistent(st, wiphyOf) && Respects(op, wiphyOf) && OrdersMatch(st, op)
    ensures Consistent(Apply(st, op), wiphyOf) <==> RoleMatched(st, op)
  {
    match op
    case CreateAp(name, setup, info) =>
      if setup.Some? {
        RegisteredConsistent(WithAp(st, name, setup.value.index), name, info, wiphyOf);
      }
    case CreateClient(name, setup, info) =>
      if setup.Some? {
        RegisteredConsistent(WithClient(st, name, setup.value.index), name, info, wiphyOf);
      }
    case TearDownAp(name) => TearDownApConsistent(st, name, wiphyOf);
    case TearDownClient(name) => TearDownClientConsistent(st, name, wiphyOf);
    case TearDownAll =>
    case CountryCodeChanged(_, _, _) => RefreshConsistent(st, op, wiphyOf);
    case RegDomainChanged(_, _, _, _) => RefreshConsistent(st, op, wiphyOf);
  }

  /** Tearing down an AP that does not exist forgets the wiphy of the live client of that name. */
  lemma CrossTeardownLosesName()
    ensures var create := CreateClient("wlan0", Some(Setup(5, 0)), None);
            var st := Run(INITIAL, [create, TearDownAp("wlan0")]);
            "wlan0" in st.clients && "wlan0" !in st.ifaceWiphy && !Consistent(st, _ => 0)
  {
    var create := CreateClient("wlan0", Some(Setup(5, 0)), None);
    var st := Apply(INITIAL, create);
    RunTwo(INITIAL, create, TearDownAp("wlan0"));
    assert "wlan0" in st.clients && "wlan0" in Apply(st, TearDownAp("wlan0")).clients;
  }

  /** Teardown is role-matched when the name is not live in the other role. */
  predicate RoleMatched(st: State, op: Op) {
    !(op.TearDownAp? && op.name in st.clients) && !(op.TearDownClient? && op.name in st.aps)
  }

  /** The kernel keeps to its assignment and the loops visit the live interfaces. */
  ghost predicate Answered(st: State, ops: seq<Op>, wiphyOf: string -> int)
    decreases |ops|
  {
    ops == [] ||
    (&& Respects(ops[0], wiphyOf) && OrdersMatch(st, ops[0])
     && Answered(Apply(st, ops[0]), ops[1..], wiphyOf))
  }

  predicate RolesMatched(st: State, ops: seq<Op>)
    decreases |ops|
  {
    ops == [] || (RoleMatched(st, ops[0]) && RolesMatched(Apply(st, ops[0]), ops[1..]))
  }

  ghost function ConsistentWith(wiphyOf: string -> int): State -> bool {
    (st: State) => Consistent(st, wiphyOf)
  }

  /** On a run the registry is consistent all the time exactly when every teardown matches the role of its name. */
  lemma {:induction false} ConsistentRun(st: State, ops: seq<Op>, wiphyOf: string -> int)
    requires Consistent(st, wiphyOf) && Answered(st, ops, wiphyOf)
    ensures Always(ConsistentWith(wiphyOf), st, ops) <==> RolesMatched(st, ops)
    decreases |ops|
  {
    var p := ConsistentWith(wiphyOf);
    if ops == [] {
      AlwaysEmpty(p, st);
    } else {
      var next := Apply(st, ops[0]);
      AlwaysStep(p, st, ops);
      ConsistentStep(st, ops[0], wiphyOf);
      if RoleMatched(st, ops[0]) {
        ConsistentRun(next, ops[1..], wiphyOf);
      } else {
        assert Always(p, next, ops[1..]) ==> p(Run(next, ops[1..][..0]));
      }
    }
  }

  /**
   * On every run with role-matched teardown: when the last interface of a wiphy is gone so are all its bands, and
   * tearDownInterfaces empties all four maps and all six tables.
   */
  lemma RegistryOnEveryRun(ops: seq<Op>, wiphyOf: string -> int)
    requires Answered(INITIAL, ops, wiphyOf) && RolesMatched(INITIAL, ops)
    ensures var st := Run(INITIAL, ops);
            && st.ifaceWiphy.Keys == st.aps.Keys + st.clients.Keys
            && (forall w :: NoIfaceFor(st.ifaceWiphy, w) ==> w !in st.bands.Values)
            && Apply(st, TearDownAll) == INITIAL.(nextObj := st.nextObj)
  {
    assert Consistent(INITIAL, wiphyOf);
    ConsistentRun(INITIAL, ops, wiphyOf);
    AlwaysEnds(ConsistentWith(wiphyOf), INITIAL, ops);
    NoDanglingRun(INITIAL, ops);
    var st := Run(INITIAL, ops);
    TearDownAllOwned(st);
    assert forall b :: b in st.bands ==> st.bands[b] in st.ifaceWiphy.Values;
    assert forall b :: b !in Apply(st, TearDownAll).bands;
    assert Apply(st, TearDownAll).bands == map[];
  }

  // ----- band ownership is sticky -----

  predicate StillHas(bands: map<int, int>, band: int, wiphy: int) {
    band in bands && bands[band] == wiphy
  }

  /** The operation tears down the only interface on a wiphy. */
  predicate RemovesLastOn(st: State, op: Op, wiphy: int) {
    && (op.TearDownAp? || op.TearDownClient?)
    && op.name in st.ifaceWiphy && st.ifaceWiphy[op.name] == wiphy
    && NoIfaceFor(st.ifaceWiphy - {op.name}, wiphy)
  }

  /**
   * In any state whatever, a band changes hands only by being given up first: if an operation takes a band from a
   * wiphy it was tearDownInterfaces or the teardown of that wiphy's last interface, and nobody has the band after it.
   * Conversely the teardown of the last interface takes every band of the wiphy and no other.
   */
  lemma BandsAreSticky(st: State, op: Op, band: int)
    requires band in st.bands
    ensures var w, after := st.bands[band], Apply(st, op).bands;
            !StillHas(after, band, w) <==>
              (RemovesLastOn(st, op, w) || (op.TearDownAll? && w in st.ifaceWiphy.Values))
    ensures var w, after := st.bands[band], Apply(st, op).bands;
            !StillHas(after, band, w) ==> band !in after
  {
    match op
    case CreateAp(name, setup, info) =>
      if setup.Some? {
        UpdateBandsClaims(st.bands, setup.value.wiphy, info);
      }
    case CreateClient(name, setup, info) =>
      if setup.Some? {
        UpdateBandsClaims(st.bands, setup.value.wiphy, info);
      }
    case TearDownAp(name) =>
    case TearDownClient(name) =>
    case TearDownAll =>
    case CountryCodeChanged(clientOrder, apOrder, kernel) =>
      RefreshedBands(st.bands, clientOrder + apOrder, kernel, {});
    case RegDomainChanged(_, clientOrder, apOrder, kernel) =>
      RefreshedBands(st.bands, clientOrder + apOrder, kernel, {});
  }

  // ----- what each operation does -----

  /**
   * Creating an interface of either role claims, for a wiphy that had no interface, exactly the bands that it offers
   * and nobody has; all other bands stay as they are.
   */
  lemma CreateClaims(st: State, name: string, setup: Setup, info: Option<BandInfo>, b: int)
    ensures var first := setup.wiphy !in st.ifaceWiphy.Values && setup.wiphy != 0xFFFF_FFFF && info.Some?;
            forall op :: op == CreateAp(name, Some(setup), info) || op == CreateClient(name, Some(setup), info) ==>
              var after := Apply(st, op).bands;
              if b in st.bands then b in after && after[b] == st.bands[b]
              else (b in after <==> first && Offers(info.value, b)) && (b in after ==> after[b] == setup.wiphy)
  {
    UpdateBandsClaims(st.bands, setup.wiphy, info);
  }

  /** A created interface is registered under its name with its index, its wiphy and an object of its own. */
  lemma CreateRegisters(st: State, name: string, setup: Setup, info: Option<BandInfo>)
    requires ObjectsDistinct(st)
    ensures var ap := Apply(st, CreateAp(name, Some(setup), info));
            && name in ap.aps && ap.aps[name].index == setup.index && ap.aps - {name} == st.aps - {name}
            && ap.clients == st.clients && ap.ifaceWiphy == st.ifaceWiphy[name := setup.wiphy]
            && (forall n :: n in st.aps ==> ap.aps[name].obj != st.aps[n].obj)
    ensures var client := Apply(st, CreateClient(name, Some(setup), info));
            && name in client.clients && client.clients[name].index == setup.index
            && client.clients - {name} == st.clients - {name}
            && client.aps == st.aps && client.ifaceWiphy == st.ifaceWiphy[name := setup.wiphy]
            && (forall n :: n in st.clients ==> client.clients[name].obj != st.clients[n].obj)
  {
    var i := Iface(st.nextObj, setup.index);
    assert st.aps[name := i] - {name} == st.aps - {name};
    assert st.clients[name := i] - {name} == st.clients - {name};
  }

  /** When the kernel does not know the interface nothing happens. */
  lemma FailedCreate(st: State, name: string, info: Option<BandInfo>)
    ensures Apply(st, CreateAp(name, None, info)) == st == Apply(st, CreateClient(name, None, info))
  {
  }

  /** A teardown removes the interface of its role and, whichever role the name is live in, its wiphy entry. */
  lemma TearDownRemoves(st: State, name: string)
    ensures var after := Apply(st, TearDownAp(name));
            && after.aps == st.aps - {name} && after.clients == st.clients
            && after.ifaceWiphy == st.ifaceWiphy - {name}
    ensures var after := Apply(st, TearDownClient(name));
            && after.clients == st.clients - {name} && after.aps == st.aps
            && after.ifaceWiphy == st.ifaceWiphy - {name}
  {
    UnregisteredIs(WithoutAp(st, name), name);
    UnregisteredIs(WithoutClient(st, name), name);
    WithoutIs(st, name);
  }

  lemma UnregisteredIs(st: State, name: string)
    ensures var after := Unregistered(st, name);
            after == st.(bands := after.bands, ifaceWiphy := st.ifaceWiphy - {name})
  {
    assert name !in st.ifaceWiphy ==> st.ifaceWiphy - {name} == st.ifaceWiphy;
  }

  lemma WithoutIs(st: State, name: string)
    ensures var after := WithoutAp(st, name); after == st.(aps := st.aps - {name}, tables := after.tables)
    ensures var after := WithoutClient(st, name); after == st.(clients := st.clients - {name}, tables := after.tables)
  {
    assert name !in st.aps ==> st.aps - {name} == st.aps;
    assert name !in st.clients ==> st.clients - {name} == st.clients;
  }

  /** The wiphy of the name is known, and it offers the band. */
  predicate ClaimsBand(kernel: Kernel, name: string, b: int) {
    && name in kernel.wiphyOf && kernel.wiphyOf[name] != 0xFFFF_FFFF
    && kernel.wiphyOf[name] in kernel.infoOf && Offers(kernel.infoOf[kernel.wiphyOf[name]], b)
  }

  /** The first of the names whose wiphy offers the band. */
  function FirstClaim(kernel: Kernel, names: seq<string>, b: int): Option<int> {
    if names == [] then None
    else if ClaimsBand(kernel, names[0], b) then Some(kernel.wiphyOf[names[0]])
    else FirstClaim(kernel, names[1..], b)
  }

  lemma {:induction false} RefreshClaims(bands: map<int, int>, names: seq<string>, kernel: Kernel, handled: set<int>,
                                         b: int)
    requires b !in bands
    requires forall w :: w in handled && w != 0xFFFF_FFFF && w in kernel.infoOf ==> !Offers(kernel.infoOf[w], b)
    ensures var after := Refreshed(bands, names, kernel, handled);
            match FirstClaim(kernel, names, b) case None => b !in after case Some(w) => b in after && after[b] == w
    decreases |names|
  {
    if names != [] {
      if names[0] !in kernel.wiphyOf || kernel.wiphyOf[names[0]] in handled {
        RefreshClaims(bands, names[1..], kernel, handled, b);
      } else {
        var w := kernel.wiphyOf[names[0]];
        var info := if w in kernel.infoOf then Some(kernel.infoOf[w]) else None;
        var next := UpdateBands(bands, w, info);
        UpdateBandsClaims(bands, w, info);
        if b in next {
          RefreshedBands(next, names[1..], kernel, handled + {w});
        } else {
          RefreshClaims(next, names[1..], kernel, handled + {w}, b);
        }
      }
    }
  }

  /**
   * After a country code change a band that nobody had belongs to the first interface, clients before APs, whose wiphy
   * offers it, and to nobody if there is none; every other band stays with its owner and nothing else changes.
   */
  lemma CountryCodeClaims(st: State, clientOrder: seq<string>, apOrder: seq<string>, kernel: Kernel, b: int)
    ensures var after := Apply(st, CountryCodeChanged(clientOrder, apOrder, kernel));
            && after == st.(bands := after.bands)
            && if b in st.bands then b in after.bands && after.bands[b] == st.bands[b]
               else match FirstClaim(kernel, clientOrder + apOrder, b)
                 case None => b !in after.bands
                 case Some(w) => b in after.bands && after.bands[b] == w
  {
    RefreshedBands(st.bands, clientOrder + apOrder, kernel, {});
    if b !in st.bands {
      RefreshClaims(st.bands, clientOrder + apOrder, kernel, {}, b);
    }
  }

  /** A regulatory event does the same when its wiphy has an interface, and nothing when it has none. */
  lemma RegDomainIs(st: State, wiphy: int, clientOrder: seq<string>, apOrder: seq<string>, kernel: Kernel)
    ensures Apply(st, RegDomainChanged(wiphy, clientOrder, apOrder, kernel))
            == if exists n :: n in st.ifaceWiphy && st.ifaceWiphy[n] == wiphy
               then Apply(st, CountryCodeChanged(clientOrder, apOrder, kernel)) else st
  {
  }

  // ----- the code -----

  class Server {
    var aps: map<string, Iface>
    var clients: map<string, Iface>
    var ifaceWiphy: map<string, int>
    var bands: map<int, int>
    var tables: Tables
    var nextObj: nat

    ghost function View(): State
      reads this
    {
      State(aps, clients, ifaceWiphy, bands, tables, nextObj)
    }

    constructor ()
      ensures View() == INITIAL
    {
      aps, clients, ifaceWiphy, bands, tables, nextObj := map[], map[], map[], map[], NO_TABLES, 0;
    }

    /** find_if over the map. */
    method HasNoIfaceForWiphyIndex(wiphy: int) returns (none: bool)
      ensures none == NoIfaceFor(ifaceWiphy, wiphy)
    {
      var todo := ifaceWiphy.Keys;
      while todo != {}
        invariant todo <= ifaceWiphy.Keys
        invariant forall n :: n in ifaceWiphy && n !in todo ==> ifaceWiphy[n] != wiphy
        decreases todo
      {
        var n :| n in todo;
        if ifaceWiphy[n] == wiphy {
          return false;
        }
        todo := todo - {n};
      }
      return true;
    }

    method UpdateBandWiphyIndexMap(wiphy: int, info: Option<BandInfo>)
      modifies this`bands
      ensures bands == UpdateBands(old(bands), wiphy, info)
    {
      if wiphy == NO_WIPHY || info.None? {
        return;
      }
      var i := info.value;
      ClaimBand(NL80211_BAND_2GHZ, wiphy, |i.band2g| != 0);
      ClaimBand(NL80211_BAND_5GHZ, wiphy, |i.band5g| != 0);
      ClaimBand(NL80211_BAND_5GHZ, wiphy, |i.bandDfs| != 0);
      ClaimBand(NL80211_BAND_6GHZ, wiphy, |i.band6g| != 0);
      ClaimBand(NL80211_BAND_60GHZ, wiphy, |i.band60g| != 0);
    }

    /** One of the five conditional insertions. */
    method ClaimBand(band: int, wiphy: int, present: bool)
      modifies this`bands
      ensures bands == Claim(old(bands), band, wiphy, present)
    {
      if present && band !in bands {
        bands := bands[band := wiphy];
      }
    }

    /** Erase while iterating: the cursor moves to the next larger key whether or not the entry stays. */
    method EraseBandWiphyIndexMap(wiphy: int)
      modifies this`bands
      ensures bands == EraseBands(old(bands), wiphy)
    {
      var todo := bands.Keys;
      while todo != {}
        invariant todo <= bands.Keys <= old(bands).Keys
        invariant forall b :: b in todo ==> bands[b] == old(bands)[b]
        invariant forall b :: b in old(bands) && b !in todo ==> (b in bands <==> old(bands)[b] != wiphy)
        invariant forall b :: b in bands ==> bands[b] == old(bands)[b]
        decreases todo
      {
        var it := Least(todo);
        todo := todo - {it};
        if bands[it] == wiphy {
          bands := bands - {it};
        }
      }
      ErasedIs(old(bands), wiphy, bands);
    }

    method RegisterIface(name: string, wiphy: int, info: Option<BandInfo>)
      modifies this`bands, this`ifaceWiphy
      ensures View() == Registered(old(View()), name, wiphy, info)
    {
      var none := HasNoIfaceForWiphyIndex(wiphy);
      if none {
        UpdateBandWiphyIndexMap(wiphy, info);
      }
      ifaceWiphy := ifaceWiphy[name := wiphy];
    }

    method UnregisterIface(name: string)
      modifies this`bands, this`ifaceWiphy
      ensures View() == Unregistered(old(View()), name)
    {
      if name in ifaceWiphy {
        var wiphy := ifaceWiphy[name];
        ifaceWiphy := ifaceWiphy - {name};
        var none := HasNoIfaceForWiphyIndex(wiphy);
        if none {
          EraseBandWiphyIndexMap(wiphy);
        }
      }
    }

    method CreateApInterface(name: string, setup: Option<Setup>, info: Option<BandInfo>)
      modifies this
      ensures View() == Apply(old(View()), CreateAp(name, setup, info))
    {
      if setup.None? {
        return;
      }
      var ap := Iface(nextObj, setup.value.index);
      nextObj := nextObj + 1;
      tables := SubscribeAp(tables, ap);
      var before := aps;
      aps := aps[name := ap];
      if name in before {  // the replaced object is destroyed here
        tables := UnsubscribeAp(tables, before[name]);
      }
      RegisterIface(name, setup.value.wiphy, info);
    }

    method CreateClientInterface(name: string, setup: Option<Setup>, info: Option<BandInfo>)
      modifies this
      ensures View() == Apply(old(View()), CreateClient(name, setup, info))
    {
      if setup.None? {
        return;
      }
      var client := Iface(nextObj, setup.value.index);
      nextObj := nextObj + 1;
      tables := SubscribeClient(tables, client);
      var before := clients;
      clients := clients[name := client];
      if name in before {
        tables := UnsubscribeClient(tables, before[name]);
      }
      RegisterIface(name, setup.value.wiphy, info);
    }

    method TearDownApInterface(name: string) returns (success: bool)
      modifies this
      ensures success == (name in old(aps))
      ensures View() == Apply(old(View()), TearDownAp(name))
    {
      success := false;
      if name in aps {
        tables := UnsubscribeAp(tables, aps[name]);
        aps := aps - {name};
        success := true;
      }
      UnregisterIface(name);
    }

    method TearDownClientInterface(name: string) returns (success: bool)
      modifies this
      ensures success == (name in old(clients))
      ensures View() == Apply(old(View()), TearDownClient(name))
    {
      success := false;
      if name in clients {
        tables := UnsubscribeClient(tables, clients[name]);
        clients := clients - {name};
        success := true;
      }
      UnregisterIface(name);
    }

    /** Erase the bands of every wiphy that has an interface, one interface at a time. */
    method EraseAllBands()
      modifies this`bands
      ensures bands == map b | b in old(bands) && old(bands)[b] !in ifaceWiphy.Values :: old(bands)[b]
    {
      var todo := ifaceWiphy.Keys;
      ghost var erased: set<int> := {};
      while todo != {}
        invariant todo <= ifaceWiphy.Keys
        invariant bands == map b | b in old(bands) && old(bands)[b] !in erased :: old(bands)[b]
        invariant erased <= ifaceWiphy.Values
        invariant forall n :: n in ifaceWiphy && n !in todo ==> ifaceWiphy[n] in erased
        decreases todo
      {
        var n :| n in todo;
        todo := todo - {n};
        EraseBandWiphyIndexMap(ifaceWiphy[n]);
        erased := erased + {ifaceWiphy[n]};
      }
      assert erased == ifaceWiphy.Values;
    }

    method TearDownInterfaces()
      modifies this
      ensures View() == Apply(old(View()), TearDownAll)
    {
      DestroyClients();
      DestroyAps();
      EraseAllBands();
      ifaceWiphy := map[];
    }

    /** client_interfaces_.clear(): every destructor unsubscribes its own index. */
    method DestroyClients()
      modifies this`clients, this`tables
      ensures clients == map[] && tables == DropClients(old(tables), old(clients))
    {
      ghost var all, t0 := clients, tables;
      DropNothing(tables);
      assert all - all.Keys == map[];
      while clients.Keys != {}
        invariant clients.Keys <= all.Keys && forall n :: n in clients ==> clients[n] == all[n]
        invariant tables == DropClients(t0, all - clients.Keys)
        decreases clients.Keys
      {
        var n :| n in clients.Keys;
        DropClient(t0, all, clients.Keys, n);
        tables := UnsubscribeClient(tables, clients[n]);
        clients := clients - {n};
      }
      assert clients.Keys == {} && all - {} == all;
    }

    method DestroyAps()
      modifies this`aps, this`tables
      ensures aps == map[] && tables == DropAps(old(tables), old(aps))
    {
      ghost var all, t0 := aps, tables;
      DropNothing(tables);
      assert all - all.Keys == map[];
      while aps.Keys != {}
        invariant aps.Keys <= all.Keys && forall n :: n in aps ==> aps[n] == all[n]
        invariant tables == DropAps(t0, all - aps.Keys)
        decreases aps.Keys
      {
        var n :| n in aps.Keys;
        DropAp(t0, all, aps.Keys, n);
        tables := UnsubscribeAp(tables, aps[n]);
        aps := aps - {n};
      }
      assert aps.Keys == {} && all - {} == all;
    }

    method HandleCountryCodeChanged(clientOrder: seq<string>, apOrder: seq<string>, kernel: Kernel)
      modifies this`bands
      ensures View() == Apply(old(View()), CountryCodeChanged(clientOrder, apOrder, kernel))
    {
      var names := clientOrder + apOrder;
      var handled: set<int> := {};
      assert names[0..] == names;
      for i := 0 to |names|
        invariant Refreshed(old(bands), names, kernel, {}) == Refreshed(bands, names[i..], kernel, handled)
      {
        assert names[i..][1..] == names[i + 1..];
        if names[i] in kernel.wiphyOf {
          var w := kernel.wiphyOf[names[i]];
          if w !in handled {
            UpdateBandWiphyIndexMap(w, if w in kernel.infoOf then Some(kernel.infoOf[w]) else None);
            handled := handled + {w};
          }
        }
      }
    }

    method OnRegDomainChanged(wiphy: int, clientOrder: seq<string>, apOrder: seq<string>, kernel: Kernel)
      modifies this`bands
      ensures View() == Apply(old(View()), RegDomainChanged(wiphy, clientOrder, apOrder, kernel))
    {
      var none := HasNoIfaceForWiphyIndex(wiphy);
      if !none {
        HandleCountryCodeChanged(clientOrder, apOrder, kernel);
      }
    }
  }

  lemma ErasedIs(before: map<int, int>, wiphy: int, after: map<int, int>)
    requires after.Keys <= before.Keys
    requires forall b :: b in before ==> (b in after <==> before[b] != wiphy)
    requires forall b :: b in after ==> after[b] == before[b]
    ensures after == EraseBands(before, wiphy)
  {
    var e := EraseBands(before, wiphy);
    assert forall b :: b in e <==> b in after;
    assert forall b :: b in e ==> e[b] == after[b];
  }

  lemma DropNothing(t: Tables)
    ensures DropClients(t, map[]) == t == DropAps(t, map[])
  {
    NothingDropped(t.station);
    NothingDropped(t.channelSwitch);
    NothingDropped(t.mlme);
    NothingDropped(t.frameTx);
    NothingDropped(t.scan);
    NothingDropped(t.schedScan);
  }

  lemma NothingDropped(t: map<int, nat>)
    ensures DropIndices(t, map[]) == t
  {
  }

  lemma DropClient(t: Tables, all: map<string, Iface>, live: set<string>, n: string)
    requires n in live && live <= all.Keys
    ensures DropClients(t, all - (live - {n})) == UnsubscribeClient(DropClients(t, all - live), all[n])
  {
    DropOne(t.channelSwitch, all, live, n);
    DropOne(t.mlme, all, live, n);
    DropOne(t.frameTx, all, live, n);
    DropOne(t.scan, all, live, n);
    DropOne(t.schedScan, all, live, n);
  }

  lemma DropAp(t: Tables, all: map<string, Iface>, live: set<string>, n: string)
    requires n in live && live <= all.Keys
    ensures DropAps(t, all - (live - {n})) == UnsubscribeAp(DropAps(t, all - live), all[n])
  {
    DropOne(t.station, all, live, n);
    DropOne(t.channelSwitch, all, live, n);
  }

  lemma DropOne(t: map<int, nat>, all: map<string, Iface>, live: set<string>, n: string)
    requires n in live && live <= all.Keys
    ensures DropIndices(t, all - (live - {n})) == DropIndices(t, all - live) - {all[n].index}
  {
    var fewer, more := all - live, all - (live - {n});
    assert n in more && more[n] == all[n] && forall m :: m in more <==> m == n || m in fewer;
  }
}
